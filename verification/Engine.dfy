// The sampling engine and the aggregator: in which order they call the modules
// and the outputs, whichever of those calls fail.
module Engine {
  import opened Options
  import opened Core

  datatype Signal = Tick | Deadline | Cancel

  datatype Call =
    | Start(m: nat, ok: bool)
    | Measure(tick: nat, m: nat)
    | Write(tick: nat, m: nat, output: nat, samples: seq<Sample>, ok: bool)
    | Stop(m: nat, ok: bool)
    | Close(output: nat, ok: bool)

  // What the modules and the outputs answer: whether starting, stopping and
  // writing succeeds, and what measuring returns.
  datatype Answers = Answers(
    starts: nat -> bool, replies: (nat, nat) -> Reply, writes: (nat, nat, nat) -> bool,
    stops: nat -> bool, closes: nat -> bool)

  datatype Outcome = Returned | StartFailed(m: nat) | Panicked

  // ---------- configured times ----------

  // A product of 64-bit signed integers, as Go computes it.
  function Signed64(x: int): (r: int)
    ensures -0x8000_0000_0000_0000 <= r < 0x8000_0000_0000_0000
  {
    (x + 0x8000_0000_0000_0000) % 0x1_0000_0000_0000_0000 - 0x8000_0000_0000_0000
  }

  datatype Config = Config(samplingTime: int, interval: int, pid: int, modules: map<string, bool>)
  {
    // In nanoseconds; the sampling time is configured in milliseconds.
    function SamplingCadence(): int { Signed64(samplingTime * 1_000_000) }

    // In nanoseconds; the interval is configured in seconds.
    function MeasurementDuration(): int
    {
      if interval <= 0 then 0 else Signed64(interval * 1_000_000_000)
    }

    predicate Validate()
    {
      samplingTime >= 0 && interval >= 0 && pid >= 0 && exists name | name in modules :: modules[name]
    }
  }

  // ---------- expected calls ----------

  function Starts(a: Answers, n: nat): seq<Call> { seq(n, i requires 0 <= i < n => Start(i, a.starts(i))) }

  function Stops(a: Answers, n: nat): seq<Call> { seq(n, i requires 0 <= i < n => Stop(i, a.stops(i))) }

  function Offers(a: Answers, t: nat, m: nat, samples: seq<Sample>, outputs: nat): seq<Call>
  {
    seq(outputs, o requires 0 <= o < outputs => Write(t, m, o, samples, a.writes(t, m, o)))
  }

  // One module sampled: a successful batch that is not empty goes to all outputs.
  function Sampled(a: Answers, t: nat, m: nat, outputs: nat): seq<Call>
  {
    var reply := a.replies(t, m);
    [Measure(t, m)] + if reply.Batch? && reply.samples != [] then Offers(a, t, m, reply.samples, outputs) else []
  }

  // The first n modules sampled at tick t.
  function Round(a: Answers, t: nat, n: nat, outputs: nat): seq<Call>
  {
    if n == 0 then [] else Round(a, t, n - 1, outputs) + Sampled(a, t, n - 1, outputs)
  }

  function Rounds(a: Answers, ticks: nat, n: nat, outputs: nat): seq<Call>
  {
    if ticks == 0 then [] else Rounds(a, ticks - 1, n, outputs) + Round(a, ticks - 1, n, outputs)
  }

  // How often the engine samples until a signal ends the loop.
  function Ticks(signals: seq<Signal>, deadline: bool): nat
  {
    if signals == [] then 0
    else match signals[0]
      case Tick => 1 + Ticks(signals[1..], deadline)
      case Deadline => if deadline then 0 else Ticks(signals[1..], deadline)
      case Cancel => 0
  }

  // The first module that fails to start, or n.
  function FirstFailing(a: Answers, n: nat): (k: nat)
    ensures k <= n && (forall i :: 0 <= i < k ==> a.starts(i)) && (k < n ==> !a.starts(k))
  {
    if n == 0 then 0
    else
      var k := FirstFailing(a, n - 1);
      if k < n - 1 then k else if a.starts(n - 1) then n else n - 1
  }

  function OutcomeOf(a: Answers, cfg: Config, n: nat): Outcome
  {
    if FirstFailing(a, n) < n then StartFailed(FirstFailing(a, n))
    else if cfg.SamplingCadence() <= 0 then Panicked
    else Returned
  }

  function RunCalls(a: Answers, cfg: Config, n: nat, outputs: nat, signals: seq<Signal>): seq<Call>
  {
    match OutcomeOf(a, cfg, n)
    case StartFailed(k) => Starts(a, k + 1)
    case Panicked => Starts(a, n) + Stops(a, n)
    case Returned => Starts(a, n) + Rounds(a, Ticks(signals, cfg.MeasurementDuration() > 0), n, outputs) + Stops(a, n)
  }

  // ---------- the code ----------

  class Trace {
    var calls: seq<Call>

    constructor ()
      ensures calls == []
    {
      calls := [];
    }
  }

  class Aggregator {
    const outputs: nat
    const trace: Trace
    const answers: Answers

    constructor (outputs: nat, trace: Trace, answers: Answers)
      ensures this.outputs == outputs && this.trace == trace && this.answers == answers
    {
      this.outputs, this.trace, this.answers := outputs, trace, answers;
    }

    // Hands a batch to every output; one that fails does not stop the others.
    method Process(t: nat, m: nat, samples: seq<Sample>)
      modifies trace
      ensures trace.calls == old(trace.calls) + if samples == [] then [] else Offers(answers, t, m, samples, outputs)
    {
      if |samples| == 0 {
        return;
      }
      for o := 0 to outputs
        invariant trace.calls == old(trace.calls) + Offers(answers, t, m, samples, outputs)[..o]
      {
        trace.calls := trace.calls + [Write(t, m, o, samples, answers.writes(t, m, o))];
      }
    }

    // Closes every output and returns the first that failed.
    method CloseAll() returns (firstErr: Option<nat>)
      modifies trace
      ensures trace.calls == old(trace.calls) + seq(outputs, o requires 0 <= o < outputs => Close(o, answers.closes(o)))
      ensures firstErr.None? ==> forall o :: 0 <= o < outputs ==> answers.closes(o)
      ensures firstErr.Some? ==> firstErr.value < outputs && !answers.closes(firstErr.value)
                                 && forall o :: 0 <= o < firstErr.value ==> answers.closes(o)
    {
      firstErr := None;
      ghost var all := seq(outputs, o requires 0 <= o < outputs => Close(o, answers.closes(o)));
      for o := 0 to outputs
        invariant trace.calls == old(trace.calls) + all[..o]
        invariant firstErr.None? ==> forall j :: 0 <= j < o ==> answers.closes(j)
        invariant firstErr.Some? ==> firstErr.value < o && !answers.closes(firstErr.value)
                                     && forall j :: 0 <= j < firstErr.value ==> answers.closes(j)
      {
        var ok := answers.closes(o);
        trace.calls := trace.calls + [Close(o, ok)];
        if !ok && firstErr == None {
          firstErr := Some(o);
        }
      }
    }
  }

  class Engine {
    const cfg: Config
    const modules: nat
    const agg: Aggregator

    constructor (cfg: Config, modules: nat, agg: Aggregator)
      ensures this.cfg == cfg && this.modules == modules && this.agg == agg
    {
      this.cfg, this.modules, this.agg := cfg, modules, agg;
    }

    // One round over the modules.
    method Sample(t: nat)
      modifies agg.trace
      ensures agg.trace.calls == old(agg.trace.calls) + Round(agg.answers, t, modules, agg.outputs)
    {
      for i := 0 to modules
        invariant agg.trace.calls == old(agg.trace.calls) + Round(agg.answers, t, i, agg.outputs)
      {
        agg.trace.calls := agg.trace.calls + [Measure(t, i)];
        match agg.answers.replies(t, i)
        case Failed =>
        case Batch(samples) => agg.Process(t, i, samples);
      }
    }

    // Stops the started modules, as Run does on its way out.
    method StopAll(started: seq<nat>)
      requires started == seq(modules, i => i)
      modifies agg.trace
      ensures agg.trace.calls == old(agg.trace.calls) + Stops(agg.answers, modules)
    {
      for i := 0 to |started|
        invariant agg.trace.calls == old(agg.trace.calls) + Stops(agg.answers, modules)[..i]
      {
        agg.trace.calls := agg.trace.calls + [Stop(started[i], agg.answers.stops(started[i]))];
      }
    }

    // Starts the modules in order, up to the first that fails.
    method StartAll() returns (started: seq<nat>)
      modifies agg.trace
      ensures |started| == FirstFailing(agg.answers, modules) && started == seq(|started|, i => i)
      ensures agg.trace.calls == old(agg.trace.calls)
                + Starts(agg.answers, if |started| < modules then |started| + 1 else modules)
    {
      started := [];
      for i := 0 to modules
        invariant started == seq(i, j => j)
        invariant forall j :: 0 <= j < i ==> agg.answers.starts(j)
        invariant agg.trace.calls == old(agg.trace.calls) + Starts(agg.answers, i)
      {
        var ok := agg.answers.starts(i);
        agg.trace.calls := agg.trace.calls + [Start(i, ok)];
        assert Starts(agg.answers, i + 1) == Starts(agg.answers, i) + [Start(i, ok)];
        if !ok {
          return;
        }
        started := started + [i];
      }
    }

    // The event loop; when the signals run out the context is cancelled.
    method Loop(signals: seq<Signal>, deadline: bool)
      modifies agg.trace
      ensures agg.trace.calls == old(agg.trace.calls)
                + Rounds(agg.answers, Ticks(signals, deadline), modules, agg.outputs)
    {
      hide Round;
      var rest := signals;
      var t := 0;
      while rest != []
        invariant t + Ticks(rest, deadline) == Ticks(signals, deadline)
        invariant agg.trace.calls == old(agg.trace.calls) + Rounds(agg.answers, t, modules, agg.outputs)
        decreases |rest|
      {
        if rest[0] == Cancel || (rest[0] == Deadline && deadline) {
          break;
        }
        if rest[0] == Tick {
          Sample(t);
          t := t + 1;
        }
        rest := rest[1..];
      }
    }

    method Run(signals: seq<Signal>) returns (outcome: Outcome)
      modifies agg.trace
      ensures outcome == OutcomeOf(agg.answers, cfg, modules)
      ensures agg.trace.calls == old(agg.trace.calls) + RunCalls(agg.answers, cfg, modules, agg.outputs, signals)
    {
      hide Starts, Stops, Rounds, Ticks;
      var started := StartAll();
      if |started| < modules {
        return StartFailed(|started|);
      }
      if cfg.SamplingCadence() <= 0 {
        StopAll(started);
        return Panicked;
      }
      Loop(signals, cfg.MeasurementDuration() > 0);
      StopAll(started);
      return Returned;
    }
  }
}
