// What arrives at the outputs against what the methods report: the three methods
// behind the engine.
module Delivery {
  import opened Options
  import opened Core
  import opened Sums
  import opened Engine
  import EngineLaws
  import CpuMethod
  import NicMethod
  import RaplMethod

  // ---------- the methods, seen alike ----------

  datatype Meter =
    | Cpu(cpu: CpuMethod.Config, cpuState: CpuMethod.State)
    | Nic(nic: NicMethod.Config, nicState: NicMethod.State)
    | Rapl(rapl: RaplMethod.Config, raplState: RaplMethod.State)
  {
    function Total(): real
    {
      match this
      case Cpu(_, st) => st.totalEnergyJ
      case Nic(_, st) => st.totalEnergyJ
      case Rapl(_, st) => st.totalEnergyJ
    }

    function Last(): real
    {
      match this
      case Cpu(_, st) => st.lastReadTime
      case Nic(_, st) => st.lastReadTime
      case Rapl(_, st) => st.lastReadTime
    }

    function Cadence(): real
    {
      match this
      case Cpu(c, _) => c.cadence
      case Nic(c, _) => c.cadence
      case Rapl(c, _) => c.cadence
    }
  }

  // What a method sees at a tick.
  datatype Look =
    | CpuLook(cpu: CpuMethod.Observation)
    | NicLook(nic: NicMethod.Observation)
    | RaplLook(rapl: RaplMethod.Observation)
  {
    function Now(): real
    {
      match this
      case CpuLook(o) => o.now
      case NicLook(o) => o.now
      case RaplLook(o) => o.now
    }
  }

  ghost predicate Suits(m: Meter, o: Look)
  {
    match m
    case Cpu(c, _) => c.Valid() && o.CpuLook? && CpuMethod.Fits(c, o.cpu)
    case Nic(c, _) => c.Valid() && o.NicLook? && (o.nic.read.Some? ==> o.nic.read.value.Keys <= c.features.Keys)
    case Rapl(c, _) => c.Valid() && o.RaplLook?
  }

  // The state after Measure, as the methods specify it.
  ghost function Step(m: Meter, o: Look): Meter
    requires Suits(m, o)
  {
    match m
    case Cpu(c, st) => Cpu(c, CpuMethod.AfterMeasure(c, st, o.cpu))
    case Nic(c, st) => Nic(c, NicMethod.AfterMeasure(c, st, o.nic.now, o.nic.read))
    case Rapl(c, st) => Rapl(c, RaplMethod.AfterMeasure(c, st, o.rapl))
  }

  // The reply of Measure, as the methods specify it.
  ghost predicate Replies(m: Meter, o: Look, r: Reply)
    requires Suits(m, o)
  {
    match m
    case Cpu(c, st) => CpuMethod.Replies(c, st, o.cpu, r)
    case Nic(c, st) => NicMethod.Replies(c, st, o.nic.now, o.nic.read, r)
    case Rapl(c, st) => RaplMethod.Replies(c, st, o.rapl, r)
  }

  // The references for the next difference all come from this look.
  predicate References(m: Meter, o: Look)
  {
    match m
    case Cpu(_, st) => o.CpuLook? && o.cpu.read == Some(st.lastReadMap) && st.lastReadTime == o.cpu.now
    case Nic(_, st) => o.NicLook? && o.nic.read == Some(st.lastRead) && st.lastReadTime == o.nic.now
    case Rapl(c, st) =>
      && o.RaplLook? && o.rapl.energyUJ == Some(st.lastEnergyUJ) && st.lastReadTime == o.rapl.now
      && (c.pid > 0 ==> o.rapl.cpu == Some(st.lastCPU))
  }

  function EnergyOf(samples: seq<Sample>): real
  {
    if samples == [] then 0.0 else EnergyOf(samples[..|samples| - 1]) + samples[|samples| - 1].energyJ
  }

  lemma {:induction false} EnergyOfOne(s: Sample)
    ensures EnergyOf([s]) == s.energyJ
  {
    assert [s][..0] == [];
  }

  predicate Delivers(r: Reply) { r.Batch? && r.samples != [] }

  function EnergyIn(r: Reply): real { if r.Batch? then EnergyOf(r.samples) else 0.0 }

  // One tick, for every method: a delivered sample carries exactly the energy
  // added to the total, is its power times the interval, and renews all
  // references; otherwise nothing changes.
  lemma {:induction false} OneTick(m: Meter, o: Look, r: Reply)
    requires Suits(m, o) && Replies(m, o, r)
    ensures Step(m, o).Total() == m.Total() + EnergyIn(r)
    ensures Step(m, o).Cadence() == m.Cadence()
    ensures if Delivers(r) then
              && |r.samples| == 1 && r.samples[0].timestamp == o.Now()
              && IsTimes(if o.Now() > m.Last() then o.Now() - m.Last() else m.Cadence(), r.samples[0].powerW, r.samples[0].energyJ)
              && EnergyIn(r) == r.samples[0].energyJ
              && References(Step(m, o), o) && Step(m, o).Last() == o.Now()
            else Step(m, o) == m
  {
    hide IsTimes, CpuMethod.IntervalEnergy, NicMethod.Joules, RaplMethod.IntervalEnergy;
    if r.Batch? && |r.samples| == 1 { EnergyOfOne(r.samples[0]); }
  }

  // Who is measured, and by which module.
  lemma {:induction false} SampleOf(m: Meter, o: Look, r: Reply)
    requires Suits(m, o) && Replies(m, o, r) && Delivers(r)
    ensures match m
      case Cpu(c, _) => r.samples[0].source == "cpu" && r.samples[0].pid == c.pid
      case Nic(c, _) => r.samples[0].source == "nic" && r.samples[0].pid == c.pid
      case Rapl(c, _) => r.samples[0].source == "cpu" && r.samples[0].pid == c.pid
  {
    hide IsTimes, CpuMethod.IntervalEnergy, NicMethod.Joules, RaplMethod.IntervalEnergy, Elapsed;
  }

  // The counters cannot be read, or the method is not running.
  predicate Unreadable(m: Meter, o: Look)
  {
    match m
    case Cpu(_, st) => !st.loaded || (o.CpuLook? && o.cpu.read.None?)
    case Nic(_, st) => !st.loaded || (o.NicLook? && o.nic.read.None?)
    case Rapl(_, st) => !st.started || (o.RaplLook? && o.rapl.energyUJ.None?)
  }

  // Measure fails exactly if the counters cannot be read; an exited process is no
  // failure, but gives an empty batch.
  lemma {:induction false} NothingDelivered(m: Meter, o: Look, r: Reply)
    requires Suits(m, o) && Replies(m, o, r)
    ensures r.Failed? <==> Unreadable(m, o)
    ensures r == Batch([]) <==> !Unreadable(m, o) && m.Rapl? && m.rapl.pid > 0 && o.rapl.cpu.None?
  {
    hide IsTimes, CpuMethod.IntervalEnergy, NicMethod.Joules, RaplMethod.IntervalEnergy, Elapsed;
  }

  // ---------- runs ----------

  ghost predicate SuitsAll(m: Meter, obs: seq<Look>)
  {
    forall i :: 0 <= i < |obs| ==> Suits(m, obs[i])
  }

  ghost function After(m: Meter, obs: seq<Look>): (m': Meter)
    requires SuitsAll(m, obs)
    ensures forall p :: Suits(m, p) ==> Suits(m', p)
  {
    if obs == [] then m else Step(After(m, obs[..|obs| - 1]), obs[|obs| - 1])
  }

  ghost predicate Answering(m: Meter, obs: seq<Look>, rs: seq<Reply>)
    requires SuitsAll(m, obs)
  {
    |rs| == |obs| && forall i :: 0 <= i < |obs| ==> Replies(After(m, obs[..i]), obs[i], rs[i])
  }

  lemma {:induction false} AnsweringPrefix(m: Meter, obs: seq<Look>, rs: seq<Reply>)
    requires SuitsAll(m, obs) && Answering(m, obs, rs) && |obs| > 0
    ensures var n := |obs| - 1;
      Answering(m, obs[..n], rs[..n]) && Replies(After(m, obs[..n]), obs[n], rs[n])
  {
    var n := |obs| - 1;
    assert forall i :: 0 <= i < n ==> obs[..n][..i] == obs[..i];
  }

  function Sent(rs: seq<Reply>): real
  {
    if rs == [] then 0.0 else Sent(rs[..|rs| - 1]) + EnergyIn(rs[|rs| - 1])
  }

  // Over any run, whatever fails, the energies of the samples handed out add up
  // to what the total has grown.
  lemma {:induction false} TotalIsSent(m: Meter, obs: seq<Look>, rs: seq<Reply>)
    requires SuitsAll(m, obs) && Answering(m, obs, rs)
    ensures After(m, obs).Total() == m.Total() + Sent(rs)
    ensures After(m, obs).Cadence() == m.Cadence()
  {
    hide Replies, Step, Suits, IsTimes;
    if obs != [] {
      var n := |obs| - 1;
      AnsweringPrefix(m, obs, rs);
      TotalIsSent(m, obs[..n], rs[..n]);
      OneTick(After(m, obs[..n]), obs[n], rs[n]);
    }
  }

  // ---------- references ----------

  // The last tick that delivered, or -1.
  function LastDelivery(rs: seq<Reply>): (k: int)
    ensures -1 <= k < |rs|
    ensures k >= 0 ==> Delivers(rs[k])
    ensures forall i :: k < i < |rs| ==> !Delivers(rs[i])
  {
    if rs == [] then -1 else if Delivers(rs[|rs| - 1]) then |rs| - 1 else LastDelivery(rs[..|rs| - 1])
  }

  // After any run all stored references come from the same look, that of the last
  // delivered sample; before the first delivery the method is as Start left it.
  lemma {:induction false} ReferencesTogether(m: Meter, obs: seq<Look>, rs: seq<Reply>)
    requires SuitsAll(m, obs) && Answering(m, obs, rs)
    ensures var k := LastDelivery(rs);
      if k < 0 then After(m, obs) == m else References(After(m, obs), obs[k])
  {
    hide Replies, Step, Suits, References, IsTimes, EnergyIn;
    if obs != [] {
      var n := |obs| - 1;
      AnsweringPrefix(m, obs, rs);
      ReferencesTogether(m, obs[..n], rs[..n]);
      OneTick(After(m, obs[..n]), obs[n], rs[n]);
    }
  }

  // ---------- intervals ----------

  function Work(powerW: real, elapsed: real): real { elapsed * powerW }

  // Sum of power times interval over the delivered samples.
  ghost function Worked(m: Meter, obs: seq<Look>, rs: seq<Reply>): real
    requires SuitsAll(m, obs) && |rs| == |obs|
  {
    if obs == [] then 0.0
    else
      var n := |obs| - 1;
      Worked(m, obs[..n], rs[..n])
      + if Delivers(rs[n]) then Work(rs[n].samples[0].powerW, Elapsed(obs[n].Now(), After(m, obs[..n]).Last(), m.Cadence()))
        else 0.0
  }

  // Sum of the lengths of those intervals.
  ghost function Watched(m: Meter, obs: seq<Look>, rs: seq<Reply>): real
    requires SuitsAll(m, obs) && |rs| == |obs|
  {
    if obs == [] then 0.0
    else
      var n := |obs| - 1;
      Watched(m, obs[..n], rs[..n])
      + if Delivers(rs[n]) then Elapsed(obs[n].Now(), After(m, obs[..n]).Last(), m.Cadence()) else 0.0
  }

  ghost predicate Advancing(start: real, obs: seq<Look>)
  {
    && (forall i :: 0 <= i < |obs| ==> start < obs[i].Now())
    && (forall i, j :: 0 <= i < j < |obs| ==> obs[i].Now() < obs[j].Now())
  }

  lemma {:induction false} TickWork(m: Meter, o: Look, r: Reply)
    requires Suits(m, o) && Replies(m, o, r) && Delivers(r)
    ensures |r.samples| > 0
    ensures Work(r.samples[0].powerW, Elapsed(o.Now(), m.Last(), m.Cadence())) == EnergyIn(r)
  {
    hide Replies, Step, Suits, References, EnergyIn;
    OneTick(m, o, r);
  }

  // Power times interval, summed, is the whole energy.
  lemma {:induction false} WorkIsEnergy(m: Meter, obs: seq<Look>, rs: seq<Reply>)
    requires SuitsAll(m, obs) && Answering(m, obs, rs)
    ensures m.Total() + Worked(m, obs, rs) == After(m, obs).Total()
  {
    hide Replies, Step, Suits, References, Elapsed, IsTimes, Work;
    if obs != [] {
      var n := |obs| - 1;
      AnsweringPrefix(m, obs, rs);
      WorkIsEnergy(m, obs[..n], rs[..n]);
      TotalIsSent(m, obs[..n], rs[..n]);
      OneTick(After(m, obs[..n]), obs[n], rs[n]);
      if Delivers(rs[n]) { TickWork(After(m, obs[..n]), obs[n], rs[n]); }
    }
  }

  lemma {:induction false} LastIsPast(m: Meter, obs: seq<Look>, rs: seq<Reply>, now: real)
    requires SuitsAll(m, obs) && Answering(m, obs, rs)
    requires m.Last() < now && forall i :: 0 <= i < |obs| ==> obs[i].Now() < now
    ensures After(m, obs).Last() < now
  {
    hide Replies, Step, Suits, References, Elapsed, IsTimes;
    if obs != [] {
      var n := |obs| - 1;
      AnsweringPrefix(m, obs, rs);
      LastIsPast(m, obs[..n], rs[..n], now);
      OneTick(After(m, obs[..n]), obs[n], rs[n]);
    }
  }

  // With a clock that advances, the intervals of the delivered samples tile the
  // time from the start to the last delivery, however many ticks failed.
  lemma {:induction false} IntervalsTile(m: Meter, obs: seq<Look>, rs: seq<Reply>)
    requires SuitsAll(m, obs) && Answering(m, obs, rs) && Advancing(m.Last(), obs)
    ensures Watched(m, obs, rs) == After(m, obs).Last() - m.Last()
  {
    hide Replies, Step, Suits, References, IsTimes;
    if obs != [] {
      var n := |obs| - 1;
      AnsweringPrefix(m, obs, rs);
      IntervalsTile(m, obs[..n], rs[..n]);
      LastIsPast(m, obs[..n], rs[..n], obs[n].Now());
      OneTick(After(m, obs[..n]), obs[n], rs[n]);
    }
  }

  // ---------- through the engine ----------

  // Energy an output was handed by one module, in writes that succeeded or in
  // writes that failed.
  function Flow(calls: seq<Call>, m: nat, output: nat, ok: bool): real
  {
    if calls == [] then 0.0
    else
      var c := calls[|calls| - 1];
      Flow(calls[..|calls| - 1], m, output, ok)
      + if c.Write? && c.m == m && c.output == output && c.ok == ok then EnergyOf(c.samples) else 0.0
  }

  lemma {:induction false} FlowAppend(x: seq<Call>, y: seq<Call>, m: nat, output: nat, ok: bool)
    ensures Flow(x + y, m, output, ok) == Flow(x, m, output, ok) + Flow(y, m, output, ok)
  {
    if y == [] {
      assert x + y == x;
    } else {
      assert (x + y)[..|x + y| - 1] == x + y[..|y| - 1];
      FlowAppend(x, y[..|y| - 1], m, output, ok);
    }
  }

  lemma {:induction false} NoFlow(calls: seq<Call>, m: nat, output: nat, ok: bool)
    requires forall c :: c in calls ==> !c.Write? || c.m != m
    ensures Flow(calls, m, output, ok) == 0.0
  {
    if calls != [] { NoFlow(calls[..|calls| - 1], m, output, ok); }
  }

  lemma {:induction false} FlowOfOffers(a: Answers, t: nat, m: nat, samples: seq<Sample>, outputs: nat, output: nat, ok: bool)
    ensures Flow(Offers(a, t, m, samples, outputs), m, output, ok) ==
            if output < outputs && a.writes(t, m, output) == ok then EnergyOf(samples) else 0.0
  {
    hide EnergyOf;
    var calls := Offers(a, t, m, samples, outputs);
    if outputs > 0 {
      assert calls[..outputs - 1] == Offers(a, t, m, samples, outputs - 1);
      FlowOfOffers(a, t, m, samples, outputs - 1, output, ok);
    }
  }

  lemma {:induction false} FlowOfSampled(a: Answers, t: nat, m: nat, outputs: nat, output: nat, ok: bool)
    requires output < outputs
    ensures Flow(Sampled(a, t, m, outputs), m, output, ok) ==
            if a.writes(t, m, output) == ok then EnergyIn(a.replies(t, m)) else 0.0
  {
    hide Offers, Flow;
    var reply := a.replies(t, m);
    assert Flow([Measure(t, m)], m, output, ok) == 0.0 by { NoFlow([Measure(t, m)], m, output, ok); }
    if !Delivers(reply) {
      assert Sampled(a, t, m, outputs) == [Measure(t, m)];
    } else {
      FlowOfOffers(a, t, m, reply.samples, outputs, output, ok);
      FlowAppend([Measure(t, m)], Offers(a, t, m, reply.samples, outputs), m, output, ok);
    }
  }

  lemma {:induction false} FlowOfRound(a: Answers, t: nat, n: nat, m: nat, outputs: nat, output: nat, ok: bool)
    requires output < outputs
    ensures Flow(Round(a, t, n, outputs), m, output, ok) ==
            if m < n && a.writes(t, m, output) == ok then EnergyIn(a.replies(t, m)) else 0.0
  {
    hide Sampled, Flow, EnergyIn;
    if n == 0 {
      NoFlow(Round(a, t, 0, outputs), m, output, ok);
    } else {
      FlowOfRound(a, t, n - 1, m, outputs, output, ok);
      FlowAppend(Round(a, t, n - 1, outputs), Sampled(a, t, n - 1, outputs), m, output, ok);
      if m == n - 1 {
        FlowOfSampled(a, t, m, outputs, output, ok);
      } else {
        EngineLaws.SampledCalls(a, t, n - 1, outputs);
        NoFlow(Sampled(a, t, n - 1, outputs), m, output, ok);
      }
    }
  }

  // What module m answers at the first ticks.
  function RepliesOf(a: Answers, m: nat, ticks: nat): (rs: seq<Reply>)
    ensures |rs| == ticks && forall t :: 0 <= t < ticks ==> rs[t] == a.replies(t, m)
  {
    if ticks == 0 then [] else RepliesOf(a, m, ticks - 1) + [a.replies(ticks - 1, m)]
  }

  lemma {:induction false} SentStep(a: Answers, m: nat, ticks: nat)
    requires ticks > 0
    ensures Sent(RepliesOf(a, m, ticks)) == Sent(RepliesOf(a, m, ticks - 1)) + EnergyIn(a.replies(ticks - 1, m))
  {
    assert RepliesOf(a, m, ticks)[..ticks - 1] == RepliesOf(a, m, ticks - 1);
  }

  lemma {:induction false} FlowOfRounds(a: Answers, ticks: nat, n: nat, m: nat, outputs: nat, output: nat)
    requires output < outputs && m < n
    ensures var rounds := Rounds(a, ticks, n, outputs);
      && Flow(rounds, m, output, true) + Flow(rounds, m, output, false) == Sent(RepliesOf(a, m, ticks))
      && ((forall t :: 0 <= t < ticks ==> a.writes(t, m, output)) ==> Flow(rounds, m, output, false) == 0.0)
  {
    hide Round, EnergyIn, Flow, RepliesOf;
    if ticks == 0 {
      NoFlow([], m, output, true);
      NoFlow([], m, output, false);
      assert RepliesOf(a, m, 0) == [];
    } else {
      FlowOfRounds(a, ticks - 1, n, m, outputs, output);
      FlowOfRound(a, ticks - 1, n, m, outputs, output, true);
      FlowOfRound(a, ticks - 1, n, m, outputs, output, false);
      FlowAppend(Rounds(a, ticks - 1, n, outputs), Round(a, ticks - 1, n, outputs), m, output, true);
      FlowAppend(Rounds(a, ticks - 1, n, outputs), Round(a, ticks - 1, n, outputs), m, output, false);
      SentStep(a, m, ticks);
    }
  }

  // In every run that returns, what a module reports at Stop is what each output
  // received from it plus what was lost in failed writes; an output whose writes
  // all succeed has received exactly the reported total.
  lemma {:induction false} DeliveredIsReported(a: Answers, cfg: Config, n: nat, outputs: nat, signals: seq<Signal>,
                            m: nat, output: nat, meter: Meter, obs: seq<Look>)
    requires OutcomeOf(a, cfg, n).Returned? && m < n && output < outputs
    requires |obs| == Ticks(signals, cfg.MeasurementDuration() > 0)
    requires SuitsAll(meter, obs) && Answering(meter, obs, RepliesOf(a, m, |obs|)) && meter.Total() == 0.0
    ensures var calls := RunCalls(a, cfg, n, outputs, signals);
            var reported := After(meter, obs).Total();
      && Flow(calls, m, output, true) + Flow(calls, m, output, false) == reported
      && ((forall t :: 0 <= t < |obs| ==> a.writes(t, m, output)) ==> Flow(calls, m, output, true) == reported)
  {
    hide Flow, Starts, Stops, Rounds, Sent, Ticks, After;
    var ticks := |obs|;
    var starts, rounds, stops := Starts(a, n), Rounds(a, ticks, n, outputs), Stops(a, n);
    EngineLaws.StartsCalls(a, n);
    EngineLaws.StopsCalls(a, n);
    NoFlow(starts, m, output, true);
    NoFlow(starts, m, output, false);
    NoFlow(stops, m, output, true);
    NoFlow(stops, m, output, false);
    FlowAppend(starts, rounds, m, output, true);
    FlowAppend(starts, rounds, m, output, false);
    FlowAppend(starts + rounds, stops, m, output, true);
    FlowAppend(starts + rounds, stops, m, output, false);
    FlowOfRounds(a, ticks, n, m, outputs, output);
    TotalIsSent(meter, obs, RepliesOf(a, m, ticks));
  }
}
