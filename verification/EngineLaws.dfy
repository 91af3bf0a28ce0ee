// The shape of every run of the engine.
module EngineLaws {
  import opened Core
  import opened Engine

  // The order calls must come in: starts, then ticks, then stops; within a tick
  // module after module, and within a module first measuring, then the outputs.
  predicate Before(c: Call, d: Call)
  {
    match c
    case Start(m, _) => d.Start? ==> m < d.m
    case Stop(m, _) => d.Stop? && m < d.m
    case Measure(t, m) => d.Stop? || ((d.Measure? || d.Write?) && (t < d.tick || (t == d.tick && (m < d.m || (m == d.m && d.Write?)))))
    case Write(t, m, o, _, _) =>
      d.Stop? || ((d.Measure? || d.Write?) && (t < d.tick || (t == d.tick && (m < d.m || (m == d.m && d.Write? && o < d.output)))))
    case Close(_, _) => false
  }

  ghost predicate Ordered(calls: seq<Call>)
  {
    forall i, j :: 0 <= i < j < |calls| ==> Before(calls[i], calls[j])
  }

  // The calls a run makes, and no others.
  predicate Expected(a: Answers, outcome: Outcome, ticks: nat, n: nat, outputs: nat, c: Call)
  {
    match c
    case Start(m, ok) => m < n && ok == a.starts(m) && (outcome.StartFailed? ==> m <= outcome.m)
    case Stop(m, ok) => m < n && ok == a.stops(m) && !outcome.StartFailed?
    case Measure(t, m) => outcome.Returned? && t < ticks && m < n
    case Write(t, m, o, samples, ok) =>
      && outcome.Returned? && t < ticks && m < n && o < outputs
      && a.replies(t, m) == Batch(samples) && samples != [] && ok == a.writes(t, m, o)
    case Close(_, _) => false
  }

  lemma {:induction false} OrderedAppend(x: seq<Call>, y: seq<Call>)
    requires Ordered(x) && Ordered(y) && forall c, d :: c in x && d in y ==> Before(c, d)
    ensures Ordered(x + y)
  {
  }

  lemma {:induction false} OffersCalls(a: Answers, t: nat, m: nat, samples: seq<Sample>, outputs: nat)
    ensures var s := Offers(a, t, m, samples, outputs);
      Ordered(s) && forall c :: c in s <==>
        c.Write? && c.tick == t && c.m == m && c.output < outputs && c.samples == samples && c.ok == a.writes(t, m, c.output)
  {
    var s := Offers(a, t, m, samples, outputs);
    forall o: nat | o < outputs ensures Write(t, m, o, samples, a.writes(t, m, o)) in s {
      assert s[o] == Write(t, m, o, samples, a.writes(t, m, o));
    }
  }

  lemma {:induction false} SampledCalls(a: Answers, t: nat, m: nat, outputs: nat)
    ensures var s := Sampled(a, t, m, outputs);
      Ordered(s) && forall c :: c in s <==>
        c == Measure(t, m)
        || (c.Write? && c.tick == t && c.m == m && c.output < outputs
            && a.replies(t, m) == Batch(c.samples) && c.samples != [] && c.ok == a.writes(t, m, c.output))
  {
    hide Offers;
    if a.replies(t, m).Batch? && a.replies(t, m).samples != [] {
      var offers := Offers(a, t, m, a.replies(t, m).samples, outputs);
      OffersCalls(a, t, m, a.replies(t, m).samples, outputs);
      OrderedAppend([Measure(t, m)], offers);
    }
  }

  predicate InRound(a: Answers, t: nat, n: nat, outputs: nat, c: Call)
  {
    (c.Measure? || c.Write?) && c.tick == t && Expected(a, Returned, t + 1, n, outputs, c)
  }

  lemma {:induction false} RoundCalls(a: Answers, t: nat, n: nat, outputs: nat)
    ensures Ordered(Round(a, t, n, outputs))
    ensures forall c :: c in Round(a, t, n, outputs) <==> InRound(a, t, n, outputs, c)
  {
    if n > 0 {
      RoundCalls(a, t, n - 1, outputs);
      SampledCalls(a, t, n - 1, outputs);
      OrderedAppend(Round(a, t, n - 1, outputs), Sampled(a, t, n - 1, outputs));
    }
  }

  predicate InRounds(a: Answers, ticks: nat, n: nat, outputs: nat, c: Call)
  {
    (c.Measure? || c.Write?) && Expected(a, Returned, ticks, n, outputs, c)
  }

  lemma {:induction false} RoundsCalls(a: Answers, ticks: nat, n: nat, outputs: nat)
    ensures Ordered(Rounds(a, ticks, n, outputs))
    ensures forall c :: c in Rounds(a, ticks, n, outputs) <==> InRounds(a, ticks, n, outputs, c)
  {
    if ticks > 0 {
      RoundsCalls(a, ticks - 1, n, outputs);
      RoundCalls(a, ticks - 1, n, outputs);
      OrderedAppend(Rounds(a, ticks - 1, n, outputs), Round(a, ticks - 1, n, outputs));
    }
  }

  lemma {:induction false} StartsCalls(a: Answers, n: nat)
    ensures Ordered(Starts(a, n))
    ensures forall c :: c in Starts(a, n) <==> c.Start? && c.m < n && c.ok == a.starts(c.m)
  {
    forall c: Call | c.Start? && c.m < n && c.ok == a.starts(c.m) ensures c in Starts(a, n) {
      assert Starts(a, n)[c.m] == c;
    }
  }

  lemma {:induction false} StopsCalls(a: Answers, n: nat)
    ensures Ordered(Stops(a, n))
    ensures forall c :: c in Stops(a, n) <==> c.Stop? && c.m < n && c.ok == a.stops(c.m)
  {
    forall c: Call | c.Stop? && c.m < n && c.ok == a.stops(c.m) ensures c in Stops(a, n) {
      assert Stops(a, n)[c.m] == c;
    }
  }

  // Every run: exactly the expected calls, each once, in the one possible order.
  // Neither a failing module nor a failing output changes any other call.
  lemma {:induction false} RunIsExpected(a: Answers, cfg: Config, n: nat, outputs: nat, signals: seq<Signal>)
    ensures var calls := RunCalls(a, cfg, n, outputs, signals);
      && Ordered(calls)
      && forall c :: c in calls <==>
           Expected(a, OutcomeOf(a, cfg, n), Ticks(signals, cfg.MeasurementDuration() > 0), n, outputs, c)
  {
    hide Ticks, Starts, Stops, Rounds;
    match OutcomeOf(a, cfg, n)
    case StartFailed(k) => StartsCalls(a, k + 1);
    case Panicked =>
      StartsCalls(a, n);
      StopsCalls(a, n);
      OrderedAppend(Starts(a, n), Stops(a, n));
    case Returned =>
      var rounds := Rounds(a, Ticks(signals, cfg.MeasurementDuration() > 0), n, outputs);
      StartsCalls(a, n);
      RoundsCalls(a, Ticks(signals, cfg.MeasurementDuration() > 0), n, outputs);
      StopsCalls(a, n);
      OrderedAppend(Starts(a, n), rounds);
      OrderedAppend(Starts(a, n) + rounds, Stops(a, n));
  }

  // Every module that was started is stopped.
  ghost predicate AllStopped(calls: seq<Call>)
  {
    forall m: nat :: Start(m, true) in calls ==> Stop(m, true) in calls || Stop(m, false) in calls
  }

  // A failed start leaves the modules before it running: Run returns before it
  // arranges for them to be stopped.
  lemma {:induction false} StoppedUnlessStartFails(a: Answers, cfg: Config, n: nat, outputs: nat, signals: seq<Signal>)
    ensures AllStopped(RunCalls(a, cfg, n, outputs, signals)) <==> n == 0 || FirstFailing(a, n) == n || !a.starts(0)
  {
    hide RunCalls, Ticks;
    RunIsExpected(a, cfg, n, outputs, signals);
    var calls := RunCalls(a, cfg, n, outputs, signals);
    var k := FirstFailing(a, n);
    if k == n {
      forall m: nat | Start(m, true) in calls ensures Stop(m, a.stops(m)) in calls { }
    } else if k > 0 {
      assert Start(0, true) in calls;
      assert Stop(0, true) !in calls && Stop(0, false) !in calls;
    }
  }

  // When a 64-bit product is not positive: its residue is 0 or has the sign bit.
  lemma {:induction false} NotPositive(x: int)
    ensures Signed64(x) <= 0 <==>
            x % 0x1_0000_0000_0000_0000 == 0 || x % 0x1_0000_0000_0000_0000 >= 0x8000_0000_0000_0000
  {
    var m, h := 0x1_0000_0000_0000_0000, 0x8000_0000_0000_0000;
    var q, r := x / m, x % m;
    assert x == q * m + r;
    if r < h {
      assert x + h == q * m + (r + h) && (x + h) % m == r + h;
    } else {
      assert x + h == (q + 1) * m + (r - h) && (x + h) % m == r - h;
    }
  }

  // Once all modules are running, creating the ticker panics exactly if the
  // sampling time in nanoseconds is 0 or, as a 64-bit word, has the sign bit.
  // Validate lets such times pass, 0 among them.
  lemma {:induction false} PanicsExactly(a: Answers, cfg: Config, n: nat)
    ensures OutcomeOf(a, cfg, n) == Panicked <==>
              && FirstFailing(a, n) == n
              && var ns := cfg.samplingTime * 1_000_000 % 0x1_0000_0000_0000_0000;
                 ns == 0 || ns >= 0x8000_0000_0000_0000
    ensures cfg.samplingTime == 0 && FirstFailing(a, n) == n ==> OutcomeOf(a, cfg, n) == Panicked
    ensures 0 < cfg.samplingTime <= 9_223_372_036_854 ==> OutcomeOf(a, cfg, n) != Panicked
  {
    NotPositive(cfg.samplingTime * 1_000_000);
  }

  lemma {:induction false} ValidButPanics(a: Answers, n: nat, name: string)
    requires FirstFailing(a, n) == n
    ensures var cfg := Config(0, 0, 0, map[name := true]);
      cfg.Validate() && OutcomeOf(a, cfg, n) == Panicked
  {
    assert map[name := true][name];
    PanicsExactly(a, Config(0, 0, 0, map[name := true]), n);
  }

  // ---------- when the loop ends ----------

  function CountTicks(signals: seq<Signal>): nat
  {
    if signals == [] then 0 else CountTicks(signals[..|signals| - 1]) + if signals[|signals| - 1].Tick? then 1 else 0
  }

  predicate Ends(s: Signal, deadline: bool) { s == Cancel || (s == Deadline && deadline) }

  lemma {:induction false} CountFirst(signals: seq<Signal>)
    requires signals != []
    ensures CountTicks(signals) == (if signals[0].Tick? then 1 else 0) + CountTicks(signals[1..])
  {
    if |signals| > 1 {
      CountFirst(signals[..|signals| - 1]);
      assert signals[..|signals| - 1][1..] == signals[1..][..|signals| - 2];
    }
  }

  // The loop samples once for every tick before the first cancellation or, when a
  // duration is configured, the first deadline, and for none after it.
  lemma {:induction false} SamplesUntilEnd(signals: seq<Signal>, deadline: bool, k: nat)
    requires k <= |signals| && (forall i :: 0 <= i < k ==> !Ends(signals[i], deadline))
    requires k < |signals| ==> Ends(signals[k], deadline)
    ensures Ticks(signals, deadline) == CountTicks(signals[..k])
    decreases k
  {
    if k > 0 {
      assert !Ends(signals[0], deadline);
      SamplesUntilEnd(signals[1..], deadline, k - 1);
      CountFirst(signals[..k]);
      assert signals[..k][1..] == signals[1..][..k - 1];
    }
  }

  // ---------- configured times ----------

  // A positive interval up to the largest duration is that many seconds, and sets
  // a deadline; an interval that is not positive sets none.
  lemma {:induction false} DurationOf(cfg: Config)
    ensures cfg.interval <= 0 ==> cfg.MeasurementDuration() == 0
    ensures 0 < cfg.interval <= 9_223_372_036 ==> cfg.MeasurementDuration() == cfg.interval * 1_000_000_000 > 0
    ensures cfg.interval > 0 ==>
              (cfg.MeasurementDuration() > 0 <==>
               0 < cfg.interval * 1_000_000_000 % 0x1_0000_0000_0000_0000 < 0x8000_0000_0000_0000)
  {
    NotPositive(cfg.interval * 1_000_000_000);
  }

  // A sampling time up to the largest duration is that many milliseconds.
  lemma {:induction false} CadenceOf(cfg: Config)
    requires 0 <= cfg.samplingTime <= 9_223_372_036_854
    ensures cfg.SamplingCadence() == cfg.samplingTime * 1_000_000
  {
  }
}
