// Processes that miss ticks: for which patterns of missed ticks attribution
// conserves energy, whatever the counters show.
module RaplMisses {
  import opened Words
  import opened Options
  import opened Sums
  import opened RaplMethod
  import opened RaplAttribution
  import PowerModel
  import RaplLaws

  // A moment as the methods see it that sample the processes in hits.
  function Restrict(x: Moment, hits: set<Pid>): Moment
  {
    x.(pids := map p | p in x.pids && p in hits :: x.pids[p])
  }

  function SeenBy(ts: seq<Moment>, hits: seq<set<Pid>>): (ms: seq<Moment>)
    requires |ts| == |hits|
    ensures |ms| == |ts|
  {
    if ts == [] then []
    else
      var n := |ts| - 1;
      SeenBy(ts[..n], hits[..n]) + [Restrict(ts[n], hits[n])]
  }

  // Between two moments busy times only grow, the same processes are known, and
  // together they are not busier than the system.
  ghost predicate Advance(a: Moment, b: Moment)
  {
    a.pids.Keys == b.pids.Keys && Consistent(a, b)
  }

  // What the kernel may show: from one moment to the next the counters advance,
  // and the energy counter stays within its range.
  ghost predicate Truthful(m: Moment, max: u64, ts: seq<Moment>)
  {
    && m.energyUJ <= max
    && forall i :: 0 <= i < |ts| ==> Advance(Prior(m, ts, i), ts[i]) && ts[i].energyUJ <= max
  }

  // After these moments, sampled at these ticks, no more has been attributed than
  // measured by a method for the whole system that misses no tick.
  ghost predicate Conserves(m: Moment, max: u64, cadence: real, ts: seq<Moment>, hits: seq<set<Pid>>)
    requires |ts| == |hits|
  {
    var f := Run(Launch(m, max), cadence, SeenBy(ts, hits));
    AttributedTotal(f) <= f.system.totalEnergyJ
  }

  // For all counters.
  ghost predicate AlwaysConserves(pids: set<Pid>, cadence: real, hits: seq<set<Pid>>)
  {
    forall m: Moment, max: u64, ts: seq<Moment> ::
      m.pids.Keys == pids && |ts| == |hits| && Truthful(m, max, ts) ==> Conserves(m, max, cadence, ts, hits)
  }

  // A process that misses a tick at which some other is sampled is never sampled
  // again.
  ghost predicate NoReturn(hits: seq<set<Pid>>)
  {
    forall i, j :: 0 <= i < j < |hits| ==> hits[i] == {} || hits[j] <= hits[i]
  }

  // ---------- no process returns ----------

  // Skipping a reading never shows more energy.
  lemma {:induction false} DeltaTriangle(a: u64, b: u64, c: u64, max: u64)
    requires a <= max && b <= max && c <= max
    ensures DeltaUJ(a, c, max) <= DeltaUJ(a, b, max) + DeltaUJ(b, c, max)
  {
  }

  lemma {:induction false} AdvanceTwice(a: Moment, b: Moment, c: Moment)
    requires Advance(a, b) && Advance(b, c)
    ensures Advance(a, c)
  {
    forall p | p in BusyTimes(a, c) ensures BusyTimes(a, c)[p] == BusyTimes(a, b)[p] + BusyTimes(b, c)[p] {
      assert a.pids[p] <= b.pids[p] <= c.pids[p];
    }
    SumAdd(BusyTimes(a, b), BusyTimes(b, c), BusyTimes(a, c));
  }

  lemma {:induction false} AdvanceNone(a: Moment)
    ensures Advance(a, a)
  {
    SumZero(BusyTimes(a, a));
  }

  lemma {:induction false} RestrictConsistent(a: Moment, b: Moment, live: set<Pid>, hits: set<Pid>)
    requires Advance(a, b) && hits <= live <= a.pids.Keys
    ensures Consistent(Restrict(a, live), Restrict(b, hits))
  {
    var x, y := Restrict(a, live), Restrict(b, hits);
    assert x.pids.Keys == live && y.pids.Keys == hits;
    var some := BusyTimes(x, y);
    var all := map p | p in a.pids.Keys :: if p in some then some[p] else 0.0;
    SumExtend(some, all);
    forall p | p in all ensures all[p] <= BusyTimes(a, b)[p] {
      if p in some { assert some[p] == BusyOf(x, y, p); }
    }
    SumAtMost(all, BusyTimes(a, b));
  }

  // The last moment at which any process was sampled, and those that were.
  function LastSampled(m: Moment, ts: seq<Moment>, hits: seq<set<Pid>>): (Moment, set<Pid>)
    requires |ts| == |hits|
  {
    if ts == [] then (m, m.pids.Keys)
    else
      var n := |ts| - 1;
      if hits[n] != {} then (ts[n], hits[n]) else LastSampled(m, ts[..n], hits[..n])
  }

  // The references of the processes in live come from moment at; since then the
  // system has measured at least what they would be charged from there.
  ghost predicate Settled(f: Fleet, at: Moment, live: set<Pid>, now: Moment)
  {
    && f.system.started && f.system.lastEnergyUJ == now.energyUJ
    && live <= f.each.Keys && live <= at.pids.Keys
    && (forall p :: p in live ==> InStepWith(f.each[p], f.system.maxEnergyUJ, at, p))
    && AttributedTotal(f) + Joules(DeltaUJ(at.energyUJ, now.energyUJ, f.system.maxEnergyUJ)) <= f.system.totalEnergyJ
  }

  ghost predicate InStepWith(st: State, max: u64, at: Moment, p: Pid)
    requires p in at.pids
  {
    st.started && st.maxEnergyUJ == max && st.lastEnergyUJ == at.energyUJ && st.lastCPU == CpuTimes(at.pids[p], at.total)
  }

  lemma {:induction false} NobodySampled(f: Fleet, cadence: real, x: Moment, at: Moment, live: set<Pid>, now: Moment)
    requires Settled(f, at, live, now)
    requires at.energyUJ <= f.system.maxEnergyUJ && now.energyUJ <= f.system.maxEnergyUJ && x.energyUJ <= f.system.maxEnergyUJ
    ensures Settled(Tick(f, cadence, Restrict(x, {})), at, live, x)
    ensures Tick(f, cadence, Restrict(x, {})).system.maxEnergyUJ == f.system.maxEnergyUJ
  {
    hide Attributed, DeltaUJ, Joules;
    var f' := Tick(f, cadence, Restrict(x, {}));
    var max := f.system.maxEnergyUJ;
    assert Restrict(x, {}).pids == map[];
    assert f'.each == f.each;
    DeltaTriangle(at.energyUJ, now.energyUJ, x.energyUJ, max);
    var d1: nat, d2: nat := DeltaUJ(at.energyUJ, now.energyUJ, max), DeltaUJ(now.energyUJ, x.energyUJ, max);
    RaplLaws.JoulesAdd(d1, d2);
    RaplLaws.JoulesAdd(DeltaUJ(at.energyUJ, x.energyUJ, max), d1 + d2);
    assert f'.system.totalEnergyJ == f.system.totalEnergyJ + Joules(d2);
  }

  // As if the system had been read only when the processes were.
  function Rewound(f: Fleet, at: Moment, live: set<Pid>): Fleet
  {
    Fleet(Restrict(at, live), f.system.(lastEnergyUJ := at.energyUJ), f.each)
  }

  lemma {:induction false} SampledGains(f: Fleet, cadence: real, x: Moment, hits: set<Pid>, at: Moment, live: set<Pid>, now: Moment)
    requires Settled(f, at, live, now) && Advance(at, x) && hits <= live
    ensures var f' := Tick(f, cadence, Restrict(x, hits));
      AttributedTotal(f') <= AttributedTotal(f) + Joules(DeltaUJ(at.energyUJ, x.energyUJ, f.system.maxEnergyUJ))
  {
    hide Attributed, DeltaUJ, Joules, Consistent, Advance;
    var y := Restrict(x, hits);
    var f', r := Tick(f, cadence, y), Rewound(f, at, live);
    RestrictConsistent(at, x, live, hits);
    assert Restrict(at, live).pids.Keys == live;
    assert InStep(r);
    var gains := map p | p in r.each.Keys :: Gain(r, cadence, y, p);
    GainsTogether(r, cadence, y, gains);
    assert f'.each == Tick(r, cadence, y).each;
    SumAdd(Totals(f), gains, Totals(f'));
  }

  lemma {:induction false} SomeSampled(f: Fleet, cadence: real, x: Moment, hits: set<Pid>, at: Moment, live: set<Pid>, now: Moment)
    requires Settled(f, at, live, now) && Advance(at, x) && hits <= live
    requires at.energyUJ <= f.system.maxEnergyUJ && now.energyUJ <= f.system.maxEnergyUJ && x.energyUJ <= f.system.maxEnergyUJ
    ensures Settled(Tick(f, cadence, Restrict(x, hits)), x, hits, x)
    ensures Tick(f, cadence, Restrict(x, hits)).system.maxEnergyUJ == f.system.maxEnergyUJ
  {
    hide Attributed, DeltaUJ, Joules, Consistent, AttributedTotal;
    var f' := Tick(f, cadence, Restrict(x, hits));
    var max := f.system.maxEnergyUJ;
    SampledGains(f, cadence, x, hits, at, live, now);
    DeltaTriangle(at.energyUJ, now.energyUJ, x.energyUJ, max);
    var d1: nat, d2: nat := DeltaUJ(at.energyUJ, now.energyUJ, max), DeltaUJ(now.energyUJ, x.energyUJ, max);
    RaplLaws.JoulesAdd(d1, d2);
    RaplLaws.JoulesAdd(DeltaUJ(at.energyUJ, x.energyUJ, max), d1 + d2);
    NoDelta(x.energyUJ, max);
    assert f'.system.totalEnergyJ == f.system.totalEnergyJ + Joules(d2);
    forall p | p in hits ensures InStepWith(f'.each[p], max, x, p) {
      assert InStepWith(f.each[p], max, at, p);
      assert p in Restrict(x, hits).pids;
    }
  }

  lemma {:induction false} NoDelta(e: u64, max: u64)
    ensures Joules(DeltaUJ(e, e, max)) == 0.0
  {
  }

  lemma {:induction false} TruthfulPrefix(m: Moment, max: u64, ts: seq<Moment>)
    requires Truthful(m, max, ts) && |ts| > 0
    ensures Truthful(m, max, ts[..|ts| - 1])
  {
    var n := |ts| - 1;
    forall i | 0 <= i < n ensures Advance(Prior(m, ts[..n], i), ts[..n][i]) && ts[..n][i].energyUJ <= max {
      assert Advance(Prior(m, ts, i), ts[i]);
    }
  }

  lemma {:induction false} LastSampledHolds(m: Moment, max: u64, ts: seq<Moment>, hits: seq<set<Pid>>)
    requires |ts| == |hits| && Truthful(m, max, ts) && NoReturn(hits)
    requires forall i :: 0 <= i < |hits| ==> hits[i] <= m.pids.Keys
    ensures var (at, live) := LastSampled(m, ts, hits);
      && Advance(at, Prior(m, ts, |ts|)) && at.energyUJ <= max && live <= m.pids.Keys
      && (live == m.pids.Keys || exists i :: 0 <= i < |hits| && hits[i] != {} && live == hits[i])
  {
    hide Advance;
    if ts == [] {
      AdvanceNone(m);
    } else {
      var n := |ts| - 1;
      TruthfulPrefix(m, max, ts);
      LastSampledHolds(m, max, ts[..n], hits[..n]);
      var (at, live) := LastSampled(m, ts[..n], hits[..n]);
      assert Prior(m, ts[..n], n) == Prior(m, ts, n);
      assert Advance(Prior(m, ts, n), ts[n]);
      if hits[n] == {} {
        AdvanceTwice(at, Prior(m, ts, n), ts[n]);
        if live != m.pids.Keys {
          var i :| 0 <= i < n && hits[..n][i] != {} && live == hits[..n][i];
          assert hits[i] == hits[..n][i];
        }
      } else {
        AdvanceNone(ts[n]);
      }
    }
  }

  lemma {:induction false} StaysSettled(m: Moment, max: u64, cadence: real, ts: seq<Moment>, hits: seq<set<Pid>>)
    requires |ts| == |hits| && Truthful(m, max, ts) && NoReturn(hits)
    requires forall i :: 0 <= i < |hits| ==> hits[i] <= m.pids.Keys
    ensures var f := Run(Launch(m, max), cadence, SeenBy(ts, hits));
            var (at, live) := LastSampled(m, ts, hits);
      Settled(f, at, live, Prior(m, ts, |ts|)) && f.system.maxEnergyUJ == max
  {
    hide Tick, Advance, Joules, DeltaUJ, InStepWith, Consistent;
    if ts == [] {
      LaunchSettled(m, max);
    } else {
      var n := |ts| - 1;
      TruthfulPrefix(m, max, ts);
      StaysSettled(m, max, cadence, ts[..n], hits[..n]);
      LastSampledHolds(m, max, ts[..n], hits[..n]);
      var f := Run(Launch(m, max), cadence, SeenBy(ts[..n], hits[..n]));
      var (at, live) := LastSampled(m, ts[..n], hits[..n]);
      var now := Prior(m, ts, n);
      assert Prior(m, ts[..n], n) == now;
      assert SeenBy(ts, hits)[..n] == SeenBy(ts[..n], hits[..n]);
      assert Advance(now, ts[n]);
      assert now.energyUJ <= max;
      if hits[n] == {} {
        NobodySampled(f, cadence, ts[n], at, live, now);
      } else {
        AdvanceTwice(at, now, ts[n]);
        if live != m.pids.Keys {
          var i :| 0 <= i < n && hits[..n][i] != {} && live == hits[..n][i];
          assert hits[i] == live && hits[n] <= hits[i];
        }
        SomeSampled(f, cadence, ts[n], hits[n], at, live, now);
      }
    }
  }

  lemma {:induction false} LaunchSettled(m: Moment, max: u64)
    ensures Settled(Launch(m, max), m, m.pids.Keys, m)
  {
    SumZero(Totals(Launch(m, max)));
  }

  lemma {:induction false} NoReturnConserves(m: Moment, max: u64, cadence: real, ts: seq<Moment>, hits: seq<set<Pid>>)
    requires |ts| == |hits| && Truthful(m, max, ts) && NoReturn(hits)
    requires forall i :: 0 <= i < |hits| ==> hits[i] <= m.pids.Keys
    ensures Conserves(m, max, cadence, ts, hits)
  {
    StaysSettled(m, max, cadence, ts, hits);
    var (at, live) := LastSampled(m, ts, hits);
    RaplLaws.JoulesAdd(DeltaUJ(at.energyUJ, Prior(m, ts, |ts|).energyUJ, max), 0);
  }

  // ---------- a process returns ----------

  // Process p is sampled at tick i, which q misses; q is next sampled at tick j.
  datatype Return = Return(p: Pid, q: Pid, i: nat, j: nat)

  ghost predicate Returns(r: Return, hits: seq<set<Pid>>)
  {
    && r.i < r.j < |hits| && r.p in hits[r.i] && r.q in hits[r.j]
    && forall k :: r.i <= k < r.j ==> r.q !in hits[k]
  }

  function Past(k: int, i: nat): nat { if k >= i then 1 else 0 }

  // The counters after tick k: two microjoules and all the busy time of p in tick
  // i, all the busy time of q in tick j, and nothing else.
  function Blip(pids: set<Pid>, r: Return, k: int): Moment
  {
    Moment(k as real, 2 * Past(k, r.i), Past(k, r.i) + Past(k, r.j),
           map x | x in pids :: if x == r.p then Past(k, r.i) else if x == r.q then Past(k, r.j) else 0)
  }

  function Blips(pids: set<Pid>, r: Return, n: nat): (ts: seq<Moment>)
    ensures |ts| == n && forall k :: 0 <= k < n ==> ts[k] == Blip(pids, r, k)
  {
    if n == 0 then [] else Blips(pids, r, n - 1) + [Blip(pids, r, n - 1)]
  }

  lemma {:induction false} SumOfOne<T>(m: map<T, real>, k: T)
    requires k in m && forall x :: x in m && x != k ==> m[x] == 0.0
    ensures SumValues(m) == m[k]
  {
    SumRemove(m, k);
    SumZero(m - {k});
  }

  lemma {:induction false} BlipAdvance(pids: set<Pid>, r: Return, k: nat)
    requires r.i < r.j && r.p != r.q && r.p in pids && r.q in pids
    ensures Advance(Blip(pids, r, k - 1), Blip(pids, r, k))
  {
    var a, b := Blip(pids, r, k - 1), Blip(pids, r, k);
    var busy := BusyTimes(a, b);
    forall x | x in busy
      ensures busy[x] == if k == r.i && x == r.p then 1.0 else if k == r.j && x == r.q then 1.0 else 0.0
    {
      assert busy[x] == BusyOf(a, b, x);
    }
    if k == r.i {
      SumOfOne(busy, r.p);
    } else if k == r.j {
      SumOfOne(busy, r.q);
    } else {
      SumZero(busy);
    }
  }

  lemma {:induction false} BlipsTruthful(pids: set<Pid>, r: Return, n: nat)
    requires r.i < r.j && r.p != r.q && r.p in pids && r.q in pids
    ensures Truthful(Blip(pids, r, -1), 2, Blips(pids, r, n))
  {
    hide Advance, Blip;
    var m, ts := Blip(pids, r, -1), Blips(pids, r, n);
    BlipEnergy(pids, r, -1);
    forall k | 0 <= k < n ensures Advance(Prior(m, ts, k), ts[k]) && ts[k].energyUJ <= 2 {
      BlipEnergy(pids, r, k);
      BlipAdvance(pids, r, k);
      assert Prior(m, ts, k) == Blip(pids, r, k - 1);
    }
  }

  lemma {:induction false} BlipEnergy(pids: set<Pid>, r: Return, k: int)
    ensures Blip(pids, r, k).energyUJ <= 2
  {
  }

  ghost predicate Untouched(st: State) { st.lastEnergyUJ == 0 && st.lastCPU == CpuTimes(0, 0) }

  ghost predicate Running(st: State, max: u64) { st.started && st.maxEnergyUJ == max && st.totalEnergyJ >= 0.0 }

  // After the first k ticks.
  ghost predicate BlipInv(f: Fleet, pids: set<Pid>, r: Return, k: nat)
    requires r.p in pids && r.q in pids
  {
    && f.each.Keys == pids && f.system.started && f.system.maxEnergyUJ == 2
    && f.system.lastEnergyUJ == 2 * Past(k - 1, r.i) && f.system.totalEnergyJ == Joules(2 * Past(k - 1, r.i))
    && (forall x :: x in pids ==> Running(f.each[x], 2))
    && (if k <= r.i then Untouched(f.each[r.p]) else f.each[r.p].totalEnergyJ >= Joules(2))
    && (if k <= r.j then Untouched(f.each[r.q]) else f.each[r.q].totalEnergyJ >= Joules(1))
  }

  lemma {:induction false} AttributedNonNegative(energyJ: real, last: CpuTimes, cur: CpuTimes)
    requires energyJ >= 0.0
    ensures Attributed(energyJ, last, cur) >= 0.0
  {
    var p, t := Sub64(cur.pid, last.pid) as real, Sub64(cur.total, last.total) as real;
    if t > 0.0 { Shares(energyJ, p, t); }
  }

  lemma {:induction false} Shares(energyJ: real, p: real, t: real)
    requires energyJ >= 0.0 && p >= 0.0 && t > 0.0
    ensures energyJ * (p / t) >= 0.0
  {
    var q := p / t;
    assert t * q == p;
    Reals.MulStrict(t, 0.0, q);
    Reals.MulNonNegative(energyJ, q);
  }

  // A sample never lowers a total.
  lemma {:induction false} StaysRunning(c: Config, st: State, o: Observation)
    requires Running(st, 2)
    ensures Running(AfterMeasure(c, st, o), 2) && AfterMeasure(c, st, o).totalEnergyJ >= st.totalEnergyJ
  {
    hide Attributed, DeltaUJ;
    if Succeeds(c, st, o) && c.pid > 0 {
      var energyJ := Joules(DeltaUJ(st.lastEnergyUJ, o.energyUJ.value, st.maxEnergyUJ));
      AttributedNonNegative(energyJ, st.lastCPU, o.cpu.value);
    }
  }

  // A process first sampled at this moment gets its share of two microjoules.
  lemma {:induction false} FirstShare(c: Config, st: State, o: Observation, total: u64)
    requires c.pid > 0 && Running(st, 2) && Untouched(st) && (total == 1 || total == 2)
    requires o.energyUJ == Some(2) && o.cpu == Some(CpuTimes(1, total))
    ensures AfterMeasure(c, st, o).totalEnergyJ >= Joules(if total == 1 then 2 else 1)
  {
  }

  lemma {:induction false} BlipTickOf(pids: set<Pid>, r: Return, hits: seq<set<Pid>>, k: nat, st: State, x: Pid, cadence: real)
    requires Returns(r, hits) && k < |hits| && r.p != r.q && x in pids && (x == r.p || x == r.q) && Running(st, 2)
    requires k <= (if x == r.p then r.i else r.j) && Untouched(st)
    ensures var st' := AfterMeasure(Config(x, cadence), st, Seen(Restrict(Blip(pids, r, k), hits[k]), x));
      if x == r.p then (if k < r.i then Untouched(st') else st'.totalEnergyJ >= Joules(2))
      else (if k < r.j then Untouched(st') else st'.totalEnergyJ >= Joules(1))
  {
    hide AfterMeasure, Joules;
    var o := Seen(Restrict(Blip(pids, r, k), hits[k]), x);
    var c := Config(x, cadence);
    if x !in hits[k] {
      SampleMissed(c, st, o);
    } else if k < r.i {
      SampleNothing(c, st, o);
    } else {
      FirstShare(c, st, o, if x == r.p then 1 else 2);
    }
  }

  lemma {:induction false} SampleMissed(c: Config, st: State, o: Observation)
    requires c.pid > 0 && o.cpu.None?
    ensures AfterMeasure(c, st, o) == st
  {
  }

  lemma {:induction false} SampleNothing(c: Config, st: State, o: Observation)
    requires Running(st, 2) && Untouched(st) && o.energyUJ == Some(0) && o.cpu == Some(CpuTimes(0, 0)) && c.pid > 0
    ensures Untouched(AfterMeasure(c, st, o))
  {
  }

  lemma {:induction false} BlipTick(f: Fleet, pids: set<Pid>, r: Return, hits: seq<set<Pid>>, k: nat, cadence: real)
    requires r.p != r.q && r.p in pids && r.q in pids
    requires BlipInv(f, pids, r, k) && Returns(r, hits) && k < |hits|
    ensures BlipInv(Tick(f, cadence, Restrict(Blip(pids, r, k), hits[k])), pids, r, k + 1)
  {
    hide AfterMeasure, Joules, Untouched, Running, Returns, Seen, Restrict;
    var x := Restrict(Blip(pids, r, k), hits[k]);
    var f' := Tick(f, cadence, x);
    forall y | y in pids
      ensures Running(f'.each[y], 2) && f'.each[y].totalEnergyJ >= f.each[y].totalEnergyJ
    {
      StaysRunning(Config(y, cadence), f.each[y], Seen(x, y));
    }
    if k <= r.i { BlipTickOf(pids, r, hits, k, f.each[r.p], r.p, cadence); }
    if k <= r.j { BlipTickOf(pids, r, hits, k, f.each[r.q], r.q, cadence); }
    BlipSystem(f.system, pids, r, k, hits[k], cadence);
  }

  lemma {:induction false} BlipSystem(st: State, pids: set<Pid>, r: Return, k: nat, hits: set<Pid>, cadence: real)
    requires st.started && st.maxEnergyUJ == 2
    requires st.lastEnergyUJ == 2 * Past(k - 1, r.i) && st.totalEnergyJ == Joules(2 * Past(k - 1, r.i))
    ensures var x := Restrict(Blip(pids, r, k), hits);
            var st' := AfterMeasure(Config(0, cadence), st, Observation(x.now, Some(x.energyUJ), None));
      && st'.started && st'.maxEnergyUJ == 2
      && st'.lastEnergyUJ == 2 * Past(k, r.i) && st'.totalEnergyJ == Joules(2 * Past(k, r.i))
  {
  }

  lemma {:induction false} BlipRun(pids: set<Pid>, r: Return, hits: seq<set<Pid>>, cadence: real, k: nat)
    requires Returns(r, hits) && r.p != r.q && r.p in pids && r.q in pids && k <= |hits|
    ensures BlipInv(Run(Launch(Blip(pids, r, -1), 2), cadence, SeenBy(Blips(pids, r, k), hits[..k])), pids, r, k)
  {
    hide Tick, Returns;
    if k == 0 {
      BlipLaunch(pids, r);
    } else {
      var n := k - 1;
      BlipRun(pids, r, hits, cadence, n);
      BlipTick(Run(Launch(Blip(pids, r, -1), 2), cadence, SeenBy(Blips(pids, r, n), hits[..n])), pids, r, hits, n, cadence);
      var ms := SeenBy(Blips(pids, r, k), hits[..k]);
      assert Blips(pids, r, k)[..n] == Blips(pids, r, n) && hits[..k][..n] == hits[..n];
      assert ms[..n] == SeenBy(Blips(pids, r, n), hits[..n]) && ms[n] == Restrict(Blip(pids, r, n), hits[n]);
    }
  }

  lemma {:induction false} BlipLaunch(pids: set<Pid>, r: Return)
    requires r.p in pids && r.q in pids
    ensures BlipInv(Launch(Blip(pids, r, -1), 2), pids, r, 0)
  {
    assert Blip(pids, r, -1).pids.Keys == pids;
  }

  // What two of the processes hold is part of what is attributed.
  lemma {:induction false} TwoAtMostAll(m: map<Pid, real>, p: Pid, q: Pid)
    requires p in m && q in m && p != q && forall x :: x in m ==> m[x] >= 0.0
    ensures m[p] + m[q] <= SumValues(m)
  {
    SumRemove(m, p);
    SumRemove(m - {p}, q);
    PowerModel.SumNonNegative(m - {p} - {q});
  }

  lemma {:induction false} ReturnOverAttributes(pids: set<Pid>, r: Return, hits: seq<set<Pid>>, cadence: real)
    requires Returns(r, hits) && r.p != r.q && r.p in pids && r.q in pids
    ensures !Conserves(Blip(pids, r, -1), 2, cadence, Blips(pids, r, |hits|), hits)
  {
    hide Run, Launch, SeenBy, Blip, Blips, Untouched;
    var n := |hits|;
    BlipRun(pids, r, hits, cadence, n);
    assert hits[..n] == hits;
    var f := Run(Launch(Blip(pids, r, -1), 2), cadence, SeenBy(Blips(pids, r, n), hits));
    var totals := Totals(f);
    forall x | x in totals ensures totals[x] >= 0.0 { assert Running(f.each[x], 2); }
    TwoAtMostAll(totals, r.p, r.q);
    RaplLaws.JoulesAdd(2, 1);
  }

  // The first tick after i at which q is sampled.
  lemma {:induction false} NextSampled(hits: seq<set<Pid>>, q: Pid, i: nat, j: nat) returns (k: nat)
    requires i < j < |hits| && q in hits[j] && q !in hits[i]
    ensures i < k <= j && q in hits[k] && forall l :: i <= l < k ==> q !in hits[l]
  {
    k := i + 1;
    while q !in hits[k]
      invariant i < k <= j && forall l :: i <= l < k ==> q !in hits[l]
      decreases j - k
    {
      k := k + 1;
    }
  }

  // ---------- exactly ----------

  // Attribution conserves energy for all counters exactly if a process that misses
  // a tick at which another is sampled is never sampled again: exits are harmless,
  // and so are ticks that all miss, but not the return of a process.
  lemma {:induction false} ConservesExactly(pids: set<Pid>, cadence: real, hits: seq<set<Pid>>)
    requires forall i :: 0 <= i < |hits| ==> hits[i] <= pids
    ensures AlwaysConserves(pids, cadence, hits) <==> NoReturn(hits)
  {
    hide NoReturn, Truthful, Conserves;
    if NoReturn(hits) {
      forall m: Moment, max: u64, ts: seq<Moment> | m.pids.Keys == pids && |ts| == |hits| && Truthful(m, max, ts)
        ensures Conserves(m, max, cadence, ts, hits)
      {
        NoReturnConserves(m, max, cadence, ts, hits);
      }
    } else {
      ReturnBreaks(pids, cadence, hits);
    }
  }

  lemma {:induction false} SomeReturn(hits: seq<set<Pid>>) returns (r: Return)
    requires !NoReturn(hits)
    ensures Returns(r, hits) && r.p != r.q
  {
    var i, j :| 0 <= i < j < |hits| && hits[i] != {} && !(hits[j] <= hits[i]);
    var p :| p in hits[i];
    var q :| q in hits[j] && q !in hits[i];
    var k := NextSampled(hits, q, i, j);
    r := Return(p, q, i, k);
  }

  lemma {:induction false} ReturnBreaks(pids: set<Pid>, cadence: real, hits: seq<set<Pid>>)
    requires !NoReturn(hits) && forall i :: 0 <= i < |hits| ==> hits[i] <= pids
    ensures !AlwaysConserves(pids, cadence, hits)
  {
    hide NoReturn, Truthful, Conserves;
    var r := SomeReturn(hits);
    ReturnOverAttributes(pids, r, hits, cadence);
    BlipsTruthful(pids, r, |hits|);
    var m, ts := Blip(pids, r, -1), Blips(pids, r, |hits|);
    assert m.pids.Keys == pids;
    assert Truthful(m, 2, ts) && !Conserves(m, 2, cadence, ts, hits);
  }
}
