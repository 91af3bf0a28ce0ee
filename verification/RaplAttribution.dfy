// Several processes measured side by side, each by its own RAPL method, against
// one that measures the whole system.
module RaplAttribution {
  import opened Words
  import opened Options
  import opened Sums
  import opened Reals
  import opened RaplMethod

  type Pid = p: nat | p > 0 witness 1

  // One sampling moment, seen by all the methods: the energy counter, and the
  // cumulative busy times of the system and of every watched process still alive.
  datatype Moment = Moment(now: real, energyUJ: u64, total: u64, pids: map<Pid, u64>)

  function Seen(m: Moment, pid: Pid): Observation
  {
    Observation(m.now, Some(m.energyUJ), if pid in m.pids then Some(CpuTimes(m.pids[pid], m.total)) else None)
  }

  // The whole-system method, the methods of the watched processes, and the
  // moment they have all seen last.
  datatype Fleet = Fleet(latest: Moment, system: State, each: map<Pid, State>)

  // As Start leaves them at moment m.
  function Launch(m: Moment, max: u64): Fleet
  {
    Fleet(m, State(true, max, m.energyUJ, CpuTimes(0, 0), m.now, 0.0),
          map p | p in m.pids :: State(true, max, m.energyUJ, CpuTimes(m.pids[p], m.total), m.now, 0.0))
  }

  // Every method measures at moment x.
  function Tick(f: Fleet, cadence: real, x: Moment): Fleet
  {
    Fleet(x, AfterMeasure(Config(0, cadence), f.system, Observation(x.now, Some(x.energyUJ), None)),
          map p | p in f.each :: AfterMeasure(Config(p, cadence), f.each[p], Seen(x, p)))
  }

  function Run(f: Fleet, cadence: real, ms: seq<Moment>): Fleet
  {
    if ms == [] then f else Tick(Run(f, cadence, ms[..|ms| - 1]), cadence, ms[|ms| - 1])
  }

  ghost function Totals(f: Fleet): map<Pid, real>
  {
    map p | p in f.each.Keys :: f.each[p].totalEnergyJ
  }

  ghost function AttributedTotal(f: Fleet): real { SumValues(Totals(f)) }

  // ---------- what the counters of the kernel guarantee ----------

  ghost predicate Monotone(a: Moment, b: Moment)
  {
    && b.pids.Keys <= a.pids.Keys
    && a.total <= b.total
    && forall p :: p in b.pids ==> a.pids[p] <= b.pids[p]
  }

  function BusyOf(a: Moment, b: Moment, p: Pid): real
  {
    if p in a.pids && p in b.pids then Sub64(b.pids[p], a.pids[p]) as real else 0.0
  }

  // Busy time of the watched processes between two moments.
  ghost function BusyTogether(a: Moment, b: Moment): real { SumValues(BusyTimes(a, b)) }

  ghost function BusyTimes(a: Moment, b: Moment): map<Pid, real>
  {
    map p | p in a.pids.Keys :: BusyOf(a, b, p)
  }

  // Busy times only grow, processes only exit, and together the watched processes
  // are not busier than the system.
  ghost predicate Consistent(a: Moment, b: Moment)
  {
    Monotone(a, b) && BusyTogether(a, b) <= (b.total - a.total) as real
  }

  // They are all the busy time there is, and there is some.
  ghost predicate Partition(a: Moment, b: Moment)
  {
    BusyTogether(a, b) == (b.total - a.total) as real > 0.0
  }

  ghost predicate InStep(f: Fleet)
  {
    && f.system.started && f.system.lastEnergyUJ == f.latest.energyUJ
    && f.latest.pids.Keys <= f.each.Keys
    && forall p :: p in f.latest.pids ==>
         && f.each[p].started
         && f.each[p].maxEnergyUJ == f.system.maxEnergyUJ
         && f.each[p].lastEnergyUJ == f.latest.energyUJ
         && f.each[p].lastCPU == CpuTimes(f.latest.pids[p], f.latest.total)
  }

  ghost predicate History(m: Moment, ms: seq<Moment>)
  {
    forall i :: 0 <= i < |ms| ==> Consistent(Prior(m, ms, i), ms[i])
  }

  // The moment before ms[i] in a run that begins at m.
  function Prior(m: Moment, ms: seq<Moment>, i: nat): Moment
    requires i <= |ms|
  {
    if i == 0 then m else ms[i - 1]
  }

  lemma {:induction false} HistoryPrefix(m: Moment, ms: seq<Moment>, n: nat)
    requires History(m, ms) && n <= |ms|
    ensures History(m, ms[..n])
  {
    forall i | 0 <= i < n ensures Consistent(Prior(m, ms[..n], i), ms[..n][i]) {
      assert Consistent(Prior(m, ms, i), ms[i]);
    }
  }

  // ---------- one tick ----------

  // Energy the whole system is charged at moment x.
  function SystemEnergy(f: Fleet, x: Moment): real
  {
    Joules(DeltaUJ(f.latest.energyUJ, x.energyUJ, f.system.maxEnergyUJ))
  }

  function Gain(f: Fleet, cadence: real, x: Moment, p: Pid): real
    requires p in f.each
  {
    Tick(f, cadence, x).each[p].totalEnergyJ - f.each[p].totalEnergyJ
  }

  function ShareOf(a: Moment, b: Moment, p: Pid): real
    requires b.total != a.total
  {
    BusyOf(a, b, p) / Sub64(b.total, a.total) as real
  }

  // A process gains its share of the system's energy; one that is gone, nothing.
  lemma {:induction false} GainIsShare(f: Fleet, cadence: real, x: Moment, p: Pid)
    requires InStep(f) && Monotone(f.latest, x) && p in f.each
    ensures x.total == f.latest.total ==> Gain(f, cadence, x, p) == 0.0
    ensures x.total != f.latest.total ==> IsTimes(SystemEnergy(f, x), ShareOf(f.latest, x, p), Gain(f, cadence, x, p))
  {
    if p in x.pids {
      assert f.each[p].lastEnergyUJ == f.latest.energyUJ;
    }
  }

  lemma {:induction false} ShareIsQuotient(busy: real, total: real, share: real)
    requires total > 0.0 && share == busy / total
    ensures IsTimes(1.0 / total, busy, share)
  {
  }

  // The shares of one interval add up to busy time over total time.
  lemma {:induction false} SharesTogether(f: Fleet, x: Moment, shares: map<Pid, real>)
    requires InStep(f) && Monotone(f.latest, x) && x.total != f.latest.total
    requires shares.Keys == f.each.Keys && forall p :: p in shares ==> shares[p] == ShareOf(f.latest, x, p)
    ensures IsTimes(1.0 / (x.total - f.latest.total) as real, BusyTogether(f.latest, x), SumValues(shares))
  {
    var busy := BusyTimes(f.latest, x);
    var busyAll := map p | p in f.each.Keys :: BusyOf(f.latest, x, p);
    SumExtend(busy, busyAll);
    var total := (x.total - f.latest.total) as real;
    forall p | p in shares ensures IsTimes(1.0 / total, busyAll[p], shares[p]) {
      ShareIsQuotient(busyAll[p], total, shares[p]);
    }
    SumScale(busyAll, shares, 1.0 / total);
  }

  lemma {:induction false} QuotientAtMostOne(busy: real, total: real, share: real)
    requires total > 0.0 && busy <= total && IsTimes(1.0 / total, busy, share)
    ensures share <= 1.0
    ensures busy == total ==> share == 1.0
  {
    var inv := 1.0 / total;
    assert inv * total == 1.0;
    MulPositive(inv, 1.0);
    MulStrict(inv, busy, total);
  }

  lemma {:induction false} EnergyTimesShare(energy: real, share: real, gain: real)
    requires energy >= 0.0 && share <= 1.0 && IsTimes(energy, share, gain)
    ensures gain <= energy
    ensures share == 1.0 ==> gain == energy
  {
    MulNonNegative(energy, 1.0 - share);
  }

  // In one tick the processes together gain at most what the system gains.
  lemma {:induction false} GainsTogether(f: Fleet, cadence: real, x: Moment, gains: map<Pid, real>)
    requires InStep(f) && Consistent(f.latest, x)
    requires gains.Keys == f.each.Keys && forall p :: p in gains ==> gains[p] == Gain(f, cadence, x, p)
    ensures SumValues(gains) <= SystemEnergy(f, x)
    ensures Partition(f.latest, x) ==> SumValues(gains) == SystemEnergy(f, x)
  {
    hide DeltaUJ, Gain, ShareOf;
    if x.total == f.latest.total {
      forall p | p in gains ensures gains[p] == 0.0 { GainIsShare(f, cadence, x, p); }
      SumZero(gains);
    } else {
      var shares := map p | p in f.each.Keys :: ShareOf(f.latest, x, p);
      forall p | p in gains ensures IsTimes(SystemEnergy(f, x), shares[p], gains[p]) {
        GainIsShare(f, cadence, x, p);
      }
      SumScale(shares, gains, SystemEnergy(f, x));
      SharesTogether(f, x, shares);
      QuotientAtMostOne(BusyTogether(f.latest, x), (x.total - f.latest.total) as real, SumValues(shares));
      EnergyTimesShare(SystemEnergy(f, x), SumValues(shares), SumValues(gains));
    }
  }

  lemma {:induction false} TickInStep(f: Fleet, cadence: real, x: Moment)
    requires InStep(f) && Monotone(f.latest, x)
    ensures InStep(Tick(f, cadence, x))
    ensures Tick(f, cadence, x).system.totalEnergyJ == f.system.totalEnergyJ + SystemEnergy(f, x)
  {
    hide Attributed, DeltaUJ;
  }

  lemma {:induction false} TickTotals(f: Fleet, cadence: real, x: Moment)
    requires InStep(f) && Consistent(f.latest, x)
    ensures InStep(Tick(f, cadence, x))
    ensures Tick(f, cadence, x).system.totalEnergyJ == f.system.totalEnergyJ + SystemEnergy(f, x)
    ensures AttributedTotal(Tick(f, cadence, x)) <= AttributedTotal(f) + SystemEnergy(f, x)
    ensures Partition(f.latest, x) ==> AttributedTotal(Tick(f, cadence, x)) == AttributedTotal(f) + SystemEnergy(f, x)
  {
    hide SystemEnergy, InStep, Partition;
    var f' := Tick(f, cadence, x);
    var gains := map p | p in f.each.Keys :: Gain(f, cadence, x, p);
    TickInStep(f, cadence, x);
    SumAdd(Totals(f), gains, Totals(f'));
    GainsTogether(f, cadence, x, gains);
  }

  // ---------- whole runs ----------

  lemma {:induction false} RunInStep(m: Moment, max: u64, cadence: real, ms: seq<Moment>)
    requires History(m, ms)
    ensures var f := Run(Launch(m, max), cadence, ms);
      InStep(f) && f.latest == Prior(m, ms, |ms|)
  {
    if ms != [] {
      var n := |ms| - 1;
      HistoryPrefix(m, ms, n);
      assert Consistent(Prior(m, ms, n), ms[n]);
      RunInStep(m, max, cadence, ms[..n]);
      TickTotals(Run(Launch(m, max), cadence, ms[..n]), cadence, ms[n]);
    }
  }

  // However many processes are watched and whenever they exit, what is attributed
  // to them never exceeds what was measured, and is all of it when at every tick
  // they make up the whole busy time.
  lemma {:induction false} AttributionConserves(m: Moment, max: u64, cadence: real, ms: seq<Moment>)
    requires History(m, ms)
    ensures var f := Run(Launch(m, max), cadence, ms);
      && AttributedTotal(f) <= f.system.totalEnergyJ
      && ((forall i :: 0 <= i < |ms| ==> Partition(Prior(m, ms, i), ms[i])) ==>
            AttributedTotal(f) == f.system.totalEnergyJ)
  {
    hide Tick, Partition, Consistent, InStep;
    if ms == [] {
      SumZero(Totals(Launch(m, max)));
    } else {
      var n := |ms| - 1;
      HistoryPrefix(m, ms, n);
      assert Consistent(Prior(m, ms, n), ms[n]);
      RunInStep(m, max, cadence, ms[..n]);
      AttributionConserves(m, max, cadence, ms[..n]);
      assert forall i :: 0 <= i < n ==> ms[..n][i] == ms[i] && Prior(m, ms[..n], i) == Prior(m, ms, i);
      TickTotals(Run(Launch(m, max), cadence, ms[..n]), cadence, ms[n]);
    }
  }

  // Common ticks matter.  Process 2 misses the middle tick and then has its busy
  // second interval weighed against the energy of both: 100 J measured, 199 J
  // attributed.
  lemma {:induction false} MissedTickOverAttributes(cadence: real)
    ensures var c0, c1, c2 := Config(0, cadence), Config(1, cadence), Config(2, cadence);
            var st := State(true, 1000000000, 0, CpuTimes(0, 0), 0.0, 0.0);
            var e := Some(100000000);
            var o := (now: real, cpu: Option<CpuTimes>) => Observation(now, e, cpu);
            var system := AfterMeasure(c0, AfterMeasure(c0, st, o(1.0, None)), o(2.0, None));
            var first := AfterMeasure(c1, AfterMeasure(c1, st, o(1.0, Some(CpuTimes(1, 1)))), o(2.0, Some(CpuTimes(1, 100))));
            var second := AfterMeasure(c2, AfterMeasure(c2, st, o(1.0, None)), o(2.0, Some(CpuTimes(99, 100))));
      system.totalEnergyJ == 100.0 && first.totalEnergyJ == 100.0 && second.totalEnergyJ == 99.0
  {
  }
}
