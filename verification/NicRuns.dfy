// What a run of the NIC measurement reports, by what was done in it: where the
// baseline scan and the last scan of Measure lie among the actions.
module NicRuns {
  import opened BpfMaps
  import opened NicRead
  import opened NicSystem

  // From action b to action e the map is iterated: b begins the scan, e ends it,
  // and in between every key present at b is visited while packets may arrive and
  // handlers run.
  ghost predicate ScanAt(u: Setup, run: seq<Action>, b: nat, e: nat)
    requires u.Valid()
  {
    && b < e < |run| && (run[b].BeginStart? || run[b].BeginMeasure?) && run[e] == EndScan
    && (forall i :: b < i < e ==> run[i].Kernel? || run[i].Visit?)
    && forall k :: k in Exec(u, run[..b]).kernel.stats.index ==> exists i :: b < i < e && run[i] == Visit(k)
  }

  ghost predicate StartAt(u: Setup, run: seq<Action>, b: nat, e: nat)
    requires u.Valid()
  {
    ScanAt(u, run, b, e) && run[b].BeginStart? && Exec(u, run[..b]).phase.NotStarted?
  }

  ghost predicate MeasureAt(u: Setup, run: seq<Action>, b: nat, e: nat)
    requires u.Valid()
  {
    ScanAt(u, run, b, e) && run[b].BeginMeasure? && Exec(u, run[..b]).phase.Idle?
  }

  // Action i ends a scan that has visited all it had to.
  ghost predicate Completes(u: Setup, run: seq<Action>, i: nat)
    requires u.Valid() && i < |run|
  {
    var s := Exec(u, run[..i]);
    run[i] == EndScan && s.phase.Scanning() && s.phase.scan.Complete()
  }

  lemma {:induction false} ExecStep(u: Setup, run: seq<Action>, i: nat)
    requires u.Valid() && i < |run|
    ensures Exec(u, run[..i + 1]) == Act(u, Exec(u, run[..i]), run[i])
  {
    assert run[..i + 1][..i] == run[..i];
  }

  // ---------- inside a scan ----------

  // After the first n actions the scan that began with action b is under way, and
  // has seen the keys visited so far.
  ghost predicate Underway(u: Setup, run: seq<Action>, b: nat, n: nat)
    requires u.Valid() && b < n <= |run| && (run[b].BeginStart? || run[b].BeginMeasure?)
  {
    var s, t := Exec(u, run[..b]), Exec(u, run[..n]);
    && t.phase == (if run[b].BeginStart? then Baseline(Scanned(t), run[b].now) else Measuring(Scanned(t), run[b].now))
    && Scanned(t).begin == s.kernel.handlers && Scanned(t).must == s.kernel.stats.index.Keys
    && Scanned(t).must <= t.kernel.stats.index.Keys
    && (forall i :: b < i < n && run[i].Visit? && run[i].key in Scanned(t).must ==> Scanned(t).Saw(run[i].key))
    && t.base == s.base && t.last == s.last && t.meter == s.meter
  }

  ghost function Scanned(s: System): KernelScan
  {
    if s.phase.Scanning() then s.phase.scan else Scan([], {}, [])
  }

  lemma {:induction false} SawMore(scan: KernelScan, e: Entry<u32, Metrics, Handlers>)
    ensures forall k :: scan.Saw(k) || e.key == k ==> scan.(entries := scan.entries + [e]).Saw(k)
  {
    var more := scan.(entries := scan.entries + [e]);
    forall k | scan.Saw(k) || e.key == k ensures more.Saw(k) {
      if scan.Saw(k) {
        var i :| 0 <= i < |scan.entries| && scan.entries[i].key == k;
        assert more.entries[i].key == k;
      } else {
        assert more.entries[|scan.entries|].key == k;
      }
    }
  }

  lemma {:induction false} VisitUnderway(u: Setup, run: seq<Action>, b: nat, n: nat)
    requires u.Valid() && b < n < |run| && (run[b].BeginStart? || run[b].BeginMeasure?)
    requires run[n].Visit? && Underway(u, run, b, n)
    ensures Underway(u, run, b, n + 1)
  {
    hide Exec;
    var t := Exec(u, run[..n]);
    KernelInv(u, run[..n]);
    ExecStep(u, run, n);
    if Entry1(t, run[n].key).Some? { SawMore(t.phase.scan, Entry1(t, run[n].key).value); }
  }

  lemma {:induction false} KernelUnderway(u: Setup, run: seq<Action>, b: nat, n: nat)
    requires u.Valid() && b < n < |run| && (run[b].BeginStart? || run[b].BeginMeasure?)
    requires run[n].Kernel? && Underway(u, run, b, n)
    ensures Underway(u, run, b, n + 1)
  {
    hide Exec, K.Act;
    KernelInv(u, run[..n]);
    ExecStep(u, run, n);
    K.ActInv(Exec(u, run[..n]).kernel, run[n].act);
  }

  lemma {:induction false} ScanUnderway(u: Setup, run: seq<Action>, b: nat, n: nat)
    requires u.Valid() && b < n <= |run|
    requires if run[b].BeginStart? then Exec(u, run[..b]).phase.NotStarted?
             else run[b].BeginMeasure? && Exec(u, run[..b]).phase.Idle?
    requires forall i :: b < i < n ==> run[i].Kernel? || run[i].Visit?
    ensures Underway(u, run, b, n)
    decreases n
  {
    hide Exec, Underway;
    if n == b + 1 {
      ScanBegins(u, run, b);
    } else {
      ScanUnderway(u, run, b, n - 1);
      if run[n - 1].Kernel? { KernelUnderway(u, run, b, n - 1); } else { VisitUnderway(u, run, b, n - 1); }
    }
  }

  lemma {:induction false} ScanBegins(u: Setup, run: seq<Action>, b: nat)
    requires u.Valid() && b < |run|
    requires if run[b].BeginStart? then Exec(u, run[..b]).phase.NotStarted?
             else run[b].BeginMeasure? && Exec(u, run[..b]).phase.Idle?
    ensures Underway(u, run, b, b + 1)
  {
    hide Exec;
    ExecStep(u, run, b);
  }

  // ---------- scans that complete ----------

  lemma {:induction false} ScanCompletes(u: Setup, run: seq<Action>, b: nat, e: nat)
    requires u.Valid() && (StartAt(u, run, b, e) || MeasureAt(u, run, b, e))
    ensures Underway(u, run, b, e) && Completes(u, run, e)
  {
    hide Exec;
    ScanUnderway(u, run, b, e);
    var t := Exec(u, run[..e]);
    forall k | k in t.phase.scan.must ensures t.phase.scan.Saw(k) {
      var i :| b < i < e && run[i] == Visit(k);
      assert run[i].Visit? && run[i].key in Scanned(t).must;
    }
  }

  // A completed scan of Start is the baseline: from here the method is ready to
  // measure, with no energy yet.
  lemma {:induction false} StartKeeps(u: Setup, run: seq<Action>, b: nat, e: nat)
    requires u.Valid() && StartAt(u, run, b, e)
    ensures var f := Exec(u, run[..e + 1]);
      && f.phase.Idle? && f.base == f.last
      && f.base.begin == Exec(u, run[..b]).kernel.handlers && f.base.end == Exec(u, run[..e]).kernel.handlers
      && f.meter.loaded && f.meter.lastRead == f.base.snapshot
      && f.meter.totalEnergyJ == Exec(u, run[..b]).meter.totalEnergyJ
  {
    hide Exec;
    ScanCompletes(u, run, b, e);
    ExecStep(u, run, e);
  }

  // A completed scan of Measure is the new reference, and its difference to the
  // one before is charged.
  lemma {:induction false} MeasureKeeps(u: Setup, run: seq<Action>, b: nat, e: nat)
    requires u.Valid() && MeasureAt(u, run, b, e)
    ensures var s, f := Exec(u, run[..b]), Exec(u, run[..e + 1]);
      && f.phase.Idle? && f.base == s.base
      && f.last.begin == s.kernel.handlers && f.last.end == Exec(u, run[..e]).kernel.handlers
      && f.last.snapshot.Keys <= u.cfg.features.Keys
      && (s.meter.loaded ==>
            && f.meter.lastRead == f.last.snapshot
            && f.meter.totalEnergyJ == s.meter.totalEnergyJ + M.Joules(u.cfg.features, s.meter.lastRead, f.last.snapshot))
  {
    hide Exec, M.Joules;
    ScanCompletes(u, run, b, e);
    NamedCovered(u, Exec(u, run[..e]).phase.scan.entries);
    ExecStep(u, run, e);
  }

  // ---------- what later actions leave alone ----------

  ghost predicate Ready(s: System) { s.phase.Idle? || s.phase.Measuring? }

  lemma {:induction false} BaseStays(u: Setup, run: seq<Action>, n: nat, m: nat)
    requires u.Valid() && n <= m <= |run| && Ready(Exec(u, run[..n]))
    ensures Ready(Exec(u, run[..m])) && Exec(u, run[..m]).base == Exec(u, run[..n]).base
    decreases m
  {
    hide Exec, Completes;
    if n < m {
      BaseStays(u, run, n, m - 1);
      ExecStep(u, run, m - 1);
    }
  }

  lemma {:induction false} LastStays(u: Setup, run: seq<Action>, n: nat, m: nat)
    requires u.Valid() && n <= m <= |run| && Ready(Exec(u, run[..n]))
    requires forall i :: n <= i < m ==> !Completes(u, run, i)
    ensures Exec(u, run[..m]).last == Exec(u, run[..n]).last
    ensures Exec(u, run[..m]).meter == Exec(u, run[..n]).meter
    decreases m
  {
    hide Exec;
    if n < m {
      LastStays(u, run, n, m - 1);
      BaseStays(u, run, n, m - 1);
      ExecStep(u, run, m - 1);
      assert !Completes(u, run, m - 1);
    }
  }

  // A scan of Measure that fails leaves the method ready for the next.
  lemma {:induction false} ErrorKeeps(u: Setup, run: seq<Action>, i: nat)
    requires u.Valid() && i < |run| && run[i] == ScanError && Exec(u, run[..i]).phase.Measuring?
    ensures Exec(u, run[..i + 1]) == Exec(u, run[..i]).(phase := Idle)
  {
    hide Exec;
    ExecStep(u, run, i);
  }

  // ---------- end to end ----------

  // For every interleaving of packet handlers, scans and calls, with any number of
  // ticks before the last completed one and any failing ticks anywhere: the total
  // lies between the energy of the bytes accounted from the end of the baseline
  // scan to the begin of the last scan, and that of those from the begin of the
  // baseline scan to the end of the last.
  lemma {:induction false} EndToEnd(u: Setup, run: seq<Action>, b0: nat, e0: nat, b: nat, e: nat)
    requires u.Valid() && NoOverflow(Exec(u, run).kernel.handlers)
    requires StartAt(u, run, b0, e0) && e0 < b && MeasureAt(u, run, b, e)
    requires forall i :: e < i < |run| ==> !Completes(u, run, i)
    ensures var total := Exec(u, run).meter.totalEnergyJ;
      && AccountedEnergy(u, Exec(u, run[..e0]).kernel.handlers, Exec(u, run[..b]).kernel.handlers) <= total
      && total <= AccountedEnergy(u, Exec(u, run[..b0]).kernel.handlers, Exec(u, run[..e]).kernel.handlers)
  {
    hide Exec, AccountedEnergy, ReadEnergy, Completes, NoOverflow;
    StartKeeps(u, run, b0, e0);
    BaseStays(u, run, e0 + 1, b);
    MeasureKeeps(u, run, b, e);
    BaseStays(u, run, e + 1, |run|);
    LastStays(u, run, e + 1, |run|);
    assert run[..|run|] == run;
    TotalOfReadings(u, run);
  }

  // If no packet is handled during these two scans, the total is exactly the
  // energy of the bytes accounted between them.
  lemma {:induction false} QuietScansAreExact(u: Setup, run: seq<Action>, b0: nat, e0: nat, b: nat, e: nat)
    requires u.Valid() && NoOverflow(Exec(u, run).kernel.handlers)
    requires StartAt(u, run, b0, e0) && e0 < b && MeasureAt(u, run, b, e)
    requires forall i :: e < i < |run| ==> !Completes(u, run, i)
    requires forall i :: b0 < i < e0 || b < i < e ==> run[i].Visit?
    ensures Exec(u, run).meter.totalEnergyJ ==
            AccountedEnergy(u, Exec(u, run[..b0]).kernel.handlers, Exec(u, run[..b]).kernel.handlers)
  {
    hide Exec, AccountedEnergy, Completes, NoOverflow;
    EndToEnd(u, run, b0, e0, b, e);
    KernelRests(u, run, b0, e0);
    KernelRests(u, run, b, e);
  }

  lemma {:induction false} KernelRests(u: Setup, run: seq<Action>, n: nat, m: nat)
    requires u.Valid() && n <= m <= |run| && forall i :: n <= i < m ==> !run[i].Kernel?
    ensures Exec(u, run[..m]).kernel == Exec(u, run[..n]).kernel
    decreases m
  {
    hide Exec;
    if n < m {
      KernelRests(u, run, n, m - 1);
      ExecStep(u, run, m - 1);
    }
  }

  // Until a scan of Measure completes there is no energy.
  lemma {:induction false} NothingBeforeFirstTick(u: Setup, run: seq<Action>, b0: nat, e0: nat)
    requires u.Valid() && StartAt(u, run, b0, e0)
    requires NoOverflow(Exec(u, run[..b0]).kernel.handlers)
    requires forall i :: e0 < i < |run| ==> !Completes(u, run, i)
    ensures Exec(u, run).meter.totalEnergyJ == 0.0
  {
    hide Exec, Completes, NoOverflow;
    ExecInv(u, run[..b0]);
    StartKeeps(u, run, b0, e0);
    LastStays(u, run, e0 + 1, |run|);
    assert run[..|run|] == run;
  }
}
