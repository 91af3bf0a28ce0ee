// Packet handlers, the entry-by-entry scans of Read and the calls of Start and
// Measure, interleaved in every possible way.
module NicSystem {
  import opened Words
  import opened Options
  import opened BpfMaps
  import opened Sums
  import opened NicRead
  import K = NicKernel
  import M = NicMethod

  type Handlers = seq<K.Handler>
  type KernelScan = Scan<u32, Metrics, Handlers>

  // A successful Read: its result, and the kernel's history when the scan began
  // and when it ended.
  datatype Reading = Reading(begin: Handlers, end: Handlers, snapshot: Snapshot)

  datatype Phase = NotStarted | Baseline(scan: KernelScan, now: real) | Idle | Measuring(scan: KernelScan, now: real) | Aborted
  {
    predicate Scanning() { Baseline? || Measuring? }
  }

  datatype Setup = Setup(cfg: M.Config, ifaces: Ifaces)
  {
    // What NewLoader hands on: see NicRead.ResolveInterfaces.
    ghost predicate Valid()
    {
      cfg.Valid() && Injective(ifaces) && ifaces.Values <= cfg.features.Keys
    }
  }

  // base and last are the baseline reading and the last successful one.
  datatype System = System(kernel: K.Kernel, phase: Phase, meter: M.State, base: Reading, last: Reading)

  const NO_READING := Reading([], [], map[])

  function Boot(): System
  {
    System(K.Boot(), NotStarted, M.State(false, map[], 0.0, 0.0), NO_READING, NO_READING)
  }

  datatype Action =
    | Kernel(act: K.Action)
    | BeginStart(now: real)
    | BeginMeasure(now: real)
    | Visit(key: u32)
    | EndScan
    | ScanError

  function NewScan(s: System): KernelScan
  {
    Scan(s.kernel.handlers, s.kernel.stats.index.Keys, [])
  }

  function Entry1(s: System, k: u32): Option<Entry<u32, Metrics, Handlers>>
  {
    var c := s.kernel.stats.Lookup(k);
    if c.Some? && c.value < |s.kernel.stats.cells|
    then Some(Entry(k, s.kernel.stats.cells[c.value], s.kernel.handlers))
    else None
  }

  lemma {:induction false} NamedCovered(u: Setup, entries: seq<Entry<u32, Metrics, Handlers>>)
    requires u.Valid()
    ensures Named(u.ifaces, entries).Keys <= u.ifaces.Values <= u.cfg.features.Keys
  {
    forall name | name in Named(u.ifaces, entries) ensures name in u.ifaces.Values {
      NamedOnlyConfigured(u.ifaces, entries, name);
    }
  }

  // One action.  An action that is not possible now leaves the system as it is.
  ghost function Act(u: Setup, s: System, a: Action): System
    requires u.Valid()
  {
    match a
    case Kernel(act) => s.(kernel := K.Act(s.kernel, act))
    case BeginStart(now) =>
      if s.phase.NotStarted? then s.(phase := Baseline(NewScan(s), now)) else s
    case BeginMeasure(now) =>
      if s.phase.Idle? then s.(phase := Measuring(NewScan(s), now)) else s
    case Visit(k) =>
      if s.phase.Scanning() && !s.phase.scan.Saw(k) && Entry1(s, k).Some?
      then s.(phase := s.phase.(scan := s.phase.scan.(entries := s.phase.scan.entries + [Entry1(s, k).value])))
      else s
    case EndScan =>
      if s.phase.Scanning() && s.phase.scan.Complete() then Finish(u, s) else s
    case ScanError =>
      match s.phase
      case Baseline(_, _) => s.(phase := Aborted)
      case Measuring(_, now) => s.(phase := Idle, meter := M.AfterMeasure(u.cfg, s.meter, now, None))
      case _ => s
  }

  // Read returned: Start keeps it as the baseline, Measure takes the difference.
  ghost function Finish(u: Setup, s: System): System
    requires u.Valid() && s.phase.Scanning()
  {
    var read := Named(u.ifaces, s.phase.scan.entries);
    NamedCovered(u, s.phase.scan.entries);
    var reading := Reading(s.phase.scan.begin, s.kernel.handlers, read);
    if s.phase.Baseline?
    then System(s.kernel, Idle, M.State(true, read, s.phase.now, s.meter.totalEnergyJ), reading, reading)
    else s.(phase := Idle, meter := M.AfterMeasure(u.cfg, s.meter, s.phase.now, Some(read)), last := reading)
  }

  ghost function Exec(u: Setup, run: seq<Action>): System
    requires u.Valid()
  {
    if run == [] then Boot() else Act(u, Exec(u, run[..|run| - 1]), run[|run| - 1])
  }

  // ---------- invariants ----------

  // No counter has wrapped.
  ghost predicate NoOverflow(hs: Handlers)
  {
    forall k, d :: K.Accounted(hs, k, d) < TWO_TO_64
  }

  lemma {:induction false} NoOverflowEarlier(hs1: Handlers, hs2: Handlers)
    requires K.Later(hs1, hs2) && NoOverflow(hs2)
    ensures NoOverflow(hs1)
  {
    forall k, d ensures K.Accounted(hs1, k, d) < TWO_TO_64 {
      K.AccountedGrows(hs1, hs2, k, d);
    }
  }

  ghost predicate EntryInv(kernel: K.Kernel, scan: KernelScan, e: Entry<u32, Metrics, Handlers>)
  {
    && e.key in kernel.stats.index
    && K.Later(scan.begin, e.at) && K.Later(e.at, kernel.handlers)
    && forall d :: e.value.Get(d) == K.Accounted(e.at, e.key, d)
  }

  ghost predicate ScanInv(kernel: K.Kernel, scan: KernelScan)
  {
    && K.Later(scan.begin, kernel.handlers)
    && scan.must <= kernel.stats.index.Keys
    && (forall k, d :: k !in scan.must ==> K.Accounted(scan.begin, k, d) == 0)
    && (forall i :: 0 <= i < |scan.entries| ==> EntryInv(kernel, scan, scan.entries[i]))
    && (forall i, j :: 0 <= i < j < |scan.entries| ==> scan.entries[i].key != scan.entries[j].key)
  }

  // A reading lies between what was accounted when its scan began and ended.
  ghost predicate Between(ifaces: Ifaces, r: Reading, k: u32, d: K.Dir)
    requires k in ifaces
  {
    K.Accounted(r.begin, k, d) <= M.At(r.snapshot, ifaces[k]).Get(d) <= K.Accounted(r.end, k, d)
  }

  ghost predicate ReadingInv(kernel: K.Kernel, ifaces: Ifaces, r: Reading)
  {
    && K.Later(r.begin, r.end) && K.Later(r.end, kernel.handlers)
    && r.snapshot.Keys <= ifaces.Values
    && (forall k :: k in ifaces && ifaces[k] in r.snapshot ==> k in kernel.stats.index)
    && (forall k, d :: k in ifaces ==> Between(ifaces, r, k, d))
  }

  ghost predicate RunningInv(u: Setup, s: System)
    requires u.Valid()
  {
    && ReadingInv(s.kernel, u.ifaces, s.base) && ReadingInv(s.kernel, u.ifaces, s.last)
    && s.meter.loaded && s.meter.lastRead == s.last.snapshot
    && M.Grows(s.base.snapshot, s.last.snapshot)
    && s.meter.totalEnergyJ == M.Joules(u.cfg.features, s.base.snapshot, s.last.snapshot)
  }

  ghost predicate Inv(u: Setup, s: System)
    requires u.Valid()
  {
    && K.Inv(s.kernel)
    && (s.phase.Scanning() ==> ScanInv(s.kernel, s.phase.scan))
    && (s.phase.NotStarted? || s.phase.Baseline? || s.phase.Aborted? ==> s.meter.totalEnergyJ == 0.0)
    && (s.phase.Idle? || s.phase.Measuring? ==> RunningInv(u, s))
    && (s.phase.Measuring? ==>
          && K.Later(s.last.end, s.phase.scan.begin)
          && forall k :: k in u.ifaces && u.ifaces[k] in s.last.snapshot ==> k in s.phase.scan.must)
  }

  // ---------- each action keeps the invariant ----------

  lemma {:induction false} KernelAction(u: Setup, s: System, act: K.Action)
    requires u.Valid() && Inv(u, s)
    ensures Inv(u, Act(u, s, Kernel(act)))
    ensures K.Later(s.kernel.handlers, K.Act(s.kernel, act).handlers)
  {
    K.ActInv(s.kernel, act);
  }

  lemma {:induction false} BeginAction(u: Setup, s: System, a: Action)
    requires u.Valid() && Inv(u, s) && (a.BeginStart? || a.BeginMeasure?)
    ensures Inv(u, Act(u, s, a))
  {
    forall k, d | k !in NewScan(s).must ensures K.Accounted(NewScan(s).begin, k, d) == 0 {
      K.AbsentNone(s.kernel, k, d);
    }
    assert ScanInv(s.kernel, NewScan(s));
  }

  lemma {:induction false} VisitAction(u: Setup, s: System, k: u32)
    requires u.Valid() && Inv(u, s) && NoOverflow(s.kernel.handlers)
    ensures Inv(u, Act(u, s, Visit(k)))
  {
    if s.phase.Scanning() && !s.phase.scan.Saw(k) && Entry1(s, k).Some? {
      var e := Entry1(s, k).value;
      var scan := s.phase.scan;
      var scan' := scan.(entries := scan.entries + [e]);
      forall d ensures e.value.Get(d) == K.Accounted(e.at, k, d) {
        assert K.CounterIs(s.kernel, k, d);
      }
      assert EntryInv(s.kernel, scan', e);
      forall i | 0 <= i < |scan'.entries| ensures EntryInv(s.kernel, scan', scan'.entries[i]) {
        if i < |scan.entries| { assert EntryInv(s.kernel, scan, scan.entries[i]); }
      }
      assert ScanInv(s.kernel, scan');
    }
  }

  // A completed scan is a reading that lies between its two moments.
  lemma {:induction false} CompleteScan(u: Setup, kernel: K.Kernel, scan: KernelScan)
    requires u.Valid() && K.Inv(kernel) && ScanInv(kernel, scan) && scan.Complete()
    ensures ReadingInv(kernel, u.ifaces, Reading(scan.begin, kernel.handlers, Named(u.ifaces, scan.entries)))
  {
    var r := Reading(scan.begin, kernel.handlers, Named(u.ifaces, scan.entries));
    NamedCovered(u, scan.entries);
    forall k | k in u.ifaces
      ensures u.ifaces[k] in r.snapshot ==> k in kernel.stats.index
      ensures forall d :: Between(u.ifaces, r, k, d)
    {
      NamedLookup(u.ifaces, scan.entries, k);
      if i :| 0 <= i < |scan.entries| && scan.entries[i].key == k {
        var e := scan.entries[i];
        assert EntryInv(kernel, scan, e);
        forall d ensures Between(u.ifaces, r, k, d) {
          K.AccountedGrows(scan.begin, e.at, k, d);
          K.AccountedGrows(e.at, kernel.handlers, k, d);
        }
      } else {
        assert k !in scan.must;
      }
    }
  }

  // What a name held in the last reading it still holds, and at least as much.
  lemma {:induction false} ReadingsGrow(u: Setup, s: System)
    requires u.Valid() && Inv(u, s) && s.phase.Measuring? && s.phase.scan.Complete()
    ensures M.Grows(s.last.snapshot, Named(u.ifaces, s.phase.scan.entries))
  {
    var scan := s.phase.scan;
    var cur := Named(u.ifaces, scan.entries);
    forall name | name in s.last.snapshot
      ensures name in cur && s.last.snapshot[name].rx <= cur[name].rx && s.last.snapshot[name].tx <= cur[name].tx
    {
      var k :| k in u.ifaces && u.ifaces[k] == name;
      assert scan.Saw(k);
      var i :| 0 <= i < |scan.entries| && scan.entries[i].key == k;
      var e := scan.entries[i];
      NamedLookup(u.ifaces, scan.entries, k);
      assert EntryInv(s.kernel, scan, e);
      forall d ensures s.last.snapshot[name].Get(d) <= e.value.Get(d) {
        assert Between(u.ifaces, s.last, k, d);
        K.AccountedGrows(s.last.end, scan.begin, k, d);
        K.AccountedGrows(scan.begin, e.at, k, d);
      }
      assert s.last.snapshot[name].rx == s.last.snapshot[name].Get(K.Ingress);
      assert s.last.snapshot[name].tx == s.last.snapshot[name].Get(K.Egress);
    }
  }

  lemma {:induction false} GrowsTrans(a: Snapshot, b: Snapshot, c: Snapshot)
    requires M.Grows(a, b) && M.Grows(b, c)
    ensures M.Grows(a, c)
  {
  }

  lemma {:induction false} JoulesSelf(features: M.Features, s: Snapshot)
    requires s.Keys <= features.Keys && forall name :: name in features ==> features[name].Usable()
    ensures M.Joules(features, s, s) == 0.0
  {
    var costs := M.Costs(features, s, s);
    forall name | name in costs ensures costs[name] == 0.0 {
      M.CostMonotone(features[name], 0, 0, 0, 0);
    }
    SumZero(costs);
  }

  lemma {:induction false} EndBaseline(u: Setup, s: System)
    requires u.Valid() && Inv(u, s) && s.phase.Baseline? && s.phase.scan.Complete()
    ensures Inv(u, Finish(u, s))
  {
    NamedCovered(u, s.phase.scan.entries);
    CompleteScan(u, s.kernel, s.phase.scan);
    JoulesSelf(u.cfg.features, Named(u.ifaces, s.phase.scan.entries));
  }

  lemma {:induction false} EndMeasure(u: Setup, s: System)
    requires u.Valid() && Inv(u, s) && s.phase.Measuring? && s.phase.scan.Complete()
    ensures Inv(u, Finish(u, s))
  {
    var cur := Named(u.ifaces, s.phase.scan.entries);
    NamedCovered(u, s.phase.scan.entries);
    CompleteScan(u, s.kernel, s.phase.scan);
    ReadingsGrow(u, s);
    GrowsTrans(s.base.snapshot, s.last.snapshot, cur);
    M.Telescope(u.cfg.features, s.base.snapshot, s.last.snapshot, cur);
  }

  lemma {:induction false} EndAction(u: Setup, s: System)
    requires u.Valid() && Inv(u, s)
    ensures Inv(u, Act(u, s, EndScan))
  {
    if s.phase.Scanning() && s.phase.scan.Complete() {
      if s.phase.Baseline? { EndBaseline(u, s); } else { EndMeasure(u, s); }
    }
  }

  lemma {:induction false} ActionInv(u: Setup, s: System, a: Action)
    requires u.Valid() && Inv(u, s) && NoOverflow(s.kernel.handlers)
    ensures Inv(u, Act(u, s, a))
  {
    match a
    case Kernel(act) => KernelAction(u, s, act);
    case BeginStart(_) => BeginAction(u, s, a);
    case BeginMeasure(_) => BeginAction(u, s, a);
    case Visit(k) => VisitAction(u, s, k);
    case EndScan => EndAction(u, s);
    case ScanError =>
  }

  lemma {:induction false} ActionLater(u: Setup, s: System, a: Action)
    requires u.Valid() && K.Inv(s.kernel)
    ensures K.Inv(Act(u, s, a).kernel) && K.Later(s.kernel.handlers, Act(u, s, a).kernel.handlers)
  {
    if a.Kernel? { K.ActInv(s.kernel, a.act); }
  }

  lemma {:induction false} KernelInv(u: Setup, run: seq<Action>)
    requires u.Valid()
    ensures K.Inv(Exec(u, run).kernel)
  {
    if run != [] {
      KernelInv(u, run[..|run| - 1]);
      ActionLater(u, Exec(u, run[..|run| - 1]), run[|run| - 1]);
    }
  }

  lemma {:induction false} ExecInv(u: Setup, run: seq<Action>)
    requires u.Valid() && NoOverflow(Exec(u, run).kernel.handlers)
    ensures Inv(u, Exec(u, run))
  {
    if run != [] {
      var prefix := run[..|run| - 1];
      KernelInv(u, prefix);
      ActionLater(u, Exec(u, prefix), run[|run| - 1]);
      NoOverflowEarlier(Exec(u, prefix).kernel.handlers, Exec(u, run).kernel.handlers);
      ExecInv(u, prefix);
      ActionInv(u, Exec(u, prefix), run[|run| - 1]);
    }
  }

  // ---------- the end-to-end result ----------

  ghost function Feature(u: Setup, k: u32): (f: M.PerInterface)
    requires u.Valid() && k in u.ifaces
    ensures f.Usable()
  {
    assert u.ifaces[k] in u.ifaces.Values;
    u.cfg.features[u.ifaces[k]]
  }

  // Energy, on interface k, of the bytes accounted from one moment of the
  // kernel to another.
  ghost function AccountedCost(u: Setup, from: Handlers, to: Handlers, k: u32): real
    requires u.Valid() && k in u.ifaces
  {
    M.Cost(Feature(u, k),
           K.Accounted(to, k, K.Ingress) - K.Accounted(from, k, K.Ingress),
           K.Accounted(to, k, K.Egress) - K.Accounted(from, k, K.Egress))
  }

  ghost function AccountedEnergy(u: Setup, from: Handlers, to: Handlers): real
    requires u.Valid()
  {
    SumValues(map k | k in u.ifaces :: AccountedCost(u, from, to, k))
  }

  // Energy, on interface k, of last value read minus baseline value, 0 where absent.
  ghost function ReadCost(u: Setup, base: Snapshot, last: Snapshot, k: u32): real
    requires u.Valid() && k in u.ifaces
  {
    M.Cost(Feature(u, k),
           M.At(last, u.ifaces[k]).rx - M.At(base, u.ifaces[k]).rx,
           M.At(last, u.ifaces[k]).tx - M.At(base, u.ifaces[k]).tx)
  }

  ghost function ReadEnergy(u: Setup, base: Snapshot, last: Snapshot): real
    requires u.Valid()
  {
    SumValues(map k | k in u.ifaces :: ReadCost(u, base, last, k))
  }

  lemma {:induction false} ReadCostIsCharge(u: Setup, base: Snapshot, last: Snapshot, k: u32)
    requires u.Valid() && M.Grows(base, last) && k in u.ifaces && last.Keys <= u.cfg.features.Keys
    ensures ReadCost(u, base, last, k) ==
              var costs := M.Costs(u.cfg.features, base, last);
              if u.ifaces[k] in costs then costs[u.ifaces[k]] else 0.0
  {
    M.CostMonotone(Feature(u, k), 0, 0, 0, 0);
    if u.ifaces[k] in last {
      assert M.Costs(u.cfg.features, base, last)[u.ifaces[k]] ==
             M.Charge(Feature(u, k), M.At(base, u.ifaces[k]), last[u.ifaces[k]]);
    }
  }

  // Summing by name or by interface index is the same.
  lemma {:induction false} SumByInterface(ifaces: Ifaces, byName: map<string, real>, byIndex: map<u32, real>)
    requires Injective(ifaces) && byName.Keys <= ifaces.Values && byIndex.Keys == ifaces.Keys
    requires forall k :: k in ifaces ==> byIndex[k] == if ifaces[k] in byName then byName[ifaces[k]] else 0.0
    ensures SumValues(byName) == SumValues(byIndex)
  {
    var all := map name | name in ifaces.Values :: if name in byName then byName[name] else 0.0;
    SumExtend(byName, all);
    SumRename(all, ifaces, byIndex);
  }

  lemma {:induction false} JoulesByInterface(u: Setup, base: Snapshot, last: Snapshot)
    requires u.Valid() && M.Grows(base, last) && last.Keys <= u.ifaces.Values
    ensures M.Joules(u.cfg.features, base, last) == ReadEnergy(u, base, last)
  {
    var read := map k | k in u.ifaces :: ReadCost(u, base, last, k);
    var costs := M.Costs(u.cfg.features, base, last);
    forall k | k in u.ifaces ensures read[k] == if u.ifaces[k] in costs then costs[u.ifaces[k]] else 0.0 {
      ReadCostIsCharge(u, base, last, k);
    }
    SumByInterface(u.ifaces, costs, read);
  }

  lemma {:induction false} ReadBetweenAccountedAt(u: Setup, kernel: K.Kernel, base: Reading, last: Reading, k: u32)
    requires u.Valid() && ReadingInv(kernel, u.ifaces, base) && ReadingInv(kernel, u.ifaces, last)
    requires k in u.ifaces
    ensures AccountedCost(u, base.end, last.begin, k) <= ReadCost(u, base.snapshot, last.snapshot, k)
    ensures ReadCost(u, base.snapshot, last.snapshot, k) <= AccountedCost(u, base.begin, last.end, k)
  {
    var b, l := M.At(base.snapshot, u.ifaces[k]), M.At(last.snapshot, u.ifaces[k]);
    assert Between(u.ifaces, base, k, K.Ingress) && Between(u.ifaces, base, k, K.Egress);
    assert Between(u.ifaces, last, k, K.Ingress) && Between(u.ifaces, last, k, K.Egress);
    M.CostMonotone(Feature(u, k),
      K.Accounted(last.begin, k, K.Ingress) - K.Accounted(base.end, k, K.Ingress),
      K.Accounted(last.begin, k, K.Egress) - K.Accounted(base.end, k, K.Egress), l.rx - b.rx, l.tx - b.tx);
    M.CostMonotone(Feature(u, k), l.rx - b.rx, l.tx - b.tx,
      K.Accounted(last.end, k, K.Ingress) - K.Accounted(base.begin, k, K.Ingress),
      K.Accounted(last.end, k, K.Egress) - K.Accounted(base.begin, k, K.Egress));
  }

  lemma {:induction false} ReadBetweenAccounted(u: Setup, kernel: K.Kernel, base: Reading, last: Reading)
    requires u.Valid() && ReadingInv(kernel, u.ifaces, base) && ReadingInv(kernel, u.ifaces, last)
    ensures AccountedEnergy(u, base.end, last.begin) <= ReadEnergy(u, base.snapshot, last.snapshot)
    ensures ReadEnergy(u, base.snapshot, last.snapshot) <= AccountedEnergy(u, base.begin, last.end)
  {
    var low := map k | k in u.ifaces :: AccountedCost(u, base.end, last.begin, k);
    var mid := map k | k in u.ifaces :: ReadCost(u, base.snapshot, last.snapshot, k);
    var high := map k | k in u.ifaces :: AccountedCost(u, base.begin, last.end, k);
    forall k | k in u.ifaces ensures low[k] <= mid[k] <= high[k] {
      ReadBetweenAccountedAt(u, kernel, base, last, k);
    }
    SumAtMost(low, mid);
    SumAtMost(mid, high);
  }

  // For every interleaving, with any number of ticks at any times, some of them
  // failing: the total is the energy of last reading minus baseline reading, and
  // lies between the energies of the bytes accounted around the two scans.
  lemma {:induction false} TotalOfReadings(u: Setup, run: seq<Action>)
    requires u.Valid() && NoOverflow(Exec(u, run).kernel.handlers)
    ensures var s := Exec(u, run);
      s.phase.Idle? || s.phase.Measuring? ==>
        && s.meter.totalEnergyJ == ReadEnergy(u, s.base.snapshot, s.last.snapshot)
        && AccountedEnergy(u, s.base.end, s.last.begin) <= s.meter.totalEnergyJ
        && s.meter.totalEnergyJ <= AccountedEnergy(u, s.base.begin, s.last.end)
  {
    ExecInv(u, run);
    var s := Exec(u, run);
    if s.phase.Idle? || s.phase.Measuring? {
      JoulesByInterface(u, s.base.snapshot, s.last.snapshot);
      ReadBetweenAccounted(u, s.kernel, s.base, s.last);
    }
  }
}
