// The scheduler handler of kernel_bpf.c, its loader and the scans of Read.
//
// Unlike the NIC handlers these insert with BPF_ANY, which would replace an
// entry that somebody else is using.  What saves them is that the key contains
// the CPU, and that handlers on one CPU do not overlap.
module CpuKernel {
  import opened Words
  import opened Options
  import opened BpfMaps

  const MAX_ENTRIES: nat := 1024

  type u32 = x: int | 0 <= x < 0x1_0000_0000

  // A sched_stat_runtime event: the CPU it fires on, the running task, and the
  // nanoseconds since the previous accounting.
  datatype Event = Event(cpu: u32, pid: u32, tgid: u32, runtime: u64)

  datatype Key = Key(tgid: u32, cpu: u32)

  datatype Pc = Enter | Insert | Relookup | Add(cell: nat) | Counted | Dropped | Ignored

  datatype Handler = Handler(ev: Event, pc: Pc)
  {
    predicate Finished() { pc.Counted? || pc.Dropped? || pc.Ignored? }
  }

  // NewLoader's steps in the order it takes them.
  datatype LoaderPc = Loaded | TargetSet | Attached

  // What a successful Read returned, and the kernel's history at both ends of it.
  datatype Reading = Reading(begin: seq<Handler>, end: seq<Handler>, values: map<u32, u64>)

  datatype System = System(
    times: BpfMap<Key, u64>, target: u32, loader: LoaderPc, handlers: seq<Handler>,
    scan: Option<Scan<Key, u64, seq<Handler>>>, readings: seq<Reading>)

  // How many CPUs there are, which task group was asked for, and whether
  // handlers on one CPU run one after the other.
  datatype Setup = Setup(cpus: nat, tgid: u32, serialised: bool)

  function Boot(): System { System(Empty(), 0, Loaded, [], None, []) }

  predicate Matches(target: u32, e: Event)
  {
    e.pid != 0 && (target == 0 || e.tgid == target)
  }

  predicate Busy(hs: seq<Handler>, cpu: u32)
  {
    exists i | 0 <= i < |hs| :: hs[i].ev.cpu == cpu && !hs[i].Finished()
  }

  function Found(c: Option<nat>, otherwise: Pc): Pc
  {
    if c.Some? then Add(c.value) else otherwise
  }

  // One atomic step of handler i.
  function Step(s: System, i: nat): System
    requires i < |s.handlers|
  {
    var h := s.handlers[i];
    var k := Key(s.target, h.ev.cpu);
    match h.pc
    case Enter =>
      var pc := if !Matches(s.target, h.ev) then Ignored else Found(s.times.Lookup(k), Insert);
      s.(handlers := s.handlers[i := h.(pc := pc)])
    case Insert =>
      s.(times := s.times.UpdateAny(k, 0, MAX_ENTRIES), handlers := s.handlers[i := h.(pc := Relookup)])
    case Relookup =>
      s.(handlers := s.handlers[i := h.(pc := Found(s.times.Lookup(k), Dropped))])
    case Add(c) =>
      if c >= |s.times.cells| then s else
      s.(times := s.times.Store(c, Add64(s.times.cells[c], h.ev.runtime)),
         handlers := s.handlers[i := h.(pc := Counted)])
    case _ => s
  }

  datatype Action = LoaderStep | Fire(ev: Event) | Run(i: nat) | BeginRead | Visit(key: Key) | EndRead | ReadError

  // One action.  An action that is not possible now leaves the system as it is.
  function Act(u: Setup, s: System, a: Action): System
  {
    match a
    case LoaderStep =>
      if s.loader.Loaded? then s.(target := u.tgid, loader := TargetSet)
      else if s.loader.TargetSet? then s.(loader := Attached)
      else s
    case Fire(e) =>
      if s.loader.Attached? && e.cpu < u.cpus && !(u.serialised && Busy(s.handlers, e.cpu))
      then s.(handlers := s.handlers + [Handler(e, Enter)])
      else s
    case Run(i) => if i < |s.handlers| then Step(s, i) else s
    case BeginRead =>
      if s.loader.Attached? && s.scan.None?
      then s.(scan := Some(Scan(s.handlers, s.times.index.Keys, [])))
      else s
    case Visit(k) =>
      if s.scan.Some? && !s.scan.value.Saw(k) && k in s.times.index && s.times.index[k] < |s.times.cells|
      then
        var e := Entry(k, s.times.cells[s.times.index[k]], s.handlers);
        s.(scan := Some(s.scan.value.(entries := s.scan.value.entries + [e])))
      else s
    case EndRead =>
      if s.scan.Some? && s.scan.value.Complete()
      then s.(scan := None,
              readings := s.readings + [Reading(s.scan.value.begin, s.handlers, ByCpu(s.target, s.scan.value.entries))])
      else s
    case ReadError => s.(scan := None)
  }

  function Exec(u: Setup, run: seq<Action>): System
  {
    if run == [] then Boot() else Act(u, Exec(u, run[..|run| - 1]), run[|run| - 1])
  }

  // Read's fold of the iterated entries: those of the target, keyed by CPU.
  function ByCpu<H>(target: u32, entries: seq<Entry<Key, u64, H>>): map<u32, u64>
  {
    if entries == [] then map[] else
      var e := entries[|entries| - 1];
      var out := ByCpu(target, entries[..|entries| - 1]);
      if e.key.tgid == target then out[e.key.cpu := e.value] else out
  }

  method Read<H>(target: u32, entries: seq<Entry<Key, u64, H>>, iterErr: bool) returns (r: Option<map<u32, u64>>)
    ensures r == if iterErr then None else Some(ByCpu(target, entries))
  {
    var out: map<u32, u64> := map[];
    for i := 0 to |entries|
      invariant out == ByCpu(target, entries[..i])
    {
      assert entries[..i + 1][..i] == entries[..i];
      if entries[i].key.tgid == target {
        out := out[entries[i].key.cpu := entries[i].value];
      }
    }
    assert entries[..|entries|] == entries;
    if iterErr {
      return None;
    }
    return Some(out);
  }

  lemma {:induction false} ByCpuLookup<H>(target: u32, entries: seq<Entry<Key, u64, H>>, cpu: u32)
    requires forall i, j :: 0 <= i < j < |entries| ==> entries[i].key != entries[j].key
    ensures cpu in ByCpu(target, entries) <==> exists i :: 0 <= i < |entries| && entries[i].key == Key(target, cpu)
    ensures forall i :: 0 <= i < |entries| && entries[i].key == Key(target, cpu) ==>
              ByCpu(target, entries)[cpu] == entries[i].value
  {
    if entries != [] {
      var n := |entries| - 1;
      ByCpuLookup(target, entries[..n], cpu);
      assert forall i :: 0 <= i < n ==> entries[..n][i] == entries[i];
      if entries[n].key != Key(target, cpu) {
        assert cpu in ByCpu(target, entries) <==> cpu in ByCpu(target, entries[..n]);
        if i :| 0 <= i < |entries| && entries[i].key == Key(target, cpu) {
          assert entries[..n][i].key == Key(target, cpu);
        }
      }
    }
  }

  // ---------- what should be accounted ----------

  function Share(target: u32, h: Handler, cpu: u32): nat
  {
    if h.Finished() && h.ev.pid != 0 && (target == 0 || h.ev.tgid == target) && h.ev.cpu == cpu then h.ev.runtime else 0
  }

  // Total runtime of the completed events on one CPU that are not of the idle task
  // and belong to the target, or to anyone if there is no target.
  function RunTime(target: u32, hs: seq<Handler>, cpu: u32): nat
  {
    if hs == [] then 0 else RunTime(target, hs[..|hs| - 1], cpu) + Share(target, hs[|hs| - 1], cpu)
  }

  lemma {:induction false} RunTimeUpdate(target: u32, hs: seq<Handler>, i: nat, h: Handler, cpu: u32)
    requires i < |hs|
    ensures RunTime(target, hs[i := h], cpu) ==
            RunTime(target, hs, cpu) - Share(target, hs[i], cpu) + Share(target, h, cpu)
  {
    var n := |hs| - 1;
    if i == n {
      assert hs[i := h][..n] == hs[..n];
    } else {
      assert hs[i := h][..n] == hs[..n][i := h];
      RunTimeUpdate(target, hs[..n], i, h, cpu);
    }
  }

  lemma {:induction false} RunTimeFire(target: u32, hs: seq<Handler>, e: Event, cpu: u32)
    ensures RunTime(target, hs + [Handler(e, Enter)], cpu) == RunTime(target, hs, cpu)
  {
    assert (hs + [Handler(e, Enter)])[..|hs|] == hs;
  }

  lemma {:induction false} RunTimeNone(target: u32, hs: seq<Handler>, cpu: u32)
    requires forall i :: 0 <= i < |hs| ==> Share(target, hs[i], cpu) == 0
    ensures RunTime(target, hs, cpu) == 0
  {
    if hs != [] { RunTimeNone(target, hs[..|hs| - 1], cpu); }
  }

  ghost predicate Later(hs1: seq<Handler>, hs2: seq<Handler>)
  {
    && |hs1| <= |hs2|
    && forall i :: 0 <= i < |hs1| ==> hs2[i].ev == hs1[i].ev && (hs1[i].Finished() ==> hs2[i].Finished())
  }

  lemma {:induction false} RunTimeGrows(target: u32, hs1: seq<Handler>, hs2: seq<Handler>, cpu: u32)
    requires Later(hs1, hs2)
    ensures RunTime(target, hs1, cpu) <= RunTime(target, hs2, cpu)
    decreases |hs2|
  {
    if hs2 != [] {
      var n := |hs2| - 1;
      if |hs1| == |hs2| {
        RunTimeGrows(target, hs1[..n], hs2[..n], cpu);
      } else {
        RunTimeGrows(target, hs1, hs2[..n], cpu);
      }
    }
  }

  // ---------- the kernel invariant ----------

  ghost predicate HandlerInv(s: System, h: Handler)
  {
    var k := Key(s.target, h.ev.cpu);
    match h.pc
    case Enter => true
    case Ignored => !Matches(s.target, h.ev)
    case Insert => Matches(s.target, h.ev) && k !in s.times.index
    case Relookup => Matches(s.target, h.ev) && k in s.times.index
    case Add(c) => Matches(s.target, h.ev) && k in s.times.index && s.times.index[k] == c
    case Counted => Matches(s.target, h.ev) && k in s.times.index
    case Dropped => false
  }

  ghost predicate CounterIs(s: System, k: Key)
    requires s.times.Valid() && k in s.times.index
  {
    s.times.cells[s.times.index[k]] == RunTime(s.target, s.handlers, k.cpu) % TWO_TO_64
  }

  ghost predicate MapInv(u: Setup, s: System)
  {
    && s.times.Valid()
    && (forall k :: k in s.times.index ==> k.tgid == s.target && k.cpu < u.cpus)
    && (forall k :: k in s.times.index ==> CounterIs(s, k))
  }

  ghost predicate Inv(u: Setup, s: System)
  {
    && MapInv(u, s)
    && (!s.loader.Loaded? ==> s.target == u.tgid)
    && (!s.loader.Attached? ==> s.handlers == [] && s.times.index == map[])
    && (forall i :: 0 <= i < |s.handlers| ==> s.handlers[i].ev.cpu < u.cpus)
    && (forall i :: 0 <= i < |s.handlers| ==> HandlerInv(s, s.handlers[i]))
    && (forall i, j :: 0 <= i < j < |s.handlers| && s.handlers[i].ev.cpu == s.handlers[j].ev.cpu ==>
          s.handlers[i].Finished() || s.handlers[j].Finished())
  }

  ghost predicate Reliable(u: Setup) { u.serialised && u.cpus <= MAX_ENTRIES }

  // One key per CPU: the map holds at most as many entries as there are CPUs.
  lemma {:induction false} KeysAtMostCpus(keys: set<Key>, target: u32, cpus: nat)
    requires forall k :: k in keys ==> k.tgid == target && k.cpu < cpus
    ensures |keys| <= cpus
  {
    if cpus > 0 {
      if exists k :: k in keys && k.cpu == cpus - 1 {
        var k :| k in keys && k.cpu == cpus - 1;
        KeysAtMostCpus(keys - {k}, target, cpus - 1);
      } else {
        KeysAtMostCpus(keys, target, cpus - 1);
      }
    } else {
      assert keys == {} by {
        if k :| k in keys { assert false; }
      }
    }
  }

  lemma {:induction false} AbsentNone(u: Setup, s: System, cpu: u32)
    requires Inv(u, s) && Key(s.target, cpu) !in s.times.index
    ensures RunTime(s.target, s.handlers, cpu) == 0
  {
    forall i | 0 <= i < |s.handlers| ensures Share(s.target, s.handlers[i], cpu) == 0 {
      assert HandlerInv(s, s.handlers[i]);
    }
    RunTimeNone(s.target, s.handlers, cpu);
  }

  // An insert finds its key absent and the map not full, so BPF_ANY creates the
  // entry and replaces nothing.
  lemma {:induction false} InsertCreates(u: Setup, s: System, i: nat)
    requires Reliable(u) && Inv(u, s) && i < |s.handlers| && s.handlers[i].pc.Insert?
    ensures var k := Key(s.target, s.handlers[i].ev.cpu);
      && k !in s.times.index
      && s.times.UpdateAny(k, 0, MAX_ENTRIES) == BpfMap(s.times.index[k := |s.times.cells|], s.times.cells + [0])
  {
    var k := Key(s.target, s.handlers[i].ev.cpu);
    assert HandlerInv(s, s.handlers[i]);
    KeysAtMostCpus(s.times.index.Keys + {k}, s.target, u.cpus);
  }

  lemma {:induction false} InsertCounter(u: Setup, s: System, i: nat, k: Key)
    requires Reliable(u) && Inv(u, s) && i < |s.handlers| && s.handlers[i].pc.Insert?
    requires Step(s, i).times.Valid() && k in Step(s, i).times.index
    ensures CounterIs(Step(s, i), k)
  {
    var s' := Step(s, i);
    InsertCreates(u, s, i);
    assert RunTime(s.target, s'.handlers, k.cpu) == RunTime(s.target, s.handlers, k.cpu) by {
      RunTimeUpdate(s.target, s.handlers, i, s'.handlers[i], k.cpu);
    }
    if k in s.times.index {
      assert CounterIs(s, k);
      assert s'.times.cells[s'.times.index[k]] == s.times.cells[s.times.index[k]];
    } else {
      AbsentNone(u, s, k.cpu);
    }
  }

  lemma {:induction false} InsertInv(u: Setup, s: System, i: nat)
    requires Reliable(u) && Inv(u, s) && i < |s.handlers| && s.handlers[i].pc.Insert?
    ensures Inv(u, Step(s, i))
  {
    var s' := Step(s, i);
    InsertCreates(u, s, i);
    assert s'.times.Valid();
    forall k | k in s'.times.index ensures CounterIs(s', k) {
      InsertCounter(u, s, i, k);
    }
    forall j | 0 <= j < |s'.handlers| ensures HandlerInv(s', s'.handlers[j]) {
      assert HandlerInv(s, s.handlers[j]);
    }
  }

  lemma {:induction false} AddCounter(u: Setup, s: System, i: nat, k: Key)
    requires Inv(u, s) && i < |s.handlers| && s.handlers[i].pc.Add?
    requires Step(s, i).times.Valid() && k in Step(s, i).times.index
    ensures CounterIs(Step(s, i), k)
  {
    var s' := Step(s, i);
    assert HandlerInv(s, s.handlers[i]);
    assert CounterIs(s, k);
    RunTimeUpdate(s.target, s.handlers, i, s'.handlers[i], k.cpu);
    if k.cpu == s.handlers[i].ev.cpu {
      AddResidue(RunTime(s.target, s.handlers, k.cpu), s.handlers[i].ev.runtime);
    } else {
      assert RunTime(s.target, s'.handlers, k.cpu) == RunTime(s.target, s.handlers, k.cpu);
      assert s'.times.cells[s'.times.index[k]] == s.times.cells[s.times.index[k]];
    }
  }

  lemma {:induction false} AddInv(u: Setup, s: System, i: nat)
    requires Inv(u, s) && i < |s.handlers| && s.handlers[i].pc.Add?
    ensures Inv(u, Step(s, i))
  {
    var s' := Step(s, i);
    assert HandlerInv(s, s.handlers[i]);
    assert s'.times.Valid();
    forall k | k in s'.times.index ensures CounterIs(s', k) {
      AddCounter(u, s, i, k);
    }
    forall j | 0 <= j < |s'.handlers| ensures HandlerInv(s', s'.handlers[j]) {
      assert HandlerInv(s, s.handlers[j]);
    }
  }

  lemma {:induction false} LookupRunTime(u: Setup, s: System, i: nat, cpu: u32)
    requires Inv(u, s) && i < |s.handlers| && !s.handlers[i].pc.Insert? && !s.handlers[i].pc.Add?
    ensures RunTime(s.target, Step(s, i).handlers, cpu) == RunTime(s.target, s.handlers, cpu)
  {
    assert HandlerInv(s, s.handlers[i]);
    RunTimeUpdate(s.target, s.handlers, i, Step(s, i).handlers[i], cpu);
  }

  // The steps that only look up, and those of finished handlers.
  lemma {:induction false} LookupInv(u: Setup, s: System, i: nat)
    requires Inv(u, s) && i < |s.handlers| && !s.handlers[i].pc.Insert? && !s.handlers[i].pc.Add?
    ensures Inv(u, Step(s, i))
  {
    hide Share, RunTime;
    var s' := Step(s, i);
    assert HandlerInv(s, s.handlers[i]);
    forall k | k in s'.times.index ensures CounterIs(s', k) {
      assert CounterIs(s, k);
      LookupRunTime(u, s, i, k.cpu);
    }
    forall j | 0 <= j < |s'.handlers| ensures HandlerInv(s', s'.handlers[j]) {
      assert HandlerInv(s, s.handlers[j]);
    }
  }

  lemma {:induction false} StepInv(u: Setup, s: System, i: nat)
    requires Reliable(u) && Inv(u, s) && i < |s.handlers|
    ensures Inv(u, Step(s, i)) && Extends(s, Step(s, i))
  {
    match s.handlers[i].pc
    case Insert =>
      InsertInv(u, s, i);
      InsertCreates(u, s, i);
    case Add(_) => AddInv(u, s, i);
    case _ => LookupInv(u, s, i);
  }

  lemma {:induction false} FireInv(u: Setup, s: System, e: Event)
    requires Reliable(u) && Inv(u, s)
    ensures Inv(u, Act(u, s, Fire(e))) && Extends(s, Act(u, s, Fire(e)))
  {
    var s' := Act(u, s, Fire(e));
    if s' != s {
      forall k | k in s'.times.index ensures CounterIs(s', k) {
        assert CounterIs(s, k);
        RunTimeFire(s.target, s.handlers, e, k.cpu);
      }
      forall j | 0 <= j < |s'.handlers| ensures HandlerInv(s', s'.handlers[j]) {
        if j < |s.handlers| { assert HandlerInv(s, s.handlers[j]); }
      }
    }
  }

  // Time moves on: handlers only progress, entries stay where they are, and the
  // target does not change once handlers exist.
  ghost predicate Extends(s: System, s': System)
  {
    && Later(s.handlers, s'.handlers)
    && s.times.index.Keys <= s'.times.index.Keys
    && (s.loader.Attached? ==> s'.loader.Attached? && s'.target == s.target)
  }

  lemma {:induction false} ActInv(u: Setup, s: System, a: Action)
    requires Reliable(u) && Inv(u, s)
    ensures Inv(u, Act(u, s, a)) && Extends(s, Act(u, s, a))
  {
    match a
    case Fire(e) => FireInv(u, s, e);
    case Run(i) => if i < |s.handlers| { StepInv(u, s, i); }
    case LoaderStep => LoaderInv(u, s);
    case _ => OnlyScanChanges(u, s, a);
  }

  lemma {:induction false} LoaderInv(u: Setup, s: System)
    requires Inv(u, s)
    ensures Inv(u, Act(u, s, LoaderStep)) && Extends(s, Act(u, s, LoaderStep))
  {
  }

  lemma {:induction false} OnlyScanChanges(u: Setup, s: System, a: Action)
    requires Inv(u, s) && !a.Fire? && !a.Run? && !a.LoaderStep?
    ensures Inv(u, Act(u, s, a)) && Extends(s, Act(u, s, a))
  {
    var s' := Act(u, s, a);
    assert s' == s.(scan := s'.scan, readings := s'.readings);
    forall k | k in s'.times.index ensures CounterIs(s', k) {
      assert CounterIs(s, k);
    }
    forall j | 0 <= j < |s'.handlers| ensures HandlerInv(s', s'.handlers[j]) {
      assert HandlerInv(s, s.handlers[j]);
    }
  }

  // ---------- scans and readings ----------

  ghost predicate NoOverflow(s: System)
  {
    forall cpu :: RunTime(s.target, s.handlers, cpu) < TWO_TO_64
  }

  ghost predicate EntryInv(s: System, scan: Scan<Key, u64, seq<Handler>>, e: Entry<Key, u64, seq<Handler>>)
  {
    && e.key.tgid == s.target
    && Later(scan.begin, e.at) && Later(e.at, s.handlers)
    && e.value == RunTime(s.target, e.at, e.key.cpu)
  }

  ghost predicate ScanInv(s: System, scan: Scan<Key, u64, seq<Handler>>)
  {
    && s.loader.Attached?
    && Later(scan.begin, s.handlers)
    && (forall cpu :: Key(s.target, cpu) !in scan.must ==> RunTime(s.target, scan.begin, cpu) == 0)
    && (forall i :: 0 <= i < |scan.entries| ==> EntryInv(s, scan, scan.entries[i]))
    && (forall i, j :: 0 <= i < j < |scan.entries| ==> scan.entries[i].key != scan.entries[j].key)
  }

  function At(m: map<u32, u64>, cpu: u32): u64 { if cpu in m then m[cpu] else 0 }

  ghost predicate Between(s: System, r: Reading, cpu: u32)
  {
    RunTime(s.target, r.begin, cpu) <= At(r.values, cpu) <= RunTime(s.target, r.end, cpu)
  }

  ghost predicate ReadingInv(s: System, r: Reading)
  {
    && s.loader.Attached?
    && Later(r.begin, r.end) && Later(r.end, s.handlers)
    && forall cpu :: Between(s, r, cpu)
  }

  ghost predicate ReadsInv(s: System)
  {
    && (forall i :: 0 <= i < |s.readings| ==> ReadingInv(s, s.readings[i]))
    && (forall i, j :: 0 <= i < j < |s.readings| ==> Later(s.readings[i].end, s.readings[j].begin))
    && (s.scan.Some? ==>
          && ScanInv(s, s.scan.value)
          && forall i :: 0 <= i < |s.readings| ==> Later(s.readings[i].end, s.scan.value.begin))
  }

  lemma {:induction false} ReadsKept(s: System, s': System)
    requires Extends(s, s') && ReadsInv(s) && s'.scan == s.scan && s'.readings == s.readings
    ensures ReadsInv(s')
  {
    forall i | 0 <= i < |s'.readings| ensures ReadingInv(s', s'.readings[i]) {
      assert ReadingInv(s, s.readings[i]);
      forall cpu ensures Between(s', s'.readings[i], cpu) { assert Between(s, s.readings[i], cpu); }
    }
    if s'.scan.Some? {
      var scan := s.scan.value;
      forall i | 0 <= i < |scan.entries| ensures EntryInv(s', scan, scan.entries[i]) {
        assert EntryInv(s, scan, scan.entries[i]);
      }
    }
  }

  lemma {:induction false} VisitKept(u: Setup, s: System, k: Key)
    requires Inv(u, s) && NoOverflow(s) && ReadsInv(s)
    ensures ReadsInv(Act(u, s, Visit(k)))
  {
    var s' := Act(u, s, Visit(k));
    if s' != s {
      var scan, scan' := s.scan.value, s'.scan.value;
      assert CounterIs(s, k);
      forall i | 0 <= i < |scan'.entries| ensures EntryInv(s', scan', scan'.entries[i]) {
        if i < |scan.entries| { assert EntryInv(s, scan, scan.entries[i]); }
      }
      forall i | 0 <= i < |s'.readings| ensures ReadingInv(s', s'.readings[i]) {
        assert ReadingInv(s, s.readings[i]);
        forall cpu ensures Between(s', s'.readings[i], cpu) { assert Between(s, s.readings[i], cpu); }
      }
    }
  }

  lemma {:induction false} CompleteScan(s: System, scan: Scan<Key, u64, seq<Handler>>)
    requires ScanInv(s, scan) && scan.Complete()
    ensures ReadingInv(s, Reading(scan.begin, s.handlers, ByCpu(s.target, scan.entries)))
  {
    var r := Reading(scan.begin, s.handlers, ByCpu(s.target, scan.entries));
    forall cpu ensures Between(s, r, cpu) {
      ByCpuLookup(s.target, scan.entries, cpu);
      if i :| 0 <= i < |scan.entries| && scan.entries[i].key == Key(s.target, cpu) {
        var e := scan.entries[i];
        assert EntryInv(s, scan, e);
        RunTimeGrows(s.target, scan.begin, e.at, cpu);
        RunTimeGrows(s.target, e.at, s.handlers, cpu);
      } else {
        assert Key(s.target, cpu) !in scan.must;
      }
    }
  }

  lemma {:induction false} EndKept(u: Setup, s: System)
    requires Inv(u, s) && ReadsInv(s)
    ensures ReadsInv(Act(u, s, EndRead))
  {
    var s' := Act(u, s, EndRead);
    if s' != s {
      CompleteScan(s, s.scan.value);
      forall i | 0 <= i < |s'.readings| ensures ReadingInv(s', s'.readings[i]) {
        var r := s'.readings[i];
        assert ReadingInv(s, r);
        forall cpu ensures Between(s', r, cpu) { assert Between(s, r, cpu); }
      }
    }
  }

  lemma {:induction false} BeginKept(u: Setup, s: System)
    requires Inv(u, s) && ReadsInv(s)
    ensures ReadsInv(Act(u, s, BeginRead))
  {
    var s' := Act(u, s, BeginRead);
    if s' != s {
      forall cpu | Key(s.target, cpu) !in s.times.index ensures RunTime(s.target, s.handlers, cpu) == 0 {
        AbsentNone(u, s, cpu);
      }
      assert ScanInv(s', s'.scan.value);
      forall i | 0 <= i < |s'.readings| ensures ReadingInv(s', s'.readings[i]) {
        assert ReadingInv(s, s.readings[i]);
        forall cpu ensures Between(s', s'.readings[i], cpu) { assert Between(s, s.readings[i], cpu); }
      }
    }
  }

  lemma {:induction false} ErrorKept(u: Setup, s: System)
    requires Inv(u, s) && ReadsInv(s)
    ensures ReadsInv(Act(u, s, ReadError))
  {
    var s' := Act(u, s, ReadError);
    forall i | 0 <= i < |s'.readings| ensures ReadingInv(s', s'.readings[i]) {
      assert ReadingInv(s, s.readings[i]);
      forall cpu ensures Between(s', s'.readings[i], cpu) { assert Between(s, s.readings[i], cpu); }
    }
  }

  lemma {:induction false} ActionKeepsReads(u: Setup, s: System, a: Action)
    requires Reliable(u) && Inv(u, s) && NoOverflow(s) && ReadsInv(s)
    ensures ReadsInv(Act(u, s, a))
  {
    ActInv(u, s, a);
    match a
    case Visit(k) => VisitKept(u, s, k);
    case EndRead => EndKept(u, s);
    case BeginRead => BeginKept(u, s);
    case ReadError => ErrorKept(u, s);
    case _ => ReadsKept(s, Act(u, s, a));
  }

  // ---------- whole runs ----------

  lemma {:induction false} ExecInv(u: Setup, run: seq<Action>)
    requires Reliable(u)
    ensures Inv(u, Exec(u, run))
  {
    if run != [] {
      ExecInv(u, run[..|run| - 1]);
      ActInv(u, Exec(u, run[..|run| - 1]), run[|run| - 1]);
    }
  }

  // Under every interleaving, no event is lost: every finished handler counted its
  // event, unless it was of the idle task or of another group than the target;
  // each counter is the total runtime of the completed events it should hold, and
  // only keys of the target exist.
  lemma {:induction false} NothingLost(u: Setup, run: seq<Action>)
    requires Reliable(u)
    ensures var s := Exec(u, run);
      && s.times.Valid()
      && (forall k :: k in s.times.index ==>
            && k.tgid == u.tgid && k.cpu < u.cpus
            && s.times.cells[s.times.index[k]] == RunTime(u.tgid, s.handlers, k.cpu) % TWO_TO_64)
      && (forall cpu :: Key(u.tgid, cpu) !in s.times.index ==> RunTime(u.tgid, s.handlers, cpu) == 0)
      && (forall i :: 0 <= i < |s.handlers| && s.handlers[i].Finished() ==>
            s.handlers[i].pc == (if s.handlers[i].ev.pid != 0 && (u.tgid == 0 || s.handlers[i].ev.tgid == u.tgid)
                                 then Counted else Ignored))
  {
    ExecInv(u, run);
    var s := Exec(u, run);
    forall k | k in s.times.index ensures s.times.cells[s.times.index[k]] == RunTime(u.tgid, s.handlers, k.cpu) % TWO_TO_64 {
      assert CounterIs(s, k);
    }
    forall cpu | Key(u.tgid, cpu) !in s.times.index ensures RunTime(u.tgid, s.handlers, cpu) == 0 {
      if !s.loader.Loaded? { AbsentNone(u, s, cpu); }
    }
    forall i | 0 <= i < |s.handlers| && s.handlers[i].Finished()
      ensures s.handlers[i].pc == (if s.handlers[i].ev.pid != 0 && (u.tgid == 0 || s.handlers[i].ev.tgid == u.tgid)
                                   then Counted else Ignored)
    {
      assert HandlerInv(s, s.handlers[i]);
    }
  }

  lemma {:induction false} NoOverflowEarlier(u: Setup, s: System, s': System)
    requires Inv(u, s) && Extends(s, s') && NoOverflow(s')
    ensures NoOverflow(s)
  {
    forall cpu ensures RunTime(s.target, s.handlers, cpu) < TWO_TO_64 {
      if s.loader.Attached? {
        RunTimeGrows(s.target, s.handlers, s'.handlers, cpu);
      }
    }
  }

  lemma {:induction false} ExecReadsInv(u: Setup, run: seq<Action>)
    requires Reliable(u) && NoOverflow(Exec(u, run))
    ensures ReadsInv(Exec(u, run))
  {
    if run != [] {
      var prefix := run[..|run| - 1];
      ExecInv(u, prefix);
      ActInv(u, Exec(u, prefix), run[|run| - 1]);
      NoOverflowEarlier(u, Exec(u, prefix), Exec(u, run));
      ExecReadsInv(u, prefix);
      ActionKeepsReads(u, Exec(u, prefix), run[|run| - 1]);
    }
  }

  // The counters of s2 are at least those of s1, a missing one being 0.
  ghost predicate Grows(s1: map<u32, u64>, s2: map<u32, u64>)
  {
    forall cpu :: At(s1, cpu) <= At(s2, cpu)
  }

  // Every successful Read returns, per CPU, a total the kernel really had between
  // the begin and the end of its scan, and successive Reads never decrease.
  lemma {:induction false} ReadsAreTotals(u: Setup, run: seq<Action>)
    requires Reliable(u) && NoOverflow(Exec(u, run))
    ensures var s := Exec(u, run);
      && (forall i, cpu :: 0 <= i < |s.readings| ==> Between(s, s.readings[i], cpu))
      && (forall i, j :: 0 <= i < j < |s.readings| ==> Grows(s.readings[i].values, s.readings[j].values))
  {
    ExecReadsInv(u, run);
    var s := Exec(u, run);
    forall i, j | 0 <= i < j < |s.readings| ensures Grows(s.readings[i].values, s.readings[j].values) {
      assert ReadingInv(s, s.readings[i]) && ReadingInv(s, s.readings[j]);
      forall cpu ensures At(s.readings[i].values, cpu) <= At(s.readings[j].values, cpu) {
        assert Between(s, s.readings[i], cpu) && Between(s, s.readings[j], cpu);
        RunTimeGrows(s.target, s.readings[i].end, s.readings[j].begin, cpu);
      }
    }
  }

  // ---------- exactly when nothing is lost ----------

  // Every finished matching event has been counted, and the counters hold all of
  // them.
  ghost predicate Lossless(s: System)
  {
    && s.times.Valid()
    && (forall i :: 0 <= i < |s.handlers| && s.handlers[i].Finished() ==>
          s.handlers[i].ev.pid != 0 && (s.target == 0 || s.handlers[i].ev.tgid == s.target) ==> s.handlers[i].pc.Counted?)
    && (forall k :: k in s.times.index ==> CounterIs(s, k))
  }

  lemma {:induction false} ExecStep(u: Setup, run: seq<Action>, a: Action)
    ensures Exec(u, run + [a]) == Act(u, Exec(u, run), a)
  {
    assert (run + [a])[..|run|] == run;
  }

  lemma {:induction false} AttachRun(u: Setup) returns (run: seq<Action>)
    ensures Exec(u, run) == Boot().(target := u.tgid, loader := Attached)
  {
    ExecStep(u, [], LoaderStep);
    ExecStep(u, [] + [LoaderStep], LoaderStep);
    run := [] + [LoaderStep] + [LoaderStep];
  }

  // An event of the target on a CPU that is free to handle it, up to the point
  // where its handler has missed the lookup.
  lemma {:induction false} FireAndMiss(u: Setup, run: seq<Action>, e: Event) returns (run': seq<Action>)
    requires Exec(u, run).loader.Attached? && e.cpu < u.cpus && Matches(Exec(u, run).target, e)
    requires !(u.serialised && Busy(Exec(u, run).handlers, e.cpu))
    requires Key(Exec(u, run).target, e.cpu) !in Exec(u, run).times.index
    ensures var s := Exec(u, run); Exec(u, run') == s.(handlers := s.handlers + [Handler(e, Insert)])
  {
    var s := Exec(u, run);
    ExecStep(u, run, Fire(e));
    ExecStep(u, run + [Fire(e)], Run(|s.handlers|));
    run' := run + [Fire(e)] + [Run(|s.handlers|)];
    assert (s.handlers + [Handler(e, Enter)])[|s.handlers| := Handler(e, Insert)] == s.handlers + [Handler(e, Insert)];
  }

  // Handler i inserts, looks up again and adds.
  lemma {:induction false} InsertAndAdd(u: Setup, run: seq<Action>, i: nat) returns (run': seq<Action>)
    requires i < |Exec(u, run).handlers| && Exec(u, run).handlers[i].pc.Insert?
    requires |Exec(u, run).times.index| < MAX_ENTRIES
    ensures var s := Exec(u, run);
            var c, ev := |s.times.cells|, s.handlers[i].ev;
            Exec(u, run') == s.(
              times := BpfMap(s.times.index[Key(s.target, ev.cpu) := c], s.times.cells + [ev.runtime]),
              handlers := s.handlers[i := Handler(ev, Counted)])
  {
    var s := Exec(u, run);
    ExecStep(u, run, Run(i));
    ExecStep(u, run + [Run(i)], Run(i));
    ExecStep(u, run + [Run(i)] + [Run(i)], Run(i));
    run' := run + [Run(i)] + [Run(i)] + [Run(i)];
    assert (s.times.cells + [0])[|s.times.cells| := s.handlers[i].ev.runtime] == s.times.cells + [s.handlers[i].ev.runtime];
    assert Exec(u, run').handlers == s.handlers[i := Handler(s.handlers[i].ev, Counted)];
  }

  lemma {:induction false} TwoCounted(target: u32, a: Event, b: Event)
    requires Matches(target, a) && Matches(target, b) && a.cpu == b.cpu
    ensures RunTime(target, [Handler(a, Counted), Handler(b, Counted)], a.cpu) == a.runtime + b.runtime
  {
    var hs := [Handler(a, Counted), Handler(b, Counted)];
    assert hs[..1] == [Handler(a, Counted)];
    assert RunTime(target, hs[..1], a.cpu) == a.runtime by { assert hs[..1][..0] == []; }
  }

  // Without serialisation BPF_ANY loses time: two handlers on one CPU both miss
  // the lookup, and the second insert replaces the entry the first one has
  // already added to.  Both end as Counted, yet the counter holds only one event.
  lemma {:induction false} OverlapLoses(u: Setup) returns (run: seq<Action>)
    requires !u.serialised && u.cpus > 0
    ensures var s := Exec(u, run);
      && |s.handlers| == 2 && s.handlers[0].pc.Counted? && s.handlers[1].pc.Counted?
      && RunTime(s.target, s.handlers, 0) == 5 + 7
      && s.times == BpfMap(map[Key(s.target, 0) := 1], [5, 7])
  {
    var first, second := Event(0, 1, u.tgid, 5), Event(0, 2, u.tgid, 7);
    run := AttachRun(u);
    run := FireAndMiss(u, run, first);
    run := FireAndMiss(u, run, second);
    assert Exec(u, run).handlers == [Handler(first, Insert), Handler(second, Insert)];
    run := InsertAndAdd(u, run, 0);
    run := InsertAndAdd(u, run, 1);
    var s := Exec(u, run);
    assert s.handlers == [Handler(first, Counted), Handler(second, Counted)];
    TwoCounted(u.tgid, first, second);
    assert s.times == BpfMap(map[Key(s.target, 0) := 1], [5, 7]);
  }

  // One event on each of the first n CPUs, all counted.
  ghost predicate Filled(u: Setup, s: System, n: nat)
  {
    && s.loader.Attached? && s.target == u.tgid
    && |s.times.index| == n && (forall k :: k in s.times.index ==> k.cpu < n)
    && forall i :: 0 <= i < |s.handlers| ==> s.handlers[i].Finished()
  }

  lemma {:induction false} FillRun(u: Setup, n: nat) returns (run: seq<Action>)
    requires n <= MAX_ENTRIES && n <= u.cpus
    ensures Filled(u, Exec(u, run), n)
  {
    if n == 0 {
      run := AttachRun(u);
    } else {
      var before := FillRun(u, n - 1);
      var e := Event(n - 1, 1, u.tgid, 0);
      run := FireAndMiss(u, before, e);
      run := InsertAndAdd(u, run, |Exec(u, before).handlers|);
    }
  }

  // With more CPUs than entries an event on one CPU too many is dropped.
  lemma {:induction false} FullMapDrops(u: Setup) returns (run: seq<Action>)
    requires u.cpus > MAX_ENTRIES
    ensures var s := Exec(u, run);
      && |s.handlers| > 0
      && s.handlers[|s.handlers| - 1].pc.Dropped? && Matches(s.target, s.handlers[|s.handlers| - 1].ev)
  {
    var filled := FillRun(u, MAX_ENTRIES);
    var i := |Exec(u, filled).handlers|;
    run := FireAndMiss(u, filled, Event(MAX_ENTRIES, 1, u.tgid, 1));
    ExecStep(u, run, Run(i));
    ExecStep(u, run + [Run(i)], Run(i));
    run := run + [Run(i)] + [Run(i)];
  }

  lemma {:induction false} NoCpusNoEvents(u: Setup, run: seq<Action>)
    requires u.cpus == 0
    ensures Exec(u, run).handlers == [] && Exec(u, run).times == Empty()
  {
    if run != [] { NoCpusNoEvents(u, run[..|run| - 1]); }
  }

  lemma {:induction false} ReliableIsLossless(u: Setup, run: seq<Action>)
    requires u.cpus == 0 || Reliable(u)
    ensures Lossless(Exec(u, run))
  {
    if u.cpus == 0 {
      NoCpusNoEvents(u, run);
    } else {
      ExecInv(u, run);
      var s := Exec(u, run);
      forall i | 0 <= i < |s.handlers| && s.handlers[i].Finished()
        ensures s.handlers[i].ev.pid != 0 && (s.target == 0 || s.handlers[i].ev.tgid == s.target) ==>
                  s.handlers[i].pc.Counted?
      {
        assert HandlerInv(s, s.handlers[i]);
      }
    }
  }

  // No run loses anything exactly if there is no CPU at all, or handlers on one
  // CPU are serialised and every CPU can have its entry.
  lemma {:induction false} LosslessExactly(u: Setup)
    ensures (forall run :: Lossless(Exec(u, run))) <==> u.cpus == 0 || Reliable(u)
  {
    if u.cpus == 0 || Reliable(u) {
      forall run ensures Lossless(Exec(u, run)) { ReliableIsLossless(u, run); }
    } else if !u.serialised {
      var run := OverlapLoses(u);
      assert !CounterIs(Exec(u, run), Key(Exec(u, run).target, 0));
      assert !Lossless(Exec(u, run));
    } else {
      var run := FullMapDrops(u);
      var s := Exec(u, run);
      assert s.handlers[|s.handlers| - 1].Finished();
      assert !Lossless(s);
    }
  }
}
