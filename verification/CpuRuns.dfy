// Runs of the CPU accounting by what was done in them: whose events fired, where
// scans began and ended, and how far a handler gets.
module CpuRuns {
  import opened Words
  import opened BpfMaps
  import opened CpuKernel

  lemma {:induction false} PrefixStep(u: Setup, run: seq<Action>, i: nat)
    requires i < |run|
    ensures Exec(u, run[..i + 1]) == Act(u, Exec(u, run[..i]), run[i])
  {
    assert run[..i + 1][..i] == run[..i];
  }

  // ---------- events of others ----------

  // As long as only the idle task and other groups than the target run, nothing is
  // accounted at all.
  lemma {:induction false} OthersLeaveNothing(u: Setup, run: seq<Action>)
    requires forall i :: 0 <= i < |run| && run[i].Fire? ==>
               run[i].ev.pid == 0 || (u.tgid != 0 && run[i].ev.tgid != u.tgid)
    ensures Exec(u, run).times == Empty()
    ensures forall i :: 0 <= i < |Exec(u, run).handlers| ==>
              Exec(u, run).handlers[i].pc.Enter? || Exec(u, run).handlers[i].pc.Ignored?
  {
    OnlyOthers(u, run);
  }

  ghost predicate OfOthers(u: Setup, s: System)
  {
    && s.times == Empty()
    && (s.loader.Loaded? ==> s.handlers == []) && (!s.loader.Loaded? ==> s.target == u.tgid)
    && (!s.loader.Attached? ==> s.handlers == [])
    && forall i :: 0 <= i < |s.handlers| ==>
         && (s.handlers[i].pc.Enter? || s.handlers[i].pc.Ignored?)
         && (s.handlers[i].ev.pid == 0 || (u.tgid != 0 && s.handlers[i].ev.tgid != u.tgid))
  }

  lemma {:induction false} OnlyOthers(u: Setup, run: seq<Action>)
    requires forall i :: 0 <= i < |run| && run[i].Fire? ==>
               run[i].ev.pid == 0 || (u.tgid != 0 && run[i].ev.tgid != u.tgid)
    ensures OfOthers(u, Exec(u, run))
  {
    if run != [] {
      OnlyOthers(u, run[..|run| - 1]);
      OthersStep(u, Exec(u, run[..|run| - 1]), run[|run| - 1]);
    }
  }

  lemma {:induction false} OthersStep(u: Setup, s: System, a: Action)
    requires OfOthers(u, s)
    requires a.Fire? ==> a.ev.pid == 0 || (u.tgid != 0 && a.ev.tgid != u.tgid)
    ensures OfOthers(u, Act(u, s, a))
  {
  }

  // ---------- scans ----------

  // From action b to action e the map is iterated: b begins the scan, e ends it,
  // and in between every key present at b is visited while events may fire and
  // handlers run.
  ghost predicate ReadAt(u: Setup, run: seq<Action>, b: nat, e: nat)
  {
    && b < e < |run| && run[b] == BeginRead && run[e] == EndRead
    && Exec(u, run[..b]).loader.Attached? && Exec(u, run[..b]).scan.None?
    && (forall i :: b < i < e ==> run[i].Fire? || run[i].Run? || run[i].Visit?)
    && forall k :: k in Exec(u, run[..b]).times.index ==> exists i :: b < i < e && run[i] == Visit(k)
  }

  type KernelScan = Scan<Key, u64, seq<Handler>>

  ghost predicate Underway(u: Setup, run: seq<Action>, b: nat, n: nat)
    requires b < n <= |run|
  {
    var s, t := Exec(u, run[..b]), Exec(u, run[..n]);
    && t.scan.Some? && t.readings == s.readings && t.target == s.target && t.loader.Attached?
    && t.scan.value.begin == s.handlers && t.scan.value.must == s.times.index.Keys
    && t.scan.value.must <= t.times.index.Keys
    && forall i :: b < i < n && run[i].Visit? && run[i].key in t.scan.value.must ==> t.scan.value.Saw(run[i].key)
  }

  lemma {:induction false} SawMore(scan: KernelScan, e: Entry<Key, u64, seq<Handler>>)
    ensures forall k :: scan.Saw(k) || e.key == k ==> scan.(entries := scan.entries + [e]).Saw(k)
  {
    var more := scan.(entries := scan.entries + [e]);
    forall k | scan.Saw(k) || e.key == k ensures more.Saw(k) {
      if scan.Saw(k) {
        var i :| 0 <= i < |scan.entries| && scan.entries[i].key == k;
        assert more.entries[i].key == k;
      } else {
        assert more.entries[|scan.entries|].key == k;
      }
    }
  }

  lemma {:induction false} VisitUnderway(u: Setup, run: seq<Action>, b: nat, n: nat)
    requires Reliable(u) && b < n < |run| && run[n].Visit? && Underway(u, run, b, n)
    ensures Underway(u, run, b, n + 1)
  {
    hide Exec;
    var t := Exec(u, run[..n]);
    ExecInv(u, run[..n]);
    PrefixStep(u, run, n);
    var k := run[n].key;
    if !t.scan.value.Saw(k) && k in t.times.index {
      SawMore(t.scan.value, Entry(k, t.times.cells[t.times.index[k]], t.handlers));
    }
  }

  lemma {:induction false} KernelUnderway(u: Setup, run: seq<Action>, b: nat, n: nat)
    requires Reliable(u) && b < n < |run| && (run[n].Fire? || run[n].Run?) && Underway(u, run, b, n)
    ensures Underway(u, run, b, n + 1)
  {
    hide Exec, Inv;
    ExecInv(u, run[..n]);
    PrefixStep(u, run, n);
    ActInv(u, Exec(u, run[..n]), run[n]);
    ScanUntouched(u, Exec(u, run[..n]), run[n]);
  }

  lemma {:induction false} ScanUntouched(u: Setup, s: System, a: Action)
    requires a.Fire? || a.Run?
    ensures Act(u, s, a).scan == s.scan && Act(u, s, a).readings == s.readings
  {
  }

  lemma {:induction false} ScanUnderway(u: Setup, run: seq<Action>, b: nat, n: nat)
    requires Reliable(u) && b < n <= |run| && run[b] == BeginRead
    requires Exec(u, run[..b]).loader.Attached? && Exec(u, run[..b]).scan.None?
    requires forall i :: b < i < n ==> run[i].Fire? || run[i].Run? || run[i].Visit?
    ensures Underway(u, run, b, n)
    decreases n
  {
    hide Exec, Underway;
    if n == b + 1 {
      ScanBegins(u, run, b);
    } else {
      ScanUnderway(u, run, b, n - 1);
      if run[n - 1].Visit? { VisitUnderway(u, run, b, n - 1); } else { KernelUnderway(u, run, b, n - 1); }
    }
  }

  lemma {:induction false} ScanBegins(u: Setup, run: seq<Action>, b: nat)
    requires b < |run| && run[b] == BeginRead
    requires Exec(u, run[..b]).loader.Attached? && Exec(u, run[..b]).scan.None?
    ensures Underway(u, run, b, b + 1)
  {
    hide Exec;
    PrefixStep(u, run, b);
  }

  // Every scan that visits the keys it found becomes one more reading: per CPU a
  // value between the runtime accounted when it began and when it ended.
  lemma {:induction false} ScanIsReading(u: Setup, run: seq<Action>, b: nat, e: nat)
    requires Reliable(u) && ReadAt(u, run, b, e) && NoOverflow(Exec(u, run[..e + 1]))
    ensures var s, t, f := Exec(u, run[..b]), Exec(u, run[..e]), Exec(u, run[..e + 1]);
      && f.scan.None? && |f.readings| == |s.readings| + 1 && f.readings[..|s.readings|] == s.readings
      && f.readings[|s.readings|].begin == s.handlers && f.readings[|s.readings|].end == t.handlers
      && forall cpu :: RunTime(u.tgid, s.handlers, cpu) <= At(f.readings[|s.readings|].values, cpu) <= RunTime(u.tgid, t.handlers, cpu)
  {
    hide Exec, NoOverflow, RunTime, ByCpu;
    ScanUnderway(u, run, b, e);
    var t, f := Exec(u, run[..e]), Exec(u, run[..e + 1]);
    forall k | k in t.scan.value.must ensures t.scan.value.Saw(k) {
      var i :| b < i < e && run[i] == Visit(k);
      assert run[i].Visit? && run[i].key in t.scan.value.must;
    }
    PrefixStep(u, run, e);
    ReadsAreTotals(u, run[..e + 1]);
    ExecInv(u, run[..e + 1]);
    var n := |f.readings| - 1;
    forall cpu
      ensures RunTime(u.tgid, f.readings[n].begin, cpu) <= At(f.readings[n].values, cpu) <= RunTime(u.tgid, f.readings[n].end, cpu)
    {
      assert Between(f, f.readings[n], cpu);
    }
  }

  // ---------- progress ----------

  // Handler i takes its next n steps.
  function Alone(s: System, i: nat, n: nat): System
    requires i < |s.handlers|
    ensures |Alone(s, i, n).handlers| == |s.handlers|
  {
    if n == 0 then s else Step(Alone(s, i, n - 1), i)
  }

  function Remaining(pc: Pc): nat
  {
    match pc
    case Enter => 4
    case Insert => 3
    case Relookup => 2
    case Add(_) => 1
    case _ => 0
  }

  lemma {:induction false} StepAdvances(u: Setup, s: System, i: nat)
    requires Reliable(u) && Inv(u, s) && i < |s.handlers|
    ensures Inv(u, Step(s, i)) && |Step(s, i).handlers| == |s.handlers|
    ensures Step(s, i).handlers[i].ev == s.handlers[i].ev
    ensures Remaining(Step(s, i).handlers[i].pc) < Remaining(s.handlers[i].pc)
            || (Remaining(s.handlers[i].pc) == 0 && Step(s, i) == s)
  {
    StepInv(u, s, i);
    assert HandlerInv(s, s.handlers[i]);
  }

  lemma {:induction false} AloneAdvances(u: Setup, s: System, i: nat, n: nat)
    requires Reliable(u) && Inv(u, s) && i < |s.handlers|
    ensures Inv(u, Alone(s, i, n))
    ensures Remaining(Alone(s, i, n).handlers[i].pc) + n <= 4 || Remaining(Alone(s, i, n).handlers[i].pc) == 0
  {
    hide Step, Inv;
    if n > 0 {
      AloneAdvances(u, s, i, n - 1);
      StepAdvances(u, Alone(s, i, n - 1), i);
    }
  }

  // Whatever the other handlers are at, four steps of its own finish a handler.
  lemma {:induction false} FourStepsFinish(u: Setup, s: System, i: nat)
    requires Reliable(u) && Inv(u, s) && i < |s.handlers|
    ensures Alone(s, i, 4).handlers[i].Finished()
  {
    hide Step, Inv, Alone;
    AloneAdvances(u, s, i, 4);
  }

  // The counter under a key, 0 if there is none.
  function ValueAt(s: System, k: Key): u64
  {
    if k in s.times.index && s.times.index[k] < |s.times.cells| then s.times.cells[s.times.index[k]] else 0
  }

  lemma {:induction false} FinishedStep(s: System, i: nat)
    requires i < |s.handlers| && s.handlers[i].Finished()
    ensures Step(s, i) == s
  {
  }

  lemma {:induction false} FinishedRests(s: System, i: nat, n: nat, m: nat)
    requires i < |s.handlers| && n <= m && Alone(s, i, n).handlers[i].Finished()
    ensures Alone(s, i, m) == Alone(s, i, n)
    decreases m
  {
    hide Step;
    if n < m {
      FinishedRests(s, i, n, m - 1);
      FinishedStep(Alone(s, i, n), i);
    }
  }

  // A handler that is to add to the current entry of its key raises that entry by
  // its runtime, and no other.
  lemma {:induction false} AddRaises(s: System, i: nat, k: Key)
    requires s.times.Valid() && i < |s.handlers|
    requires var own := Key(s.target, s.handlers[i].ev.cpu);
      own in s.times.index && s.handlers[i].pc == Add(s.times.index[own])
    ensures var own := Key(s.target, s.handlers[i].ev.cpu);
      && Step(s, i).times.index == s.times.index && Step(s, i).handlers[i].pc.Counted?
      && ValueAt(Step(s, i), own) == (ValueAt(s, own) + s.handlers[i].ev.runtime) % TWO_TO_64
      && (k != own ==> ValueAt(Step(s, i), k) == ValueAt(s, k))
  {
  }

  // What handler i, on its own, makes of the counters.
  ghost predicate Raises(s: System, f: System, i: nat, k: Key)
    requires i < |s.handlers| == |f.handlers|
  {
    var own := Key(s.target, s.handlers[i].ev.cpu);
    && own in f.times.index && f.handlers[i].pc.Counted?
    && ValueAt(f, own) == (ValueAt(s, own) + s.handlers[i].ev.runtime) % TWO_TO_64
    && (k != own ==> ValueAt(f, k) == ValueAt(s, k))
  }

  lemma {:induction false} PresentRaises(u: Setup, s: System, i: nat, k: Key)
    requires Reliable(u) && Inv(u, s) && i < |s.handlers| && s.handlers[i].pc.Enter?
    requires Matches(s.target, s.handlers[i].ev) && Key(s.target, s.handlers[i].ev.cpu) in s.times.index
    ensures Raises(s, Alone(s, i, 4), i, k)
  {
    hide CounterIs, HandlerInv;
    var s1 := Step(s, i);
    assert s1 == Alone(s, i, 1) && s1.times == s.times;
    AddRaises(s1, i, k);
    assert Alone(s, i, 2) == Step(s1, i);
    FinishedRests(s, i, 2, 4);
  }

  lemma {:induction false} FourSteps(s: System, i: nat)
    requires i < |s.handlers|
    ensures var s1 := Step(s, i);
      && |s1.handlers| == |s.handlers| && |Step(s1, i).handlers| == |s.handlers|
      && |Step(Step(s1, i), i).handlers| == |s.handlers|
      && Alone(s, i, 4) == Step(Step(Step(s1, i), i), i)
  {
    assert Alone(s, i, 1) == Step(s, i);
    assert Alone(s, i, 2) == Step(Alone(s, i, 1), i);
    assert Alone(s, i, 3) == Step(Alone(s, i, 2), i);
    assert Alone(s, i, 4) == Step(Alone(s, i, 3), i);
  }

  lemma {:induction false} EnterMisses(s: System, i: nat)
    requires i < |s.handlers| && s.handlers[i].pc.Enter? && Matches(s.target, s.handlers[i].ev)
    requires Key(s.target, s.handlers[i].ev.cpu) !in s.times.index
    ensures Step(s, i).times == s.times && Step(s, i).target == s.target && |Step(s, i).handlers| == |s.handlers|
    ensures Step(s, i).handlers[i] == Handler(s.handlers[i].ev, Insert)
  {
  }

  lemma {:induction false} RelookupFinds(s: System, i: nat)
    requires i < |s.handlers| && s.handlers[i].pc.Relookup? && Key(s.target, s.handlers[i].ev.cpu) in s.times.index
    ensures Step(s, i).times == s.times && Step(s, i).target == s.target && |Step(s, i).handlers| == |s.handlers|
    ensures Step(s, i).handlers[i] == Handler(s.handlers[i].ev, Add(s.times.index[Key(s.target, s.handlers[i].ev.cpu)]))
  {
  }

  lemma {:induction false} AbsentRaises(u: Setup, s: System, i: nat, k: Key)
    requires Reliable(u) && Inv(u, s) && i < |s.handlers| && s.handlers[i].pc.Enter?
    requires Matches(s.target, s.handlers[i].ev) && Key(s.target, s.handlers[i].ev.cpu) !in s.times.index
    ensures Raises(s, Alone(s, i, 4), i, k)
  {
    hide Step, Inv, Alone;
    EnterMisses(s, i);
    StepInv(u, s, i);
    var s1 := Step(s, i);
    InsertCreates(u, s1, i);
    InsertedEmpty(s1, i, k);
    StepInv(u, s1, i);
    var s2 := Step(s1, i);
    RelookupFinds(s2, i);
    InvValid(u, s2);
    AddRaises(Step(s2, i), i, k);
    FourSteps(s, i);
  }

  lemma {:induction false} InvValid(u: Setup, s: System)
    requires Inv(u, s)
    ensures s.times.Valid()
  {
  }

  lemma {:induction false} InsertedEmpty(s: System, i: nat, k: Key)
    requires i < |s.handlers| && s.handlers[i].pc.Insert?
    requires var own := Key(s.target, s.handlers[i].ev.cpu);
      && own !in s.times.index
      && s.times.UpdateAny(own, 0, MAX_ENTRIES) == BpfMap(s.times.index[own := |s.times.cells|], s.times.cells + [0])
    ensures Key(s.target, s.handlers[i].ev.cpu) in Step(s, i).times.index
    ensures |Step(s, i).handlers| == |s.handlers| && Step(s, i).target == s.target
    ensures Step(s, i).handlers[i] == Handler(s.handlers[i].ev, Relookup)
    ensures ValueAt(Step(s, i), k) == ValueAt(s, k)
    ensures ValueAt(Step(s, i), Key(s.target, s.handlers[i].ev.cpu)) == 0 == ValueAt(s, Key(s.target, s.handlers[i].ev.cpu))
  {
  }

  // An event of the target on a free CPU, handled on its own, adds exactly its
  // runtime to the counter of its CPU and leaves every other counter as it is.
  lemma {:induction false} LoneEvent(u: Setup, s: System, e: Event, k: Key)
    requires Reliable(u) && Inv(u, s) && s.loader.Attached? && e.cpu < u.cpus && !Busy(s.handlers, e.cpu)
    requires e.pid != 0 && (u.tgid == 0 || e.tgid == u.tgid)
    ensures var i := |s.handlers|;
            var s0 := Act(u, s, Fire(e));
      && |s0.handlers| == i + 1
      && var f := Alone(s0, i, 4);
         && Key(u.tgid, e.cpu) in f.times.index && f.handlers[i].pc.Counted?
         && ValueAt(f, Key(u.tgid, e.cpu)) == (ValueAt(s, Key(u.tgid, e.cpu)) + e.runtime) % TWO_TO_64
         && (k != Key(u.tgid, e.cpu) ==> ValueAt(f, k) == ValueAt(s, k))
  {
    hide RunTime, CounterIs, HandlerInv, Alone;
    var i := |s.handlers|;
    var s0 := Act(u, s, Fire(e));
    FireInv(u, s, e);
    if Key(u.tgid, e.cpu) in s.times.index {
      PresentRaises(u, s0, i, k);
    } else {
      AbsentRaises(u, s0, i, k);
    }
  }
}
