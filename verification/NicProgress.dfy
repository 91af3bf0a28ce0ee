// How far a packet handler gets on its own.
module NicProgress {
  import opened Words
  import opened NicKernel

  // Handler i takes its next n steps.
  function Alone(s: Kernel, i: nat, n: nat): Kernel
    requires i < |s.handlers|
    ensures |Alone(s, i, n).handlers| == |s.handlers|
  {
    if n == 0 then s else Step(Alone(s, i, n - 1), i)
  }

  function Remaining(pc: Pc): nat
  {
    match pc
    case Enter => 4
    case Insert => 3
    case Relookup => 2
    case Add(_) => 1
    case _ => 0
  }

  lemma {:induction false} StepAdvances(s: Kernel, i: nat)
    requires Inv(s) && i < |s.handlers|
    ensures Inv(Step(s, i))
    ensures Remaining(Step(s, i).handlers[i].pc) < Remaining(s.handlers[i].pc)
            || (Remaining(s.handlers[i].pc) == 0 && Step(s, i) == s)
  {
    StepInv(s, i);
    assert HandlerInv(s, s.handlers[i]);
  }

  lemma {:induction false} AloneAdvances(s: Kernel, i: nat, n: nat)
    requires Inv(s) && i < |s.handlers|
    ensures Inv(Alone(s, i, n))
    ensures Remaining(Alone(s, i, n).handlers[i].pc) + n <= 4 || Remaining(Alone(s, i, n).handlers[i].pc) == 0
  {
    hide Step, Inv;
    if n > 0 {
      AloneAdvances(s, i, n - 1);
      StepAdvances(Alone(s, i, n - 1), i);
    }
  }

  // Whatever the other handlers are at, four steps of its own finish a handler.
  lemma {:induction false} FourStepsFinish(s: Kernel, i: nat)
    requires Inv(s) && i < |s.handlers|
    ensures Finished(Alone(s, i, 4).handlers[i])
  {
    hide Step, Inv, Alone;
    AloneAdvances(s, i, 4);
  }

  // The counter of an interface, 0 if it has no entry.
  function ValueAt(s: Kernel, k: u32, d: Dir): u64
  {
    if k in s.stats.index && s.stats.index[k] < |s.stats.cells| then s.stats.cells[s.stats.index[k]].Get(d) else 0
  }

  lemma {:induction false} FinishedStep(s: Kernel, i: nat)
    requires i < |s.handlers| && Finished(s.handlers[i])
    ensures Step(s, i) == s
  {
  }

  lemma {:induction false} FinishedRests(s: Kernel, i: nat, n: nat, m: nat)
    requires i < |s.handlers| && n <= m && Finished(Alone(s, i, n).handlers[i])
    ensures Alone(s, i, m) == Alone(s, i, n)
    decreases m
  {
    hide Step;
    if n < m {
      FinishedRests(s, i, n, m - 1);
      FinishedStep(Alone(s, i, n), i);
    }
  }

  // A handler that is to add to the entry of its interface raises one counter of
  // it by the length of its packet, and no other.
  lemma {:induction false} AddRaises(s: Kernel, i: nat, k: u32, d: Dir)
    requires s.stats.Valid() && i < |s.handlers|
    requires var p := s.handlers[i].pkt; p.ifindex in s.stats.index && s.handlers[i].pc == Add(s.stats.index[p.ifindex])
    ensures var p := s.handlers[i].pkt;
      && Step(s, i).stats.index == s.stats.index && Step(s, i).handlers[i].pc.Counted?
      && ValueAt(Step(s, i), p.ifindex, p.dir) == (ValueAt(s, p.ifindex, p.dir) + p.len) % TWO_TO_64
      && (k != p.ifindex || d != p.dir ==> ValueAt(Step(s, i), k, d) == ValueAt(s, k, d))
  {
  }

  // What handler i, on its own, makes of the counters.
  ghost predicate Raises(s: Kernel, f: Kernel, i: nat, k: u32, d: Dir)
    requires i < |s.handlers| == |f.handlers|
  {
    var p := s.handlers[i].pkt;
    && p.ifindex in f.stats.index && f.handlers[i].pc.Counted?
    && ValueAt(f, p.ifindex, p.dir) == (ValueAt(s, p.ifindex, p.dir) + p.len) % TWO_TO_64
    && (k != p.ifindex || d != p.dir ==> ValueAt(f, k, d) == ValueAt(s, k, d))
  }

  lemma {:induction false} PresentRaises(s: Kernel, i: nat, k: u32, d: Dir)
    requires Inv(s) && i < |s.handlers| && s.handlers[i].pc.Enter?
    requires s.handlers[i].pkt.ifindex != 0 && s.handlers[i].pkt.ifindex in s.stats.index
    ensures Raises(s, Alone(s, i, 4), i, k, d)
  {
    hide CounterIs, HandlerInv;
    var s1 := Step(s, i);
    assert s1 == Alone(s, i, 1) && s1.stats == s.stats;
    AddRaises(s1, i, k, d);
    assert Alone(s, i, 2) == Step(s1, i);
    FinishedRests(s, i, 2, 4);
  }

  lemma {:induction false} InsertedEmpty(s: Kernel, i: nat, k: u32, d: Dir)
    requires s.stats.Valid() && i < |s.handlers| && s.handlers[i].pc.Insert?
    requires s.handlers[i].pkt.ifindex !in s.stats.index && |s.stats.index| < MAX_ENTRIES
    ensures s.handlers[i].pkt.ifindex in Step(s, i).stats.index && |Step(s, i).handlers| == |s.handlers|
    ensures Step(s, i).handlers[i] == Handler(s.handlers[i].pkt, Relookup)
    ensures ValueAt(Step(s, i), k, d) == ValueAt(s, k, d)
    ensures ValueAt(Step(s, i), s.handlers[i].pkt.ifindex, s.handlers[i].pkt.dir)
         == ValueAt(s, s.handlers[i].pkt.ifindex, s.handlers[i].pkt.dir)
  {
  }

  lemma {:induction false} ThreeSteps(s: Kernel, i: nat)
    requires i < |s.handlers|
    ensures |Step(s, i).handlers| == |s.handlers| == |Step(Step(s, i), i).handlers|
    ensures Alone(s, i, 3) == Step(Step(Step(s, i), i), i)
  {
    assert Alone(s, i, 1) == Step(s, i);
    assert Alone(s, i, 2) == Step(Alone(s, i, 1), i);
    assert Alone(s, i, 3) == Step(Alone(s, i, 2), i);
  }

  lemma {:induction false} EnterMisses(s: Kernel, i: nat)
    requires i < |s.handlers| && s.handlers[i].pc.Enter?
    requires s.handlers[i].pkt.ifindex != 0 && s.handlers[i].pkt.ifindex !in s.stats.index
    ensures Step(s, i).stats == s.stats && |Step(s, i).handlers| == |s.handlers|
    ensures Step(s, i).handlers[i] == Handler(s.handlers[i].pkt, Insert)
  {
  }

  lemma {:induction false} RelookupFinds(s: Kernel, i: nat)
    requires i < |s.handlers| && s.handlers[i].pc.Relookup? && s.handlers[i].pkt.ifindex in s.stats.index
    ensures Step(s, i).stats == s.stats && |Step(s, i).handlers| == |s.handlers|
    ensures Step(s, i).handlers[i] == Handler(s.handlers[i].pkt, Add(s.stats.index[s.handlers[i].pkt.ifindex]))
  {
  }

  // Entering, inserting and looking up again leads to the new entry.
  lemma {:induction false} AbsentInserts(s: Kernel, i: nat, k: u32, d: Dir)
    requires Inv(s) && i < |s.handlers| && s.handlers[i].pc.Enter?
    requires s.handlers[i].pkt.ifindex != 0 && s.handlers[i].pkt.ifindex !in s.stats.index && |s.stats.index| < MAX_ENTRIES
    ensures var t, p := Alone(s, i, 3), s.handlers[i].pkt;
      && t.stats.Valid() && t.handlers[i].pkt == p
      && p.ifindex in t.stats.index && t.handlers[i].pc == Add(t.stats.index[p.ifindex])
      && ValueAt(t, k, d) == ValueAt(s, k, d) && ValueAt(t, p.ifindex, p.dir) == ValueAt(s, p.ifindex, p.dir)
  {
    hide Step, Inv, Alone;
    InvValid(s);
    EnterMisses(s, i);
    StepInv(s, i);
    var s1 := Step(s, i);
    StepInv(s1, i);
    var s2 := Step(s1, i);
    InsertedEmpty(s1, i, k, d);
    InvValid(s2);
    RelookupFinds(s2, i);
    ThreeSteps(s, i);
  }

  lemma {:induction false} InvValid(s: Kernel)
    requires Inv(s)
    ensures s.stats.Valid()
  {
  }

  lemma {:induction false} AbsentRaises(s: Kernel, i: nat, k: u32, d: Dir)
    requires Inv(s) && i < |s.handlers| && s.handlers[i].pc.Enter?
    requires s.handlers[i].pkt.ifindex != 0 && s.handlers[i].pkt.ifindex !in s.stats.index && |s.stats.index| < MAX_ENTRIES
    ensures Raises(s, Alone(s, i, 4), i, k, d)
  {
    hide Inv, ValueAt, Step;
    AbsentInserts(s, i, k, d);
    AddRaises(Alone(s, i, 3), i, k, d);
    assert Alone(s, i, 4) == Step(Alone(s, i, 3), i);
  }

  // A packet that is handled on its own, with an entry or room for one, raises
  // exactly its own counter by its length and leaves every other as it is.
  lemma {:induction false} LonePacket(s: Kernel, p: Packet, k: u32, d: Dir)
    requires Inv(s) && p.ifindex != 0 && (p.ifindex in s.stats.index || |s.stats.index| < MAX_ENTRIES)
    ensures var i := |s.handlers|;
            var s0 := Arrive(s, p);
      && |s0.handlers| == i + 1
      && var f := Alone(s0, i, 4);
         && p.ifindex in f.stats.index && f.handlers[i].pc.Counted?
         && ValueAt(f, p.ifindex, p.dir) == (ValueAt(s, p.ifindex, p.dir) + p.len) % TWO_TO_64
         && (k != p.ifindex || d != p.dir ==> ValueAt(f, k, d) == ValueAt(s, k, d))
  {
    hide CounterIs, HandlerInv, Alone, Inv;
    var i := |s.handlers|;
    ArriveInv(s, p);
    if p.ifindex in s.stats.index {
      PresentRaises(Arrive(s, p), i, k, d);
    } else {
      AbsentRaises(Arrive(s, p), i, k, d);
    }
  }
}
