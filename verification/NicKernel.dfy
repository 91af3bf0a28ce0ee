// The packet handlers of nic_bpf.c, any number of them in flight at once.
module NicKernel {
  import opened Words
  import opened Options
  import opened BpfMaps

  const MAX_ENTRIES: nat := 256

  type u32 = x: int | 0 <= x < 0x1_0000_0000

  datatype Dir = Egress | Ingress

  // struct __sk_buff, as far as account_bytes looks at it.
  datatype Packet = Packet(ifindex: u32, dir: Dir, len: u32)

  datatype Metrics = Metrics(rx: u64, tx: u64)
  {
    function Get(d: Dir): u64 { if d.Egress? then tx else rx }

    // __sync_fetch_and_add on the counter of direction d
    function AtomicAdd(d: Dir, n: u32): Metrics
    {
      if d.Egress? then Metrics(rx, (tx + n) % TWO_TO_64) else Metrics((rx + n) % TWO_TO_64, tx)
    }
  }

  // Where one run of account_bytes stands.  The first four are the steps still
  // to do; the last three are the ways it can end.
  datatype Pc = Enter | Insert | Relookup | Add(cell: nat) | Counted | Dropped | Skipped

  datatype Handler = Handler(pkt: Packet, pc: Pc)

  datatype Kernel = Kernel(stats: BpfMap<u32, Metrics>, handlers: seq<Handler>)

  function Boot(): Kernel { Kernel(Empty(), []) }

  function Arrive(s: Kernel, p: Packet): Kernel
  {
    s.(handlers := s.handlers + [Handler(p, Enter)])
  }

  // The pc after a lookup: a pointer to the entry, or the step for "not found".
  function Found(c: Option<nat>, otherwise: Pc): Pc
  {
    if c.Some? then Add(c.value) else otherwise
  }

  // One atomic step of handler i.  A finished handler does nothing more.
  function Step(s: Kernel, i: nat): Kernel
    requires i < |s.handlers|
  {
    var h := s.handlers[i];
    var k := h.pkt.ifindex;
    match h.pc
    case Enter =>
      var pc := if k == 0 then Skipped else Found(s.stats.Lookup(k), Insert);
      s.(handlers := s.handlers[i := h.(pc := pc)])
    case Insert =>
      Kernel(s.stats.UpdateNoExist(k, Metrics(0, 0), MAX_ENTRIES), s.handlers[i := h.(pc := Relookup)])
    case Relookup =>
      s.(handlers := s.handlers[i := h.(pc := Found(s.stats.Lookup(k), Dropped))])
    case Add(c) =>
      if c >= |s.stats.cells| then s else
      Kernel(s.stats.Store(c, s.stats.cells[c].AtomicAdd(h.pkt.dir, h.pkt.len)),
             s.handlers[i := h.(pc := Counted)])
    case _ => s
  }

  // ---------- what has been accounted ----------

  function Share(h: Handler, k: u32, d: Dir): nat
  {
    if h.pc.Counted? && h.pkt.ifindex == k && h.pkt.dir == d then h.pkt.len else 0
  }

  // Total length of the packets of interface k and direction d whose atomic add
  // has executed.
  function Accounted(hs: seq<Handler>, k: u32, d: Dir): nat
  {
    if hs == [] then 0 else Accounted(hs[..|hs| - 1], k, d) + Share(hs[|hs| - 1], k, d)
  }

  lemma {:induction false} AccountedUpdate(hs: seq<Handler>, i: nat, h: Handler, k: u32, d: Dir)
    requires i < |hs|
    ensures Accounted(hs[i := h], k, d) == Accounted(hs, k, d) - Share(hs[i], k, d) + Share(h, k, d)
  {
    var n := |hs| - 1;
    if i == n {
      assert hs[i := h][..n] == hs[..n];
    } else {
      assert hs[i := h][..n] == hs[..n][i := h];
      AccountedUpdate(hs[..n], i, h, k, d);
    }
  }

  lemma {:induction false} AccountedArrive(hs: seq<Handler>, p: Packet, k: u32, d: Dir)
    ensures Accounted(hs + [Handler(p, Enter)], k, d) == Accounted(hs, k, d)
  {
    assert (hs + [Handler(p, Enter)])[..|hs|] == hs;
  }

  lemma {:induction false} AccountedNone(hs: seq<Handler>, k: u32, d: Dir)
    requires forall i :: 0 <= i < |hs| ==> Share(hs[i], k, d) == 0
    ensures Accounted(hs, k, d) == 0
  {
    if hs != [] { AccountedNone(hs[..|hs| - 1], k, d); }
  }

  // hs2 is a later stage of hs1: packets keep their handler, and what was
  // counted stays counted.
  ghost predicate Later(hs1: seq<Handler>, hs2: seq<Handler>)
  {
    && |hs1| <= |hs2|
    && forall i :: 0 <= i < |hs1| ==>
         hs2[i].pkt == hs1[i].pkt && (hs1[i].pc.Counted? ==> hs2[i].pc.Counted?)
  }

  lemma {:induction false} AccountedGrows(hs1: seq<Handler>, hs2: seq<Handler>, k: u32, d: Dir)
    requires Later(hs1, hs2)
    ensures Accounted(hs1, k, d) <= Accounted(hs2, k, d)
    decreases |hs2|
  {
    if hs2 != [] {
      var n := |hs2| - 1;
      if |hs1| == |hs2| {
        AccountedGrows(hs1[..n], hs2[..n], k, d);
      } else {
        AccountedGrows(hs1, hs2[..n], k, d);
      }
    }
  }

  // ---------- the inductive invariant ----------

  // What handler h may rely on, whatever the others do.
  ghost predicate HandlerInv(s: Kernel, h: Handler)
  {
    var k := h.pkt.ifindex;
    match h.pc
    case Enter => true
    case Skipped => k == 0
    case Insert => k != 0
    case Relookup => k != 0 && (k in s.stats.index || |s.stats.index| == MAX_ENTRIES)
    case Add(c) => k != 0 && k in s.stats.index && s.stats.index[k] == c
    case Counted => k != 0 && k in s.stats.index
    case Dropped => k != 0 && k !in s.stats.index && |s.stats.index| == MAX_ENTRIES
  }

  ghost predicate CounterIs(s: Kernel, k: u32, d: Dir)
    requires s.stats.Valid() && k in s.stats.index
  {
    s.stats.cells[s.stats.index[k]].Get(d) == Accounted(s.handlers, k, d) % TWO_TO_64
  }

  ghost predicate Inv(s: Kernel)
  {
    && s.stats.Valid()
    && |s.stats.index| <= MAX_ENTRIES
    && 0 !in s.stats.index
    && (forall i :: 0 <= i < |s.handlers| ==> HandlerInv(s, s.handlers[i]))
    && (forall k, d :: k in s.stats.index ==> CounterIs(s, k, d))
  }

  lemma {:induction false} ArriveInv(s: Kernel, p: Packet)
    requires Inv(s)
    ensures Inv(Arrive(s, p)) && Later(s.handlers, Arrive(s, p).handlers)
  {
    forall k, d | k in s.stats.index ensures CounterIs(Arrive(s, p), k, d) {
      assert CounterIs(s, k, d);
      AccountedArrive(s.handlers, p, k, d);
    }
  }

  // No packet of an interface without an entry has been counted.
  lemma {:induction false} AbsentNone(s: Kernel, k: u32, d: Dir)
    requires Inv(s) && k !in s.stats.index
    ensures Accounted(s.handlers, k, d) == 0
  {
    forall i | 0 <= i < |s.handlers| ensures Share(s.handlers[i], k, d) == 0 {
      assert HandlerInv(s, s.handlers[i]);
    }
    AccountedNone(s.handlers, k, d);
  }

  // The steps that only look up, and those of finished handlers.
  lemma {:induction false} LookupInv(s: Kernel, i: nat)
    requires Inv(s) && i < |s.handlers| && !s.handlers[i].pc.Insert? && !s.handlers[i].pc.Add?
    ensures Inv(Step(s, i)) && Later(s.handlers, Step(s, i).handlers)
  {
    var s' := Step(s, i);
    assert HandlerInv(s, s.handlers[i]);
    forall k, d | k in s'.stats.index ensures CounterIs(s', k, d) {
      assert CounterIs(s, k, d);
      AccountedUpdate(s.handlers, i, s'.handlers[i], k, d);
    }
    forall j | 0 <= j < |s'.handlers| ensures HandlerInv(s', s'.handlers[j]) {
      assert HandlerInv(s, s.handlers[j]);
    }
  }

  lemma {:induction false} StepInv(s: Kernel, i: nat)
    requires Inv(s) && i < |s.handlers|
    ensures Inv(Step(s, i)) && Later(s.handlers, Step(s, i).handlers)
  {
    match s.handlers[i].pc
    case Insert => InsertInv(s, i);
    case Add(_) => AddInv(s, i);
    case _ => LookupInv(s, i);
  }

  lemma {:induction false} InsertHandlerInv(s: Kernel, i: nat, j: nat)
    requires Inv(s) && i < |s.handlers| && s.handlers[i].pc.Insert? && j < |s.handlers|
    ensures HandlerInv(Step(s, i), Step(s, i).handlers[j])
  {
    assert HandlerInv(s, s.handlers[i]);
    assert HandlerInv(s, s.handlers[j]);
  }

  lemma {:induction false} InsertCounter(s: Kernel, i: nat, k: u32, d: Dir)
    requires Inv(s) && i < |s.handlers| && s.handlers[i].pc.Insert?
    requires Step(s, i).stats.Valid() && k in Step(s, i).stats.index
    ensures CounterIs(Step(s, i), k, d)
  {
    var s' := Step(s, i);
    assert Accounted(s'.handlers, k, d) == Accounted(s.handlers, k, d) by {
      AccountedUpdate(s.handlers, i, s'.handlers[i], k, d);
    }
    if k in s.stats.index {
      assert CounterIs(s, k, d);
      assert s'.stats.cells[s'.stats.index[k]] == s.stats.cells[s.stats.index[k]];
    } else {
      AbsentNone(s, k, d);
      assert s'.stats.cells[s'.stats.index[k]] == Metrics(0, 0);
    }
  }

  lemma {:induction false} InsertInv(s: Kernel, i: nat)
    requires Inv(s) && i < |s.handlers| && s.handlers[i].pc.Insert?
    ensures Inv(Step(s, i)) && Later(s.handlers, Step(s, i).handlers)
  {
    var s' := Step(s, i);
    assert HandlerInv(s, s.handlers[i]);
    assert s'.stats.Valid() && |s'.stats.index| <= MAX_ENTRIES;
    forall k, d | k in s'.stats.index ensures CounterIs(s', k, d) {
      InsertCounter(s, i, k, d);
    }
    forall j | 0 <= j < |s'.handlers| ensures HandlerInv(s', s'.handlers[j]) {
      InsertHandlerInv(s, i, j);
    }
  }

  lemma {:induction false} AddCounter(s: Kernel, i: nat, k: u32, d: Dir)
    requires Inv(s) && i < |s.handlers| && s.handlers[i].pc.Add?
    requires Step(s, i).stats.Valid() && k in Step(s, i).stats.index
    ensures CounterIs(Step(s, i), k, d)
  {
    var s' := Step(s, i);
    var p := s.handlers[i].pkt;
    assert HandlerInv(s, s.handlers[i]);
    assert CounterIs(s, k, d);
    AccountedUpdate(s.handlers, i, s'.handlers[i], k, d);
    if k == p.ifindex && d == p.dir {
      var c := s.stats.index[k];
      assert s'.stats.cells[c] == s.stats.cells[c].AtomicAdd(d, p.len);
      assert Accounted(s'.handlers, k, d) == Accounted(s.handlers, k, d) + p.len;
      AddResidue(Accounted(s.handlers, k, d), p.len);
    } else {
      assert Accounted(s'.handlers, k, d) == Accounted(s.handlers, k, d);
      assert s'.stats.cells[s'.stats.index[k]].Get(d) == s.stats.cells[s.stats.index[k]].Get(d);
    }
  }

  lemma {:induction false} AddInv(s: Kernel, i: nat)
    requires Inv(s) && i < |s.handlers| && s.handlers[i].pc.Add?
    ensures Inv(Step(s, i)) && Later(s.handlers, Step(s, i).handlers)
  {
    assert HandlerInv(s, s.handlers[i]);
    var s' := Step(s, i);
    assert s'.stats.Valid();
    forall k, d | k in s'.stats.index ensures CounterIs(s', k, d) {
      AddCounter(s, i, k, d);
    }
    forall j | 0 <= j < |s'.handlers| ensures HandlerInv(s', s'.handlers[j]) {
      assert HandlerInv(s, s.handlers[j]);
    }
  }

  // ---------- whole runs ----------

  // What can happen next: a packet arrives, or some handler takes its step.
  datatype Action = NewPacket(pkt: Packet) | Run(i: nat)

  function Act(s: Kernel, a: Action): Kernel
  {
    match a
    case NewPacket(p) => Arrive(s, p)
    case Run(i) => if i < |s.handlers| then Step(s, i) else s
  }

  // The kernel after a run; every sequence of actions is one interleaving.
  function Exec(s: Kernel, run: seq<Action>): Kernel
  {
    if run == [] then s else Act(Exec(s, run[..|run| - 1]), run[|run| - 1])
  }

  // Entries are never removed or moved.
  ghost predicate Extends(s: Kernel, s': Kernel)
  {
    && Later(s.handlers, s'.handlers)
    && forall k :: k in s.stats.index ==> k in s'.stats.index && s'.stats.index[k] == s.stats.index[k]
  }

  lemma {:induction false} ActInv(s: Kernel, a: Action)
    requires Inv(s)
    ensures Inv(Act(s, a)) && Extends(s, Act(s, a))
  {
    match a
    case NewPacket(p) => ArriveInv(s, p);
    case Run(i) => if i < |s.handlers| { StepInv(s, i); }
  }

  lemma {:induction false} ExecInv(s: Kernel, run: seq<Action>)
    requires Inv(s)
    ensures Inv(Exec(s, run)) && Extends(s, Exec(s, run))
  {
    if run != [] {
      ExecInv(s, run[..|run| - 1]);
      ActInv(Exec(s, run[..|run| - 1]), run[|run| - 1]);
    }
  }

  // Each counter is the sum of the lengths of exactly the packets whose add has
  // executed, as a 64-bit word; without an entry there are none.
  ghost predicate CountersExact(s: Kernel)
  {
    && s.stats.Valid()
    && (forall k, d :: k in s.stats.index ==> CounterIs(s, k, d))
    && (forall k, d :: k !in s.stats.index ==> Accounted(s.handlers, k, d) == 0)
  }

  // How handlers end: a packet of no interface is skipped, and one is dropped
  // only when the map is full and has no entry for it.
  ghost predicate EndsRight(s: Kernel, h: Handler)
  {
    && (h.pc.Skipped? ==> h.pkt.ifindex == 0)
    && (h.pc.Counted? ==> h.pkt.ifindex in s.stats.index)
    && (h.pc.Dropped? ==> h.pkt.ifindex != 0 && h.pkt.ifindex !in s.stats.index && |s.stats.index| == MAX_ENTRIES)
  }

  // Under every interleaving of any number of handlers, nothing is counted twice
  // or lost except on a full map.
  lemma {:induction false} Conservation(run: seq<Action>)
    ensures CountersExact(Exec(Boot(), run))
    ensures forall i :: 0 <= i < |Exec(Boot(), run).handlers| ==> EndsRight(Exec(Boot(), run), Exec(Boot(), run).handlers[i])
  {
    ExecInv(Boot(), run);
    var s := Exec(Boot(), run);
    forall k, d | k !in s.stats.index ensures Accounted(s.handlers, k, d) == 0 {
      AbsentNone(s, k, d);
    }
    forall i | 0 <= i < |s.handlers| ensures EndsRight(s, s.handlers[i]) {
      assert HandlerInv(s, s.handlers[i]);
    }
  }

  // The bytes offered to account_bytes, whatever becomes of them.
  function Offered(hs: seq<Handler>, k: u32, d: Dir): nat
  {
    if hs == [] then 0 else
      var h := hs[|hs| - 1];
      Offered(hs[..|hs| - 1], k, d) + if h.pkt.ifindex == k && h.pkt.dir == d then h.pkt.len else 0
  }

  ghost predicate Finished(h: Handler) { h.pc.Counted? || h.pc.Dropped? || h.pc.Skipped? }

  lemma {:induction false} AllCounted(hs: seq<Handler>, k: u32, d: Dir)
    requires forall i :: 0 <= i < |hs| && hs[i].pkt.ifindex == k ==> hs[i].pc.Counted?
    ensures Accounted(hs, k, d) == Offered(hs, k, d)
  {
    if hs != [] { AllCounted(hs[..|hs| - 1], k, d); }
  }

  // Once an interface has an entry, no packet of it is ever lost, earlier or
  // later: when all handlers have finished, the counter is the sum over all the
  // packets of that interface.
  lemma {:induction false} NothingLostOnceEntered(run: seq<Action>, more: seq<Action>, k: u32, d: Dir)
    requires k in Exec(Boot(), run).stats.index
    ensures var s := Exec(Exec(Boot(), run), more);
      && k in s.stats.index
      && s.stats.index[k] == Exec(Boot(), run).stats.index[k]
      && s.stats.index[k] < |s.stats.cells|
      && (forall i :: 0 <= i < |s.handlers| && s.handlers[i].pkt.ifindex == k ==>
            !s.handlers[i].pc.Dropped? && !s.handlers[i].pc.Skipped?)
      && ((forall i :: 0 <= i < |s.handlers| ==> Finished(s.handlers[i])) ==>
            s.stats.cells[s.stats.index[k]].Get(d) == Offered(s.handlers, k, d) % TWO_TO_64)
  {
    ExecInv(Boot(), run);
    var s0 := Exec(Boot(), run);
    ExecInv(s0, more);
    var s := Exec(s0, more);
    forall i | 0 <= i < |s.handlers| && s.handlers[i].pkt.ifindex == k
      ensures !s.handlers[i].pc.Dropped? && !s.handlers[i].pc.Skipped?
    {
      assert HandlerInv(s, s.handlers[i]);
    }
    if forall i :: 0 <= i < |s.handlers| ==> Finished(s.handlers[i]) {
      assert CounterIs(s, k, d);
      AllCounted(s.handlers, k, d);
    }
  }
}
