// Processes in cgroup directories, and what others do to them while the NIC
// loader is at work.
module Cgroups {
  import opened Text

  // A cgroup directory: /sys/fs/cgroup, or a directory in another.
  datatype Path = Root | Sub(parent: Path, name: string)

  type Procs = map<nat, Path>

  function ChildName(pid: nat): string { "ecofloc-" + Itoa(pid) }

  function Child(orig: Path, pid: nat): Path { Sub(orig, ChildName(pid)) }

  // What happens to processes without the loader: a fork starts the new process
  // in the cgroup of its parent, and a third party may move a process.
  datatype Event = Fork(parent: nat, pid: nat) | Exit(pid: nat) | Migrate(pid: nat, to: Path)

  function Happens(procs: Procs, e: Event): Procs
  {
    match e
    case Fork(parent, pid) => if parent in procs && pid !in procs then procs[pid := procs[parent]] else procs
    case Exit(pid) => procs - {pid}
    case Migrate(pid, to) => if pid in procs then procs[pid := to] else procs
  }

  function After(procs: Procs, es: seq<Event>): Procs
  {
    if es == [] then procs else Happens(After(procs, es[..|es| - 1]), es[|es| - 1])
  }

  lemma {:induction false} AfterNothing(procs: Procs)
    ensures After(procs, []) == procs
  {
  }

  // ---------- displaced processes ----------

  // The processes with child read as orig: where they would be if nothing had
  // been moved from orig to child.
  function Renamed(procs: Procs, child: Path, orig: Path): Procs
  {
    map p | p in procs :: if procs[p] == child then orig else procs[p]
  }

  ghost predicate NoneInto(child: Path, es: seq<Event>)
  {
    forall i :: 0 <= i < |es| && es[i].Migrate? ==> es[i].to != child
  }

  lemma {:induction false} NoneIntoNothing(child: Path)
    ensures NoneInto(child, [])
  {
  }

  lemma {:induction false} RenamedHappens(procs: Procs, child: Path, orig: Path, e: Event)
    requires e.Migrate? ==> e.to != child
    ensures Renamed(Happens(procs, e), child, orig) == Happens(Renamed(procs, child, orig), e)
  {
    var r := Renamed(Happens(procs, e), child, orig);
    var s := Happens(Renamed(procs, child, orig), e);
    match e
    case Fork(parent, pid) => assert r.Keys == s.Keys;
    case Exit(pid) => assert r.Keys == s.Keys;
    case Migrate(pid, to) => assert r.Keys == s.Keys;
  }

  // Whatever happens outside, the displaced processes and those that fork off
  // them stay exactly the ones in the child.
  lemma {:induction false} RenamedAfter(procs: Procs, child: Path, orig: Path, es: seq<Event>)
    requires NoneInto(child, es)
    ensures Renamed(After(procs, es), child, orig) == After(Renamed(procs, child, orig), es)
  {
    hide Happens, Renamed;
    if es != [] {
      RenamedAfter(procs, child, orig, es[..|es| - 1]);
      RenamedHappens(After(procs, es[..|es| - 1]), child, orig, es[|es| - 1]);
    }
  }

  lemma {:induction false} RenamedEmpty(procs: Procs, child: Path, orig: Path)
    requires child !in procs.Values
    ensures Renamed(procs, child, orig) == procs
  {
    assert forall p :: p in procs ==> procs[p] in procs.Values;
  }

  lemma {:induction false} StaysOut(procs: Procs, child: Path, es: seq<Event>)
    requires child !in procs.Values && NoneInto(child, es)
    ensures child !in After(procs, es).Values
  {
    if es != [] {
      StaysOut(procs, child, es[..|es| - 1]);
      var before := After(procs, es[..|es| - 1]);
      assert forall p :: p in before ==> before[p] in before.Values;
    }
  }

  lemma {:induction false} AfterAppend(procs: Procs, a: seq<Event>, b: seq<Event>)
    ensures After(procs, a + b) == After(After(procs, a), b)
  {
    if b == [] {
      assert a + b == a;
    } else {
      assert (a + b)[..|a + b| - 1] == a + b[..|b| - 1];
      AfterAppend(procs, a, b[..|b| - 1]);
    }
  }

  // No event concerns this process.
  ghost predicate Untouched(pid: nat, es: seq<Event>)
  {
    forall i :: 0 <= i < |es| ==> es[i].Exit? || es[i].pid != pid
  }

  lemma {:induction false} StaysPut(procs: Procs, pid: nat, es: seq<Event>)
    requires Untouched(pid, es)
    ensures pid in After(procs, es) ==> pid in procs && After(procs, es)[pid] == procs[pid]
  {
    if es != [] { StaysPut(procs, pid, es[..|es| - 1]); }
  }

  // ---------- moving back ----------

  // The events of step i of a schedule.
  function At(env: seq<seq<Event>>, i: nat): seq<Event>
  {
    if i < |env| then env[i] else []
  }

  function Upto(env: seq<seq<Event>>, n: nat): seq<Event>
  {
    if n == 0 then [] else Upto(env, n - 1) + At(env, n - 1)
  }

  // The processes after the first n of the listed ones have been written back to
  // orig, with events before each write; the writes in fails fail, and so does
  // writing a process that is gone.
  function MovedBack(procs: Procs, orig: Path, listed: seq<nat>, fails: set<nat>, env: seq<seq<Event>>, n: nat): Procs
    requires n <= |listed|
  {
    if n == 0 then procs
    else
      var before := After(MovedBack(procs, orig, listed, fails, env, n - 1), At(env, n - 1));
      var p := listed[n - 1];
      if p in fails || p !in before then before else before[p := orig]
  }

  // Listed are the processes in the child, in some order.
  ghost predicate Lists(procs: Procs, child: Path, listed: seq<nat>)
  {
    && (forall i :: 0 <= i < |listed| ==> listed[i] in procs && procs[listed[i]] == child)
    && (forall p :: p in procs && procs[p] == child ==> p in listed)
    && (forall i, j :: 0 <= i < j < |listed| ==> listed[i] != listed[j])
  }

  // While they are being written back, processes may exit; those not yet written
  // back neither fork nor move, their numbers are not reused, and nothing moves
  // into the child.
  ghost predicate Quiet(child: Path, waiting: seq<nat>, es: seq<Event>)
  {
    forall i :: 0 <= i < |es| ==>
      match es[i]
      case Fork(parent, pid) => parent !in waiting && pid !in waiting
      case Exit(_) => true
      case Migrate(pid, to) => pid !in waiting && to != child
  }

  ghost predicate QuietAll(child: Path, listed: seq<nat>, env: seq<seq<Event>>)
  {
    forall i :: 0 <= i <= |listed| ==> Quiet(child, listed[i..], At(env, i))
  }

  lemma {:induction false} QuietNone(child: Path, waiting: seq<nat>, es: seq<Event>)
    requires Quiet(child, waiting, es)
    ensures NoneInto(child, es)
  {
  }

  ghost predicate StillIn(procs: Procs, child: Path, waiting: seq<nat>)
  {
    forall p :: p in waiting && p in procs ==> procs[p] == child
  }

  ghost predicate NobodyElse(procs: Procs, child: Path, waiting: seq<nat>)
  {
    forall p :: p in procs && procs[p] == child ==> p in waiting
  }

  lemma {:induction false} QuietKeeps(procs: Procs, child: Path, waiting: seq<nat>, es: seq<Event>)
    requires Quiet(child, waiting, es)
    ensures StillIn(procs, child, waiting) ==> StillIn(After(procs, es), child, waiting)
    ensures NobodyElse(procs, child, waiting) ==> NobodyElse(After(procs, es), child, waiting)
  {
    if es != [] { QuietKeeps(procs, child, waiting, es[..|es| - 1]); }
  }

  lemma {:induction false} RenamedMove(procs: Procs, child: Path, orig: Path, p: nat)
    requires p in procs && procs[p] == child && orig != child
    ensures Renamed(procs[p := orig], child, orig) == Renamed(procs, child, orig)
  {
  }

  lemma {:induction false} WriteKeeps(procs: Procs, child: Path, orig: Path, p: nat, rest: seq<nat>, fails: bool)
    requires StillIn(procs, child, [p] + rest) && orig != child && p !in rest
    ensures var end: Procs := if fails || p !in procs then procs else procs[p := orig];
      StillIn(end, child, rest) && Renamed(end, child, orig) == Renamed(procs, child, orig)
  {
    assert p in [p] + rest;
    assert forall q :: q in rest ==> q in [p] + rest;
    if p in procs { RenamedMove(procs, child, orig, p); }
  }

  // Writing processes back, with or without failures, changes nothing but where
  // the displaced ones are.
  lemma {:induction false} MovedBackRenamed(procs: Procs, child: Path, orig: Path,
      listed: seq<nat>, fails: set<nat>, env: seq<seq<Event>>, n: nat)
    requires n <= |listed| && orig != child && QuietAll(child, listed, env)
    requires StillIn(procs, child, listed) && forall i, j :: 0 <= i < j < |listed| ==> listed[i] != listed[j]
    ensures var end := MovedBack(procs, orig, listed, fails, env, n);
      && Renamed(end, child, orig) == After(Renamed(procs, child, orig), Upto(env, n))
      && StillIn(end, child, listed[n..])
  {
    hide Renamed, At, StillIn, Quiet, NoneInto, Happens;
    if n == 0 {
      assert listed[0..] == listed;
    } else {
      MovedBackRenamed(procs, child, orig, listed, fails, env, n - 1);
      var start := MovedBack(procs, orig, listed, fails, env, n - 1);
      var before := After(start, At(env, n - 1));
      assert Quiet(child, listed[n - 1..], At(env, n - 1));
      QuietKeeps(start, child, listed[n - 1..], At(env, n - 1));
      QuietNone(child, listed[n - 1..], At(env, n - 1));
      RenamedAfter(start, child, orig, At(env, n - 1));
      AfterAppend(Renamed(procs, child, orig), Upto(env, n - 1), At(env, n - 1));
      var p := listed[n - 1];
      assert listed[n - 1..] == [p] + listed[n..];
      assert p !in listed[n..];
      WriteKeeps(before, child, orig, p, listed[n..], p in fails);
    }
  }

  lemma {:induction false} WriteEmpties(procs: Procs, child: Path, orig: Path, p: nat, rest: seq<nat>)
    requires NobodyElse(procs, child, [p] + rest) && orig != child
    ensures NobodyElse(if p in procs then procs[p := orig] else procs, child, rest)
  {
  }

  // Without failures the child empties.
  lemma {:induction false} MovedBackEmpties(procs: Procs, child: Path, orig: Path,
      listed: seq<nat>, env: seq<seq<Event>>, n: nat)
    requires n <= |listed| && orig != child && QuietAll(child, listed, env)
    requires NobodyElse(procs, child, listed)
    ensures NobodyElse(MovedBack(procs, orig, listed, {}, env, n), child, listed[n..])
  {
    hide NobodyElse, StillIn, Quiet, After, At;
    if n == 0 {
      assert listed[0..] == listed;
    } else {
      var start := MovedBack(procs, orig, listed, {}, env, n - 1);
      var waiting := listed[n - 1..];
      MovedBackEmpties(procs, child, orig, listed, env, n - 1);
      assert Quiet(child, waiting, At(env, n - 1));
      QuietKeeps(start, child, waiting, At(env, n - 1));
      assert waiting == [listed[n - 1]] + listed[n..];
      WriteEmpties(After(start, At(env, n - 1)), child, orig, listed[n - 1], listed[n..]);
    }
  }

  // Once the processes listed in the child are written back, with nothing put
  // into it meanwhile, every process is where it would be without the loader.
  lemma {:induction false} Restored(procs: Procs, shadow: Procs, child: Path, orig: Path, listed: seq<nat>, env: seq<seq<Event>>)
    requires Lists(procs, child, listed) && QuietAll(child, listed, env) && orig != child
    requires Renamed(procs, child, orig) == shadow
    ensures var end := After(MovedBack(procs, orig, listed, {}, env, |listed|), At(env, |listed|));
      child !in end.Values && end == After(shadow, Upto(env, |listed| + 1))
  {
    var n := |listed|;
    var start := MovedBack(procs, orig, listed, {}, env, n);
    MovedBackRenamed(procs, child, orig, listed, {}, env, n);
    MovedBackEmpties(procs, child, orig, listed, env, n);
    assert child !in start.Values;
    assert Quiet(child, listed[n..], At(env, n));
    RenamedEmpty(start, child, orig);
    AfterAppend(shadow, Upto(env, n), At(env, n));
    StaysOut(start, child, At(env, n));
  }

  // Without events, the first n are back and the others where they were.
  lemma {:induction false} MovedSoFar(procs: Procs, child: Path, orig: Path, listed: seq<nat>, env: seq<seq<Event>>, n: nat)
    requires Lists(procs, child, listed) && n <= |listed| && forall i :: 0 <= i < n ==> At(env, i) == []
    ensures var end := MovedBack(procs, orig, listed, {}, env, n);
      && end.Keys == procs.Keys
      && forall p :: p in procs ==> end[p] == if p in listed[..n] then orig else procs[p]
  {
    if n > 0 {
      MovedSoFar(procs, child, orig, listed, env, n - 1);
      assert listed[..n] == listed[..n - 1] + [listed[n - 1]];
    }
  }

  // A schedule in which the only event is a fork before write k.
  ghost predicate OneFork(env: seq<seq<Event>>, k: nat, parent: nat, pid: nat)
  {
    forall i: nat :: At(env, i) == if i == k then [Fork(parent, pid)] else []
  }

  lemma {:induction false} ForkInside(procs: Procs, child: Path, orig: Path, listed: seq<nat>, env: seq<seq<Event>>,
      k: nat, j: nat, pid: nat)
    requires Lists(procs, child, listed) && k <= j < |listed| && pid !in procs && OneFork(env, k, listed[j], pid)
    ensures var before := After(MovedBack(procs, orig, listed, {}, env, k), At(env, k));
      pid in before && before[pid] == child
  {
    MovedSoFar(procs, child, orig, listed, env, k);
    var start := MovedBack(procs, orig, listed, {}, env, k);
    assert listed[j] !in listed[..k];
    var es := [Fork(listed[j], pid)];
    assert es[..0] == [] && After(start, es[..0]) == start;
  }

  // The condition is needed: a process that forks after the listing and before
  // its own turn leaves the new process behind, and the directory in use.
  lemma {:induction false} ForkEscapes(procs: Procs, child: Path, orig: Path, listed: seq<nat>, env: seq<seq<Event>>,
      k: nat, j: nat, pid: nat, n: nat)
    requires Lists(procs, child, listed) && k <= j < |listed| && pid !in procs && OneFork(env, k, listed[j], pid)
    requires k < n <= |listed|
    ensures var end := MovedBack(procs, orig, listed, {}, env, n);
      pid in end && end[pid] == child
  {
    assert listed[n - 1] != pid;
    if n == k + 1 {
      ForkInside(procs, child, orig, listed, env, k, j, pid);
    } else {
      ForkEscapes(procs, child, orig, listed, env, k, j, pid, n - 1);
      assert At(env, n - 1) == [];
    }
  }

  lemma {:induction false} QuietNoneInto(child: Path, listed: seq<nat>, env: seq<seq<Event>>, n: nat)
    requires QuietAll(child, listed, env) && n <= |listed| + 1
    ensures NoneInto(child, Upto(env, n))
  {
    if n > 0 {
      QuietNoneInto(child, listed, env, n - 1);
      assert Quiet(child, listed[n - 1..], At(env, n - 1));
      QuietNone(child, listed[n - 1..], At(env, n - 1));
    }
  }

  // The directory may have existed before, left by an earlier run for instance.
  // Moving a process to the child of its cgroup and writing everything there back
  // then restores the processes exactly if, by the end, none would have been in
  // that directory without the loader: none was, or all that were have gone.
  lemma {:induction false} RestoredExactly(procs: Procs, pid: nat, listed: seq<nat>, env: seq<seq<Event>>)
    requires pid in procs
    requires Lists(procs[pid := Child(procs[pid], pid)], Child(procs[pid], pid), listed)
    requires QuietAll(Child(procs[pid], pid), listed, env)
    ensures var orig, child := procs[pid], Child(procs[pid], pid);
            var all := Upto(env, |listed| + 1);
      After(MovedBack(procs[pid := child], orig, listed, {}, env, |listed|), At(env, |listed|)) == After(procs, all)
      <==> child !in After(procs, all).Values
  {
    hide After, MovedBack, Lists, QuietAll;
    var orig, child := procs[pid], Child(procs[pid], pid);
    var moved: Procs := procs[pid := child];
    var all := Upto(env, |listed| + 1);
    RenamedMove(moved, child, orig, pid);
    assert moved[pid := orig] == procs;
    Restored(moved, Renamed(procs, child, orig), child, orig, listed, env);
    QuietNoneInto(child, listed, env, |listed| + 1);
    RenamedAfter(procs, child, orig, all);
    if child !in After(procs, all).Values { RenamedEmpty(After(procs, all), child, orig); }
  }
}
