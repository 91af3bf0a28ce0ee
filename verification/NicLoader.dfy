// Life of the NIC loader: what it acquires, and how it gives everything back.
//
// Every operation on the host may fail; the arguments say which ones do, and
// which events happen outside between the steps of the loader.
module NicLoader {
  import opened Options
  import opened Cgroups
  import opened Text
  import NicRead

  datatype Direction = Egress | Ingress

  // An attached cgroup program.
  datatype Link = Link(direction: Direction, path: Path)

  // What Close can fail to release.
  datatype Part = EgressLink | IngressLink | Objects

  // The operations of NewLoader that fail.
  datatype Faults = Faults(
    memlock: bool, load: bool, lookup: bool, mkdir: bool, move: bool, egress: bool, ingress: bool)

  // The operations that fail while things are given up: listing the processes of
  // the child cgroup, writing some of them back, removing the directory, closing
  // some of the parts.
  datatype Undo = Undo(listing: bool, moves: set<nat>, removal: bool, parts: set<Part>)
  {
    // The child cgroup can be given up.
    predicate Smooth() { !listing && moves == {} && !removal }
  }

  // The machine the loader runs on.  The ghost field has the processes as they
  // would be had the loader never moved one.
  class Host {
    var procs: Procs
    var dirs: set<Path>
    var links: multiset<Link>
    var objects: nat
    ghost var shadow: Procs

    constructor (procs: Procs, dirs: set<Path>)
      ensures this.procs == shadow == procs && this.dirs == dirs && links == multiset{} && objects == 0
    {
      this.procs, this.dirs, links, objects, shadow := procs, dirs, multiset{}, 0, procs;
    }

    // Events outside.
    method Wait(es: seq<Event>)
      modifies `procs, `shadow
      ensures procs == After(old(procs), es) && shadow == After(old(shadow), es)
    {
      ghost var was := shadow;
      for i := 0 to |es|
        invariant procs == After(old(procs), es[..i]) && shadow == After(was, es[..i])
      {
        assert es[..i + 1][..i] == es[..i];
        procs := Happens(procs, es[i]);
        shadow := Happens(shadow, es[i]);
      }
      assert es[..|es|] == es;
    }

    // Writing a number to cgroup.procs moves that process, if it is alive.
    method Write(pid: nat, to: Path, fails: bool) returns (ok: bool)
      modifies `procs
      ensures ok <==> !fails && pid in old(procs)
      ensures procs == if ok then old(procs)[pid := to] else old(procs)
    {
      ok := !fails && pid in procs;
      if ok { procs := procs[pid := to]; }
    }

    // A cgroup directory can be removed only when no process is in it.
    method Remove(dir: Path, fails: bool)
      modifies `dirs
      ensures dirs == if !fails && dir !in procs.Values then old(dirs) - {dir} else old(dirs)
    {
      if !fails && dir !in procs.Values { dirs := dirs - {dir}; }
    }

    // The numbers of the processes in a directory, in some order.
    method Processes(dir: Path) returns (listed: seq<nat>)
      ensures Lists(procs, dir, listed)
    {
      listed := KeysAt(procs, dir);
    }
  }

  method KeysAt<Id(==), Dir(==)>(m: map<Id, Dir>, dir: Dir) returns (listed: seq<Id>)
    ensures forall i :: 0 <= i < |listed| ==> listed[i] in m && m[listed[i]] == dir
    ensures forall p :: p in m && m[p] == dir ==> p in listed
    ensures forall i, j :: 0 <= i < j < |listed| ==> listed[i] != listed[j]
  {
    listed := [];
    var todo := m.Keys;
    while todo != {}
      invariant todo <= m.Keys
      invariant forall i :: 0 <= i < |listed| ==> listed[i] in m && m[listed[i]] == dir && listed[i] !in todo
      invariant forall p :: p in m && m[p] == dir && p !in todo ==> p in listed
      invariant forall i, j :: 0 <= i < j < |listed| ==> listed[i] != listed[j]
    {
      var p :| p in todo;
      todo := todo - {p};
      if m[p] == dir { listed := listed + [p]; }
    }
  }

  // ---------- environment assumptions ----------

  // No directory has the name the loader will give to its own.
  ghost predicate Fresh(procs: Procs, dirs: set<Path>, pid: nat)
  {
    && (forall d :: d in dirs ==> !IsOurs(d, pid))
    && (forall p :: p in procs ==> !IsOurs(procs[p], pid))
  }

  predicate IsOurs(d: Path, pid: nat) { d.Sub? && d.name == ChildName(pid) }

  // Nobody else moves a process into a directory of that name.
  ghost predicate Foreign(pid: nat, es: seq<Event>)
  {
    forall i :: 0 <= i < |es| && es[i].Migrate? ==> !IsOurs(es[i].to, pid)
  }

  // In addition, the process stays where it is between the steps that look up
  // its cgroup and move it.
  ghost predicate Calm(pid: nat, env: seq<seq<Event>>)
  {
    && (forall i :: 0 <= i < |env| ==> Foreign(pid, env[i]))
    && Untouched(pid, At(env, 1)) && Untouched(pid, At(env, 2))
  }

  // The loader starts on a host it has not touched, and for one process nothing
  // interferes with the move.
  ghost predicate Undisturbed(host: Host, pid: nat, env: seq<seq<Event>>)
    reads host
  {
    host.procs == host.shadow && (pid == 0 || (Fresh(host.procs, host.dirs, pid) && Calm(pid, env)))
  }

  // The directory in use, if any, is the child of the original one, and the
  // processes displaced by the loader are the ones in it.
  ghost predicate Displaced(host: Host, child: Path, orig: Path)
    reads host
  {
    && child != orig && child in host.dirs
    && Renamed(host.procs, child, orig) == host.shadow
  }

  // Where the loader puts the directory for a process.
  function ChildOf(procs: Procs, pid: nat): Path
  {
    if pid in procs then Child(procs[pid], pid) else Root
  }

  // The process can be moved: no step fails, and it is alive when its cgroup is
  // looked up and when it is written to the new one.
  ghost predicate Movable(procs: Procs, pid: nat, f: Faults, env: seq<seq<Event>>)
  {
    && pid in procs && !f.lookup && !f.mkdir && !f.move
    && pid in After(After(procs, At(env, 1)), At(env, 2))
  }

  // The processes once it has been moved.
  ghost function Entered(procs: Procs, pid: nat, env: seq<seq<Event>>): Procs
  {
    After(After(procs, At(env, 1)), At(env, 2))[pid := ChildOf(procs, pid)]
  }

  // The events outside while a process is looked up, moved and attached to; and,
  // when attaching fails, while the n processes of the child are written back.
  ghost function MoveEvents(procs: Procs, pid: nat, f: Faults, env: seq<seq<Event>>, undoEnv: seq<seq<Event>>, n: nat): seq<Event>
  {
    if pid !in procs || f.lookup then []
    else if f.mkdir then At(env, 1)
    else if !Movable(procs, pid, f, env) then At(env, 1) + At(env, 2)
    else if f.egress then At(env, 1) + At(env, 2) + Upto(undoEnv, n + 1)
    else if f.ingress then At(env, 1) + At(env, 2) + At(env, 3) + Upto(undoEnv, n + 1)
    else At(env, 1) + At(env, 2) + At(env, 3)
  }

  lemma {:induction false} MovedEvents(procs: Procs, pid: nat, f: Faults, env: seq<seq<Event>>, undoEnv: seq<seq<Event>>, n: nat)
    requires Movable(procs, pid, f, env)
    ensures MoveEvents(procs, pid, f, env, undoEnv, n) ==
            At(env, 1) + At(env, 2) +
            ((if f.egress then [] else At(env, 3)) + if f.egress || f.ingress then Upto(undoEnv, n + 1) else [])
  {
  }

  ghost function AttachEvents(procs: Procs, pid: nat, f: Faults, env: seq<seq<Event>>, undoEnv: seq<seq<Event>>, n: nat): seq<Event>
  {
    if pid == 0 then (if f.egress then [] else At(env, 0))
    else At(env, 0) + MoveEvents(After(procs, At(env, 0)), pid, f, env, undoEnv, n)
  }

  // The objects can be loaded and there is an interface to watch.
  ghost predicate Loads(features: set<string>, all: Option<seq<NicRead.NetInterface>>, f: Faults)
  {
    !f.memlock && !f.load && all.Some? && exists i :: 0 <= i < |all.value| && all.value[i].name in features
  }

  // A process that lives on and is left alone is then in the directory
  // ecofloc-<pid> below the cgroup it was found in.
  lemma {:induction false} EnteredStays(procs: Procs, pid: nat, f: Faults, env: seq<seq<Event>>)
    requires Movable(procs, pid, f, env) && Untouched(pid, At(env, 3))
    ensures var end := After(Entered(procs, pid, env), At(env, 3));
      pid in end ==> end[pid] == Sub(procs[pid], "ecofloc-" + Itoa(pid)) == ChildOf(procs, pid)
  {
    hide After;
    StaysPut(Entered(procs, pid, env), pid, At(env, 3));
  }

  lemma {:induction false} StaysAlive(procs: Procs, pid: nat, es: seq<Event>)
    requires pid in procs && forall i :: 0 <= i < |es| ==> es[i] != Exit(pid)
    ensures pid in After(procs, es)
  {
    if es != [] { StaysAlive(procs, pid, es[..|es| - 1]); }
  }

  // When a loader for the target can be had.
  ghost predicate Acquires(procs: Procs, pid: nat, features: set<string>, all: Option<seq<NicRead.NetInterface>>,
    f: Faults, env: seq<seq<Event>>)
  {
    && Loads(features, all, f) && !f.egress && !f.ingress
    && (pid > 0 ==> Movable(After(procs, At(env, 0)), pid, f, env))
  }

  predicate NothingFails(pid: nat, f: Faults)
  {
    !f.memlock && !f.load && !f.egress && !f.ingress && (pid > 0 ==> !f.lookup && !f.mkdir && !f.move)
  }

  // For a process that lives on, a loader can be had exactly if nothing that is
  // done for it fails and some listed interface is configured.
  lemma {:induction false} AcquiresExactly(procs: Procs, pid: nat, features: set<string>,
    all: seq<NicRead.NetInterface>, f: Faults, env: seq<seq<Event>>)
    requires pid > 0 ==> pid in procs && forall i, j :: 0 <= i < |env| && 0 <= j < |env[i]| ==> env[i][j] != Exit(pid)
    ensures Acquires(procs, pid, features, Some(all), f, env) <==>
              (NothingFails(pid, f) && exists i :: 0 <= i < |all| && all[i].name in features)
  {
    hide After;
    if pid > 0 {
      var p0 := After(procs, At(env, 0));
      StaysAlive(procs, pid, At(env, 0));
      StaysAlive(p0, pid, At(env, 1));
      StaysAlive(After(p0, At(env, 1)), pid, At(env, 2));
    }
  }

  lemma {:induction false} StaysFresh(procs: Procs, pid: nat, es: seq<Event>)
    requires Foreign(pid, es) && forall p :: p in procs ==> !IsOurs(procs[p], pid)
    ensures forall p :: p in After(procs, es) ==> !IsOurs(After(procs, es)[p], pid)
  {
    if es != [] { StaysFresh(procs, pid, es[..|es| - 1]); }
  }

  lemma {:induction false} ForeignNone(pid: nat, child: Path, es: seq<Event>)
    requires Foreign(pid, es) && IsOurs(child, pid)
    ensures NoneInto(child, es)
  {
  }

  // A process that stayed in its cgroup can be moved to a new child of it and
  // displaces only itself.
  lemma {:induction false} Created(procs: Procs, pid: nat, es1: seq<Event>, es2: seq<Event>)
    requires pid in procs && Child(procs[pid], pid) !in procs.Values
    requires Foreign(pid, es1) && Foreign(pid, es2) && Untouched(pid, es1) && Untouched(pid, es2)
    ensures var orig, child, end := procs[pid], Child(procs[pid], pid), After(After(procs, es1), es2);
      && child !in end.Values
      && (pid in end ==> end[pid] == orig && Renamed(end[pid := child], child, orig) == end)
  {
    var orig, child, end := procs[pid], Child(procs[pid], pid), After(After(procs, es1), es2);
    ForeignNone(pid, child, es1);
    ForeignNone(pid, child, es2);
    StaysOut(procs, child, es1);
    StaysOut(After(procs, es1), child, es2);
    StaysPut(procs, pid, es1);
    StaysPut(After(procs, es1), pid, es2);
    if pid in end {
      var moved: Procs := end[pid := child];
      RenamedEmpty(end, child, orig);
      RenamedMove(moved, child, orig, pid);
      assert moved[pid := orig] == end;
    }
  }

  // What a failed attach leaves behind: nothing, unless closing the egress link
  // fails as well.
  ghost function LeftAttached(path: Path, f: Faults, undo: Undo): multiset<Link>
  {
    if !f.egress && f.ingress && EgressLink in undo.parts then multiset{Link(Egress, path)} else multiset{}
  }

  // The links of a loader that Close cannot close.
  ghost function LeftOpen(path: Path, undo: Undo): multiset<Link>
  {
    (if EgressLink in undo.parts then multiset{Link(Egress, path)} else multiset{})
    + if IngressLink in undo.parts then multiset{Link(Ingress, path)} else multiset{}
  }

  // What is left attached when the process cannot be moved or attached to.
  ghost function LeftAfterMove(procs: Procs, pid: nat, f: Faults, env: seq<seq<Event>>, undo: Undo): multiset<Link>
  {
    if Movable(procs, pid, f, env) then LeftAttached(ChildOf(procs, pid), f, undo) else multiset{}
  }

  ghost function LeftAfterAttach(procs: Procs, pid: nat, f: Faults, env: seq<seq<Event>>, undo: Undo): multiset<Link>
  {
    if pid == 0 then LeftAttached(Root, f, undo) else LeftAfterMove(After(procs, At(env, 0)), pid, f, env, undo)
  }

  // The eBPF objects left loaded: they were loaded and closing them fails.
  function LeftLoaded(features: set<string>, f: Faults, undo: Undo): nat
  {
    if features != {} && !f.memlock && !f.load && Objects in undo.parts then 1 else 0
  }

  function Unless(link: Option<Link>, fails: bool): multiset<Link>
  {
    if link.Some? && !fails then multiset{link.value} else multiset{}
  }

  lemma {:induction false} MinusTwice<T>(m: multiset<T>, x: multiset<T>, y: multiset<T>)
    ensures m - x - y == m - (x + y)
  {
  }

  lemma {:induction false} PlusMinus<T>(m: multiset<T>, x: multiset<T>, y: multiset<T>)
    ensures m + (x + y) - x == m + y
  {
  }

  // Where the programs are attached.
  ghost function PathOf(procs: Procs, pid: nat, env: seq<seq<Event>>): Path
  {
    if pid == 0 then Root else ChildOf(After(procs, At(env, 0)), pid)
  }

  // The loader owns the eBPF objects and the attached programs.
  class Loader {
    const host: Host
    var egress: Option<Link>
    var ingress: Option<Link>
    var childCgroup: Option<Path>
    var origCgroup: Option<Path>
    var configuredIfaces: NicRead.Ifaces

    constructor (host: Host, ifaces: NicRead.Ifaces)
      ensures this.host == host && configuredIfaces == ifaces
      ensures egress.None? && ingress.None? && childCgroup.None? && origCgroup.None?
    {
      this.host := host;
      egress, ingress, childCgroup, origCgroup := None, None, None, None;
      configuredIfaces := ifaces;
    }

    // What a loader in use holds: programs attached to the root, or to a child
    // cgroup made for the process.
    ghost predicate Held(pid: nat)
      reads this
    {
      if pid == 0 then Attached(Root) && childCgroup.None? && origCgroup.None?
      else
        && childCgroup.Some? && origCgroup.Some? && childCgroup.value == Child(origCgroup.value, pid)
        && Attached(childCgroup.value)
    }

    // In use: the processes displaced by the loader, and no others, are in a
    // directory that did not exist before.
    ghost predicate Monitoring(pid: nat, dirs: set<Path>)
      reads this, host
    {
      if pid == 0 then host.procs == host.shadow && host.dirs == dirs
      else
        && Held(pid) && Displaced(host, childCgroup.value, origCgroup.value)
        && childCgroup.value !in dirs && host.dirs == dirs + {childCgroup.value}
    }

    ghost function Links(): multiset<Link>
      reads this
    {
      (if egress.Some? then multiset{egress.value} else multiset{})
      + if ingress.Some? then multiset{ingress.value} else multiset{}
    }

    ghost predicate Attached(path: Path)
      reads this
    {
      egress == Some(Link(Egress, path)) && ingress == Some(Link(Ingress, path))
    }

    // Attaches both programs to a cgroup, or none, unless the first cannot be
    // closed again.
    method AttachCgroup(path: Path, f: Faults, undo: Undo, env: seq<Event>) returns (ok: bool)
      modifies `egress, `ingress, host`links, host`procs, host`shadow
      ensures ok <==> !f.egress && !f.ingress
      ensures ok ==> Attached(path) && host.links == old(host.links) + Links()
      ensures !ok ==> host.links == old(host.links) + LeftAttached(path, f, undo)
      ensures host.procs == After(old(host.procs), if f.egress then [] else env)
      ensures host.shadow == After(old(host.shadow), if f.egress then [] else env)
    {
      if f.egress {
        egress := None;
        return false;
      }
      egress := Some(Link(Egress, path));
      host.links := host.links + multiset{Link(Egress, path)};
      host.Wait(env);
      if f.ingress {
        ingress := None;
        if EgressLink !in undo.parts {
          host.links := host.links - multiset{Link(Egress, path)};
        }
        egress := None;
        return false;
      }
      ingress := Some(Link(Ingress, path));
      host.links := host.links + multiset{Link(Ingress, path)};
      return true;
    }

    // cleanupChildCgroup: writes the processes of the child back and removes it.
    method CleanupChildCgroup(f: Undo, env: seq<seq<Event>>) returns (ghost listed: seq<nat>)
      modifies host`procs, host`shadow, host`dirs
      ensures origCgroup.None? || childCgroup.None? ==>
                host.procs == old(host.procs) && host.shadow == old(host.shadow) && host.dirs == old(host.dirs)
      ensures origCgroup.Some? && childCgroup.Some? ==>
                && (if f.listing then listed == [] else Lists(old(host.procs), childCgroup.value, listed))
                && host.procs == After(MovedBack(old(host.procs), origCgroup.value, listed, f.moves, env, |listed|), At(env, |listed|))
                && host.shadow == After(old(host.shadow), Upto(env, |listed| + 1))
                && host.dirs == if f.removal || childCgroup.value in host.procs.Values
                                then old(host.dirs) else old(host.dirs) - {childCgroup.value}
      ensures origCgroup.Some? && childCgroup.Some? && old(Displaced(host, childCgroup.value, origCgroup.value))
              && f.Smooth() && QuietAll(childCgroup.value, listed, env) ==>
                host.procs == host.shadow && host.dirs == old(host.dirs) - {childCgroup.value}
    {
      hide Happens, Lists, Renamed, QuietAll, At;
      listed := [];
      if origCgroup.None? || childCgroup.None? {
        return;
      }
      var pids: seq<nat> := [];
      if !f.listing {
        pids := host.Processes(childCgroup.value);
      }
      listed := pids;
      ghost var procs, shadow := host.procs, host.shadow;
      for i := 0 to |pids|
        invariant host.procs == MovedBack(procs, origCgroup.value, pids, f.moves, env, i)
        invariant host.shadow == After(shadow, Upto(env, i))
        invariant host.dirs == old(host.dirs)
      {
        host.Wait(At(env, i));
        AfterAppend(shadow, Upto(env, i), At(env, i));
        var _ := host.Write(pids[i], origCgroup.value, pids[i] in f.moves);
      }
      host.Wait(At(env, |pids|));
      AfterAppend(shadow, Upto(env, |pids|), At(env, |pids|));
      if old(Displaced(host, childCgroup.value, origCgroup.value)) && f.Smooth()
         && QuietAll(childCgroup.value, listed, env) {
        Restored(procs, shadow, childCgroup.value, origCgroup.value, listed, env);
      }
      host.Remove(childCgroup.value, f.removal);
    }

    // createCgroupChild: a directory below the cgroup of the process, with the
    // process in it.
    static method CreateCgroupChild(host: Host, pid: nat, f: Faults, env: seq<seq<Event>>, undo: Undo)
      returns (r: Option<(Path, Path)>)
      modifies host`procs, host`shadow, host`dirs
      ensures host.shadow == After(old(host.shadow),
                if old(pid !in host.procs) || f.lookup then []
                else if f.mkdir then At(env, 1) else At(env, 1) + At(env, 2))
      ensures r.Some? <==> Movable(old(host.procs), pid, f, env)
      ensures r.Some? ==> r.value.0 == old(host.procs)[pid] && r.value.1 == Child(r.value.0, pid)
                          && host.procs == Entered(old(host.procs), pid, env)
      ensures old(host.procs == host.shadow) && old(Fresh(host.procs, host.dirs, pid)) && Calm(pid, env) ==>
                if r.Some? then Displaced(host, r.value.1, r.value.0) && host.dirs == old(host.dirs) + {r.value.1}
                else
                  && host.procs == host.shadow
                  && host.dirs == old(host.dirs) + if undo.removal && old(pid in host.procs) && !f.lookup && !f.mkdir
                                                   then {ChildOf(old(host.procs), pid)} else {}
    {
      if pid !in host.procs || f.lookup {
        return None;
      }
      var orig := host.procs[pid];
      var child := Child(orig, pid);
      ghost var start := host.procs;
      host.Wait(At(env, 1));
      if f.mkdir {
        return None;
      }
      host.dirs := host.dirs + {child};
      host.Wait(At(env, 2));
      AfterAppend(old(host.shadow), At(env, 1), At(env, 2));
      ghost var calm := old(host.procs == host.shadow) && old(Fresh(host.procs, host.dirs, pid)) && Calm(pid, env);
      if calm { Created(start, pid, At(env, 1), At(env, 2)); }
      var ok := host.Write(pid, child, f.move);
      if !ok {
        host.Remove(child, undo.removal);
        return None;
      }
      return Some((orig, child));
    }

    // Attaches the programs to the child cgroup, or gives it up.
    method AttachChild(f: Faults, env: seq<Event>, undo: Undo, undoEnv: seq<seq<Event>>)
      returns (ok: bool, ghost listed: seq<nat>)
      requires childCgroup.Some? && origCgroup.Some?
      modifies this, host
      ensures host.objects == old(host.objects) && configuredIfaces == old(configuredIfaces)
      ensures childCgroup == old(childCgroup) && origCgroup == old(origCgroup)
      ensures ok <==> !f.egress && !f.ingress
      ensures ok ==> Attached(childCgroup.value) && host.links == old(host.links) + Links()
                     && host.procs == After(old(host.procs), env)
      ensures !ok ==> host.links == old(host.links) + LeftAttached(childCgroup.value, f, undo)
      ensures host.shadow == After(old(host.shadow),
                (if f.egress then [] else env) + if ok then [] else Upto(undoEnv, |listed| + 1))
      ensures old(Displaced(host, childCgroup.value, origCgroup.value)) && NoneInto(childCgroup.value, env) ==>
                && (ok ==> Displaced(host, childCgroup.value, origCgroup.value) && host.dirs == old(host.dirs))
                && (!ok && undo.Smooth() && QuietAll(childCgroup.value, listed, undoEnv) ==>
                    host.procs == host.shadow && host.dirs == old(host.dirs) - {childCgroup.value})
    {
      hide After, Happens, Renamed, MovedBack, Lists, Upto, QuietAll, NoneInto, LeftAttached, Links;
      listed := [];
      ghost var child, orig := childCgroup.value, origCgroup.value;
      ok := AttachCgroup(childCgroup.value, f, undo, env);
      ghost var seen := if f.egress then [] else env;
      NoneIntoNothing(child);
      if NoneInto(child, env) { RenamedAfter(old(host.procs), child, orig, seen); }
      assert seen + [] == seen;
      if !ok {
        listed := CleanupChildCgroup(undo, undoEnv);
        AfterAppend(old(host.shadow), seen, Upto(undoEnv, |listed| + 1));
      }
    }

    // The part of NewLoader for one process: programs attached to a child cgroup
    // that holds it, or everything as it would be without the loader.
    method AttachToProcess(pid: nat, f: Faults, env: seq<seq<Event>>, undo: Undo, undoEnv: seq<seq<Event>>)
      returns (ok: bool, ghost listed: seq<nat>)
      requires pid > 0
      modifies this, host
      ensures host.objects == old(host.objects) && configuredIfaces == old(configuredIfaces)
      ensures !ok ==>
                host.links == old(host.links) + LeftAfterMove(old(host.procs), pid, f, env, undo)
      ensures ok <==> Movable(old(host.procs), pid, f, env) && !f.egress && !f.ingress
      ensures host.shadow == After(old(host.shadow), MoveEvents(old(host.procs), pid, f, env, undoEnv, |listed|))
      ensures ok ==> childCgroup == Some(ChildOf(old(host.procs), pid))
      ensures ok ==> Held(pid) && host.links == old(host.links) + Links()
                     && host.procs == After(Entered(old(host.procs), pid, env), At(env, 3))
      ensures old(host.procs == host.shadow) && old(Fresh(host.procs, host.dirs, pid)) && Calm(pid, env) ==>
                && (ok ==> Displaced(host, childCgroup.value, origCgroup.value)
                           && host.dirs == old(host.dirs) + {childCgroup.value}
                           && childCgroup.value !in old(host.dirs))
                && (!ok && undo.Smooth() && QuietAll(ChildOf(old(host.procs), pid), listed, undoEnv) ==>
                    host.procs == host.shadow && host.dirs == old(host.dirs))
    {
      hide After, Happens, Renamed, MovedBack, Lists, Upto, QuietAll, Untouched, LeftAttached, Links;
      listed := [];
      ghost var child := ChildOf(host.procs, pid);
      ghost var calm := host.procs == host.shadow && Fresh(host.procs, host.dirs, pid) && Calm(pid, env);
      var r := CreateCgroupChild(host, pid, f, env, undo);
      AfterNothing(old(host.shadow));
      if r.None? {
        return false, [];
      }
      origCgroup, childCgroup := Some(r.value.0), Some(r.value.1);
      if calm { ForeignNone(pid, child, At(env, 3)); }
      ok, listed := AttachChild(f, At(env, 3), undo, undoEnv);
      AfterAppend(old(host.shadow), At(env, 1) + At(env, 2),
                  (if f.egress then [] else At(env, 3)) + if ok then [] else Upto(undoEnv, |listed| + 1));
      MovedEvents(old(host.procs), pid, f, env, undoEnv, |listed|);
    }

    // The part of NewLoader that attaches the programs.
    method AttachTarget(pid: nat, f: Faults, env: seq<seq<Event>>, undo: Undo, undoEnv: seq<seq<Event>>)
      returns (ok: bool, ghost listed: seq<nat>)
      requires childCgroup.None? && origCgroup.None?
      modifies this, host
      ensures host.objects == old(host.objects) && configuredIfaces == old(configuredIfaces)
      ensures !ok ==>
                host.links == old(host.links) + LeftAfterAttach(old(host.procs), pid, f, env, undo)
      ensures ok ==> Held(pid) && host.links == old(host.links) + Links()
      ensures ok <==> !f.egress && !f.ingress && (pid > 0 ==> Movable(After(old(host.procs), At(env, 0)), pid, f, env))
      ensures ok && pid > 0 ==>
                && childCgroup == Some(ChildOf(After(old(host.procs), At(env, 0)), pid))
                && host.procs == After(Entered(After(old(host.procs), At(env, 0)), pid, env), At(env, 3))
      ensures host.shadow == After(old(host.shadow), AttachEvents(old(host.procs), pid, f, env, undoEnv, |listed|))
      ensures old(Undisturbed(host, pid, env)) ==>
                && (ok ==> Monitoring(pid, old(host.dirs)))
                && (!ok && undo.Smooth() && QuietAll(ChildOf(After(old(host.procs), At(env, 0)), pid), listed, undoEnv) ==>
                    host.procs == host.shadow && host.dirs == old(host.dirs))
    {
      hide Renamed, MoveEvents, Entered, Movable, Upto, LeftAttached, LeftAfterMove, Links;
      listed := [];
      if pid == 0 {
        ok := AttachCgroup(Root, f, undo, At(env, 0));
        return ok, [];
      }
      host.Wait(At(env, 0));
      if old(host.procs == host.shadow) && old(Fresh(host.procs, host.dirs, pid)) && Calm(pid, env) {
        StaysFresh(old(host.procs), pid, At(env, 0));
      }
      ok, listed := AttachToProcess(pid, f, env, undo, undoEnv);
      AfterAppend(old(host.shadow), At(env, 0),
                  MoveEvents(After(old(host.procs), At(env, 0)), pid, f, env, undoEnv, |listed|));
    }

    // NewLoader; all is what listing the network interfaces gave.  Without a
    // result, whatever was acquired has been released again, but for what could
    // not be.
    static method NewLoader(host: Host, pid: nat, features: set<string>, all: Option<seq<NicRead.NetInterface>>,
      f: Faults, env: seq<seq<Event>>, undo: Undo, undoEnv: seq<seq<Event>>)
      returns (l: Loader?, ghost listed: seq<nat>)
      modifies host
      ensures l == null && Loads(features, all, f) ==>
                host.links == old(host.links) + LeftAfterAttach(old(host.procs), pid, f, env, undo)
      ensures l == null && !Loads(features, all, f) ==> host.links == old(host.links)
      ensures l == null ==> host.objects == old(host.objects) + LeftLoaded(features, f, undo)
      ensures l != null <==> Acquires(old(host.procs), pid, features, all, f, env)
      ensures l != null && pid > 0 ==>
                && l.childCgroup == Some(ChildOf(After(old(host.procs), At(env, 0)), pid))
                && host.procs == After(Entered(After(old(host.procs), At(env, 0)), pid, env), At(env, 3))
      ensures host.shadow == After(old(host.shadow),
                if Loads(features, all, f) then AttachEvents(old(host.procs), pid, f, env, undoEnv, |listed|) else [])
      ensures l != null ==> fresh(l) && l.host == host && l.Held(pid) && host.objects == old(host.objects) + 1
      ensures l != null ==> host.links == old(host.links) + l.Links()
      ensures l != null ==> l.configuredIfaces != map[] && NicRead.Injective(l.configuredIfaces)
                            && forall k :: k in l.configuredIfaces ==> l.configuredIfaces[k] in features
      ensures old(Undisturbed(host, pid, env)) ==>
                && (l != null ==> l.Monitoring(pid, old(host.dirs)))
                && (l == null && undo.Smooth() && QuietAll(ChildOf(After(old(host.procs), At(env, 0)), pid), listed, undoEnv) ==>
                    host.procs == host.shadow && host.dirs == old(host.dirs))
    {
      hide Loader.Held, Loader.Monitoring, Loader.Links, Fresh, Calm, QuietAll, ChildOf, Movable, Entered, Happens, AttachEvents,
           LeftAfterAttach;
      listed := [];
      if features == {} || f.memlock || f.load {
        return null, [];
      }
      host.objects := host.objects + 1;
      if all.None? {
        CloseObjects(host, undo);
        return null, [];
      }
      var ifaces := NicRead.ResolveInterfaces(features, all.value);
      if ifaces == map[] {
        CloseObjects(host, undo);
        return null, [];
      }
      l := new Loader(host, ifaces);
      var ok;
      ok, listed := l.AttachTarget(pid, f, env, undo, undoEnv);
      if !ok {
        CloseObjects(host, undo);
        return null, listed;
      }
    }

    static method CloseObjects(host: Host, undo: Undo)
      requires host.objects > 0
      modifies host`objects
      ensures host.objects == old(host.objects) - if Objects in undo.parts then 0 else 1
    {
      if Objects !in undo.parts {
        host.objects := host.objects - 1;
      }
    }

    // Nothing but outside events while the loader is in use.
    method Watch(es: seq<Event>, ghost pid: nat, ghost dirs: set<Path>)
      modifies host`procs, host`shadow
      ensures host.procs == After(old(host.procs), es) && host.shadow == After(old(host.shadow), es)
      ensures old(Monitoring(pid, dirs)) && Foreign(pid, es) ==> Monitoring(pid, dirs)
    {
      hide After, Renamed;
      host.Wait(es);
      if old(Monitoring(pid, dirs)) && Foreign(pid, es) && pid > 0 {
        ForeignNone(pid, childCgroup.value, es);
        RenamedAfter(old(host.procs), childCgroup.value, origCgroup.value, es);
      }
    }

    // The links that a Close releases: those held whose closing does not fail.
    ghost function Closable(undo: Undo): multiset<Link>
      reads this
    {
      Unless(egress, EgressLink in undo.parts) + Unless(ingress, IngressLink in undo.parts)
    }

    method CloseLink(link: Option<Link>, fails: bool) returns (failed: bool)
      modifies host`links
      ensures failed <==> link.Some? && fails
      ensures host.links == old(host.links) - Unless(link, fails)
    {
      failed := link.Some? && fails;
      if link.Some? && !fails {
        host.links := host.links - multiset{link.value};
      }
    }

    // The links part of Close.
    method CloseLinks(undo: Undo) returns (firstErr: Option<Part>)
      modifies host`links
      ensures firstErr == if egress.Some? && EgressLink in undo.parts then Some(EgressLink)
                          else if ingress.Some? && IngressLink in undo.parts then Some(IngressLink) else None
      ensures host.links == old(host.links) - Closable(undo)
    {
      hide Unless;
      firstErr := None;
      ghost var links := host.links;
      var failed := CloseLink(egress, EgressLink in undo.parts);
      if failed && firstErr == None {
        firstErr := Some(EgressLink);
      }
      failed := CloseLink(ingress, IngressLink in undo.parts);
      if failed && firstErr == None {
        firstErr := Some(IngressLink);
      }
      MinusTwice(links, Unless(egress, EgressLink in undo.parts), Unless(ingress, IngressLink in undo.parts));
    }

    // Releases everything; a failure is reported but does not stop the rest.
    method Close(undo: Undo, env: seq<seq<Event>>, ghost pid: nat, ghost dirs: set<Path>)
      returns (firstErr: Option<Part>, ghost listed: seq<nat>)
      requires host.objects > 0
      modifies host
      ensures firstErr == if egress.Some? && EgressLink in undo.parts then Some(EgressLink)
                          else if ingress.Some? && IngressLink in undo.parts then Some(IngressLink)
                          else if Objects in undo.parts then Some(Objects) else None
      ensures host.links == old(host.links) - Closable(undo)
      ensures host.objects == old(host.objects) - if Objects in undo.parts then 0 else 1
      ensures host.shadow == After(old(host.shadow),
                if childCgroup.Some? && origCgroup.Some? then Upto(env, |listed| + 1) else [])
      ensures old(Monitoring(pid, dirs)) && Held(pid) && undo.Smooth()
              && (childCgroup.Some? ==> QuietAll(childCgroup.value, listed, env)) ==>
                host.procs == host.shadow && host.dirs == dirs
    {
      hide Happens, After, MovedBack, QuietAll, Upto, Lists, Renamed, Closable;
      listed := [];
      AfterNothing(host.shadow);
      firstErr := CloseLinks(undo);
      if childCgroup.Some? {
        listed := CleanupChildCgroup(undo, env);
      }
      CloseObjects(host, undo);
      if Objects in undo.parts && firstErr == None {
        firstErr := Some(Objects);
      }
    }
  }

  // Everything that happens outside from Start to Stop, n being the number of
  // processes written back.
  ghost function SessionEvents(procs: Procs, pid: nat, features: set<string>, all: Option<seq<NicRead.NetInterface>>,
    f: Faults, env: seq<seq<Event>>, measured: seq<Event>, undoEnv: seq<seq<Event>>, n: nat): seq<Event>
  {
    if !Loads(features, all, f) then []
    else if !Acquires(procs, pid, features, all, f, env) then AttachEvents(procs, pid, f, env, undoEnv, n)
    else AttachEvents(procs, pid, f, env, undoEnv, n) + measured + if pid > 0 then Upto(undoEnv, n + 1) else []
  }

  // The events while attaching do not depend on what is written back later.
  lemma {:induction false} AttachedEvents(procs: Procs, pid: nat, features: set<string>,
    all: Option<seq<NicRead.NetInterface>>, f: Faults, env: seq<seq<Event>>, undoEnv: seq<seq<Event>>, n: nat, n': nat)
    requires Acquires(procs, pid, features, all, f, env)
    ensures AttachEvents(procs, pid, f, env, undoEnv, n) == AttachEvents(procs, pid, f, env, undoEnv, n')
  {
  }

  // What a session cannot release: the parts whose closing fails, if it held them.
  ghost function LeftBehind(procs: Procs, pid: nat, features: set<string>, all: Option<seq<NicRead.NetInterface>>,
    f: Faults, env: seq<seq<Event>>, undo: Undo): multiset<Link>
  {
    if Acquires(procs, pid, features, all, f, env) then LeftOpen(PathOf(procs, pid, env), undo)
    else if Loads(features, all, f) then LeftAfterAttach(procs, pid, f, env, undo)
    else multiset{}
  }

  lemma {:induction false} NothingLeftBehind(procs: Procs, pid: nat, features: set<string>,
    all: Option<seq<NicRead.NetInterface>>, f: Faults, env: seq<seq<Event>>, undo: Undo)
    requires undo.parts == {}
    ensures LeftBehind(procs, pid, features, all, f, env, undo) == multiset{}
  {
  }

  // What remains of the host's links once a loader is closed.
  lemma {:induction false} StillOpen(l: Loader, links: multiset<Link>, path: Path, undo: Undo)
    requires l.Attached(path)
    ensures links + l.Links() - l.Closable(undo) == links + LeftOpen(path, undo)
  {
    assert l.Links() == l.Closable(undo) + LeftOpen(path, undo);
    PlusMinus(links, l.Closable(undo), LeftOpen(path, undo));
  }

  // How the method uses a loader: Start makes one and gives it back when the
  // baseline cannot be read; Stop closes it.  Whatever happens outside, programs
  // and objects are released, but for those whose closing fails.  If the child
  // can be given up and nothing interferes with the moves, every process ends up
  // where the outside events alone would have left it, and the directories are
  // the same.
  method Session(host: Host, pid: nat, features: set<string>, all: Option<seq<NicRead.NetInterface>>,
    f: Faults, env: seq<seq<Event>>, baselineFails: bool, during: seq<Event>, undo: Undo, undoEnv: seq<seq<Event>>)
    returns (started: bool, ghost listed: seq<nat>)
    modifies host
    ensures started <==> old(Acquires(host.procs, pid, features, all, f, env)) && !baselineFails
    ensures host.links == old(host.links) + LeftBehind(old(host.procs), pid, features, all, f, env, undo)
    ensures host.objects == old(host.objects) + LeftLoaded(features, f, undo)
    ensures undo.parts == {} ==> host.links == old(host.links) && host.objects == old(host.objects)
    ensures old(Undisturbed(host, pid, env)) && Foreign(pid, during) && undo.Smooth()
            && QuietAll(ChildOf(After(old(host.procs), At(env, 0)), pid), listed, undoEnv) ==>
              && host.dirs == old(host.dirs)
              && host.procs == After(old(host.procs), SessionEvents(old(host.procs), pid, features, all, f, env,
                                                                    if baselineFails then [] else during, undoEnv, |listed|))
  {
    hide Happens, After, Fresh, Calm, QuietAll, AttachEvents, Loads, Upto, Loader.Monitoring, Foreign, Acquires,
         Movable, LeftAfterAttach, LeftOpen, ChildOf, Loader.Links, Loader.Closable;
    ghost var dirs, procs, shadow := host.dirs, host.procs, host.shadow;
    if undo.parts == {} { NothingLeftBehind(procs, pid, features, all, f, env, undo); }
    var l;
    l, listed := Loader.NewLoader(host, pid, features, all, f, env, undo, undoEnv);
    AcquiresLoads(procs, pid, features, all, f, env);
    if l == null {
      return false, listed;
    }
    ghost var undone := |listed|;
    ghost var attaching := AttachEvents(procs, pid, f, env, undoEnv, undone);
    ghost var measured := if baselineFails then [] else during;
    if !baselineFails {
      l.Watch(during, pid, dirs);
    }
    AfterNothing(After(shadow, attaching));
    AfterAppend(shadow, attaching, measured);
    StillOpen(l, old(host.links), PathOf(procs, pid, env), undo);
    var closeErr;
    closeErr, listed := l.Close(undo, undoEnv, pid, dirs);
    AfterAppend(shadow, attaching + measured, if pid > 0 then Upto(undoEnv, |listed| + 1) else []);
    AttachedEvents(procs, pid, features, all, f, env, undoEnv, undone, |listed|);
    return !baselineFails, listed;
  }

  lemma {:induction false} AcquiresLoads(procs: Procs, pid: nat, features: set<string>,
    all: Option<seq<NicRead.NetInterface>>, f: Faults, env: seq<seq<Event>>)
    ensures Acquires(procs, pid, features, all, f, env) ==> Loads(features, all, f) && features != {} && !f.memlock && !f.load
  {
  }
}
