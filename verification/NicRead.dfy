// The half of the NIC loader that turns the kernel map into named counters.
module NicRead {
  import opened Options
  import opened BpfMaps
  import NicKernel

  type Metrics = NicKernel.Metrics
  type u32 = NicKernel.u32

  type Ifaces = map<u32, string>

  // A cumulative reading: [rx, tx] per configured interface name.
  type Snapshot = map<string, Metrics>

  ghost predicate Injective(ifaces: Ifaces)
  {
    forall j, k :: j in ifaces && k in ifaces && ifaces[j] == ifaces[k] ==> j == k
  }

  // What the kernel reports about one interface.
  datatype NetInterface = NetInterface(name: string, index: u32)

  // The last index listed under a name wins, as in nameToIdx.
  function NameToIdx(all: seq<NetInterface>): map<string, u32>
  {
    if all == [] then map[] else NameToIdx(all[..|all| - 1])[all[|all| - 1].name := all[|all| - 1].index]
  }

  // Entry i is the last one of its name.
  ghost predicate IsLatest(all: seq<NetInterface>, i: int)
  {
    0 <= i < |all| && forall j :: i < j < |all| ==> all[j].name != all[i].name
  }

  // The last entry of a name, or -1.
  function Latest(all: seq<NetInterface>, name: string): (i: int)
    ensures -1 <= i < |all|
    ensures i >= 0 ==> all[i].name == name && IsLatest(all, i)
    ensures forall j :: i < j < |all| ==> all[j].name != name
  {
    if all == [] then -1
    else if all[|all| - 1].name == name then |all| - 1
    else Latest(all[..|all| - 1], name)
  }

  // A name has an index exactly if it is listed, and then that of its last entry.
  lemma {:induction false} NameToIdxMeans(all: seq<NetInterface>, name: string)
    ensures name in NameToIdx(all) <==> Latest(all, name) >= 0
    ensures name in NameToIdx(all) ==> NameToIdx(all)[name] == all[Latest(all, name)].index
  {
    if all != [] { NameToIdxMeans(all[..|all| - 1], name); }
  }

  // An interface the user configured, as the kernel lists it now.
  ghost predicate Listed(features: set<string>, all: seq<NetInterface>, name: string, index: u32)
  {
    name in features && exists i :: IsLatest(all, i) && all[i] == NetInterface(name, index)
  }

  // resolveInterfaces: every index leads to a configured interface that is listed
  // with it, every configured interface that is listed is found, and no two
  // indexes share a name.
  method ResolveInterfaces(features: set<string>, all: seq<NetInterface>) returns (ifaces: Ifaces)
    ensures forall k :: k in ifaces ==> Listed(features, all, ifaces[k], k)
    ensures forall i :: IsLatest(all, i) && all[i].name in features ==> all[i].index in ifaces
    ensures ifaces == map[] <==> forall i :: 0 <= i < |all| ==> all[i].name !in features
    ensures Injective(ifaces)
  {
    var nameToIdx: map<string, u32> := map[];
    for i := 0 to |all|
      invariant nameToIdx == NameToIdx(all[..i])
    {
      assert all[..i + 1][..i] == all[..i];
      nameToIdx := nameToIdx[all[i].name := all[i].index];
    }
    assert all[..|all|] == all;
    ifaces := map[];
    var todo := features;
    while todo != {}
      invariant todo <= features
      invariant forall k :: k in ifaces ==>
                  ifaces[k] in features && ifaces[k] in nameToIdx && nameToIdx[ifaces[k]] == k
      invariant forall name :: name in features - todo && name in nameToIdx ==> nameToIdx[name] in ifaces
    {
      var name :| name in todo;
      todo := todo - {name};
      if name in nameToIdx {
        ifaces := ifaces[nameToIdx[name] := name];
      }
    }
    forall k | k in ifaces ensures Listed(features, all, ifaces[k], k) && exists i :: 0 <= i < |all| && all[i].name in features {
      NameToIdxMeans(all, ifaces[k]);
      assert all[Latest(all, ifaces[k])] == NetInterface(ifaces[k], k);
    }
    forall i | 0 <= i < |all| && all[i].name in features ensures ifaces != map[] {
      NameToIdxMeans(all, all[i].name);
      assert nameToIdx[all[i].name] in ifaces;
    }
    forall i | IsLatest(all, i) && all[i].name in features ensures all[i].index in ifaces {
      NameToIdxMeans(all, all[i].name);
    }
  }

  // What the iterator yields, entry by entry, folded into the result of Read.
  ghost function Named<H>(ifaces: Ifaces, entries: seq<Entry<u32, Metrics, H>>): Snapshot
  {
    if entries == [] then map[] else
      var e := entries[|entries| - 1];
      var out := Named(ifaces, entries[..|entries| - 1]);
      if e.key in ifaces then out[ifaces[e.key] := e.value] else out
  }

  method Read<H>(ifaces: Ifaces, entries: seq<Entry<u32, Metrics, H>>, iterErr: bool) returns (r: Option<Snapshot>)
    ensures r == if iterErr then None else Some(Named(ifaces, entries))
  {
    var out: Snapshot := map[];
    for i := 0 to |entries|
      invariant out == Named(ifaces, entries[..i])
    {
      assert entries[..i + 1][..i] == entries[..i];
      var key, val := entries[i].key, entries[i].value;
      if key !in ifaces {
        continue;
      }
      out := out[ifaces[key] := val];
    }
    assert entries[..|entries|] == entries;
    if iterErr {
      return None;
    }
    return Some(out);
  }

  // With one entry per key and one name per index, a name carries exactly the
  // value read for its index.
  lemma {:induction false} NamedLookup<H>(ifaces: Ifaces, entries: seq<Entry<u32, Metrics, H>>, k: u32)
    requires Injective(ifaces) && k in ifaces
    requires forall i, j :: 0 <= i < j < |entries| ==> entries[i].key != entries[j].key
    ensures ifaces[k] in Named(ifaces, entries) <==> exists i :: 0 <= i < |entries| && entries[i].key == k
    ensures forall i :: 0 <= i < |entries| && entries[i].key == k ==> Named(ifaces, entries)[ifaces[k]] == entries[i].value
  {
    if entries != [] {
      var n := |entries| - 1;
      NamedLookup(ifaces, entries[..n], k);
      assert forall i :: 0 <= i < n ==> entries[..n][i] == entries[i];
      if entries[n].key == k {
      } else {
        assert ifaces[k] in Named(ifaces, entries) <==> ifaces[k] in Named(ifaces, entries[..n]);
        if exists i :: 0 <= i < |entries| && entries[i].key == k {
          var i :| 0 <= i < |entries| && entries[i].key == k;
          assert entries[..n][i].key == k;
        }
      }
    }
  }

  lemma {:induction false} NamedOnlyConfigured<H>(ifaces: Ifaces, entries: seq<Entry<u32, Metrics, H>>, name: string)
    requires name in Named(ifaces, entries)
    ensures exists k :: k in ifaces && ifaces[k] == name
  {
    var n := |entries| - 1;
    if !(entries[n].key in ifaces && ifaces[entries[n].key] == name) {
      NamedOnlyConfigured(ifaces, entries[..n], name);
    }
  }
}
