// The eBPF hash map shared by the kernel handlers and user space.
//
// A lookup hands out a pointer to an entry, and the handlers keep that pointer
// across later steps.  Entries are therefore modelled as numbered cells that
// never move: an update that replaces an entry leaves the old cell behind, and
// whoever still holds its number writes to a cell no lookup can reach.
module BpfMaps {
  import opened Options

  datatype BpfMap<K, V> = BpfMap(index: map<K, nat>, cells: seq<V>)
  {
    ghost predicate Valid()
    {
      && (forall k :: k in index ==> index[k] < |cells|)
      && (forall j, k :: j in index && k in index && j != k ==> index[j] != index[k])
    }

    function Lookup(k: K): Option<nat>
    {
      if k in index then Some(index[k]) else None
    }

    // bpf_map_update_elem with BPF_NOEXIST: refuses a key that is present, and
    // a new key when the map is full.
    function UpdateNoExist(k: K, v: V, maxEntries: nat): BpfMap<K, V>
    {
      if k in index || |index| >= maxEntries then this
      else BpfMap(index[k := |cells|], cells + [v])
    }

    // bpf_map_update_elem with BPF_ANY: replaces the entry of a present key by
    // a new one, and refuses a new key when the map is full.
    function UpdateAny(k: K, v: V, maxEntries: nat): BpfMap<K, V>
    {
      if k !in index && |index| >= maxEntries then this
      else BpfMap(index[k := |cells|], cells + [v])
    }

    function Store(c: nat, v: V): BpfMap<K, V>
      requires c < |cells|
    {
      BpfMap(index, cells[c := v])
    }
  }

  function Empty<K, V>(): BpfMap<K, V> { BpfMap(map[], []) }

  // One entry returned by the iterator, and the history of the kernel at the
  // moment its value was copied.
  datatype Entry<K, V, H> = Entry(key: K, value: V, at: H)

  // An iteration over the map, one entry at a time.  Entries are never deleted,
  // so every key that was present when the iteration began is visited before it
  // ends; keys inserted meanwhile may or may not be.
  datatype Scan<K, V, H> = Scan(begin: H, must: set<K>, entries: seq<Entry<K, V, H>>)
  {
    predicate Saw(k: K) { exists i | 0 <= i < |entries| :: entries[i].key == k }

    predicate Complete() { forall k | k in must :: Saw(k) }
  }
}
