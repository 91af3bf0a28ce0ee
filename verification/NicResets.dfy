// The NIC method when its counters are reset behind its back, by histories of
// what happens to every counter.
module NicResets {
  import opened Counters
  import opened Sums
  import opened NicRead
  import opened NicMethod

  // What happens to the two counters of an interface.
  datatype History = History(rx: seq<Event>, tx: seq<Event>)

  // The readings show the counters of an interface at the reads of its history.
  ghost predicate ShowsInterface(readings: seq<Snapshot>, name: string, h: History)
    requires |readings| > 0
  {
    var baseline := At(readings[0], name);
    && |Shown(baseline.rx, h.rx)| == |readings| == |Shown(baseline.tx, h.tx)|
    && forall i :: 0 <= i < |readings| ==>
         At(readings[i], name).rx == Shown(baseline.rx, h.rx)[i] && At(readings[i], name).tx == Shown(baseline.tx, h.tx)[i]
  }

  ghost predicate Shows(features: Features, readings: seq<Snapshot>, hs: map<string, History>)
  {
    && |readings| > 0 && features.Keys <= hs.Keys
    && forall name :: name in features ==> ShowsInterface(readings, name, hs[name])
  }

  // The readings of a run: the reference it starts from and every successful one.
  function Readings(last: Snapshot, obs: seq<Observation>): (rs: seq<Snapshot>)
    ensures |rs| > 0 && rs[0] == last
    decreases |obs|
  {
    if obs == [] then [last]
    else if obs[0].read.Some? then [last] + Readings(obs[0].read.value, obs[1..])
    else Readings(last, obs[1..])
  }

  // The bytes of every interface between baseline and reading k.
  ghost function BytesAt(features: Features, readings: seq<Snapshot>, hs: map<string, History>, k: nat): map<string, Bytes>
    requires Shows(features, readings, hs) && k < |readings|
  {
    map name | name in features.Keys :: BytesOf(readings, name, hs[name], k)
  }

  ghost function BytesOf(readings: seq<Snapshot>, name: string, h: History, k: nat): Bytes
    requires |readings| > 0 && ShowsInterface(readings, name, h) && k < |readings|
  {
    var baseline := At(readings[0], name);
    Bytes(CountedAt(baseline.rx, h.rx)[k], CountedAt(baseline.tx, h.tx)[k])
  }

  lemma {:induction false} InterfaceExplained(readings: seq<Snapshot>, name: string, h: History, k: nat)
    requires |readings| > 0 && ShowsInterface(readings, name, h) && 0 < k < |readings|
    ensures var t, t' := BytesOf(readings, name, h, k - 1), BytesOf(readings, name, h, k);
      && t.rx <= t'.rx && t.tx <= t'.tx
      && Plausible(At(readings[k - 1], name).rx, At(readings[k], name).rx, t'.rx - t.rx)
      && Plausible(At(readings[k - 1], name).tx, At(readings[k], name).tx, t'.tx - t.tx)
  {
    hide Plausible, At, Shown, CountedAt, Counters.After;
    ReadsPlausible(At(readings[0], name).rx, h.rx);
    ReadsPlausible(At(readings[0], name).tx, h.tx);
  }

  lemma {:induction false} ReadingExplained(features: Features, readings: seq<Snapshot>, hs: map<string, History>, k: nat)
    requires Shows(features, readings, hs) && 0 < k < |readings|
    ensures Explained(features, readings[k - 1], BytesAt(features, readings, hs, k - 1),
                      readings[k], BytesAt(features, readings, hs, k))
  {
    hide Plausible, At, ShowsInterface, BytesOf;
    forall name | name in features
      ensures var t, t' := BytesOf(readings, name, hs[name], k - 1), BytesOf(readings, name, hs[name], k);
        && t.rx <= t'.rx && t.tx <= t'.tx
        && Plausible(At(readings[k - 1], name).rx, At(readings[k], name).rx, t'.rx - t.rx)
        && Plausible(At(readings[k - 1], name).tx, At(readings[k], name).tx, t'.tx - t.tx)
    {
      InterfaceExplained(readings, name, hs[name], k);
    }
  }

  // The bytes at every observation from reading k on.
  ghost function Spread(features: Features, readings: seq<Snapshot>, hs: map<string, History>, k: nat, obs: seq<Observation>):
    (ts: seq<map<string, Bytes>>)
    requires Shows(features, readings, hs) && k < |readings| && Readings(readings[k], obs) == readings[k..]
    ensures |ts| == |obs|
    decreases |obs|
  {
    if obs == [] then []
    else if obs[0].read.Some? then
      NextReading(readings, k, obs);
      [BytesAt(features, readings, hs, k + 1)] + Spread(features, readings, hs, k + 1, obs[1..])
    else [BytesAt(features, readings, hs, k)] + Spread(features, readings, hs, k, obs[1..])
  }

  lemma {:induction false} NextReading(readings: seq<Snapshot>, k: nat, obs: seq<Observation>)
    requires k < |readings| && obs != [] && obs[0].read.Some? && Readings(readings[k], obs) == readings[k..]
    ensures k + 1 < |readings| && readings[k + 1] == obs[0].read.value
    ensures Readings(readings[k + 1], obs[1..]) == readings[k + 1..]
  {
    var rest := Readings(obs[0].read.value, obs[1..]);
    assert readings[k..] == [readings[k]] + rest;
    assert readings[k..][1..] == rest && readings[k + 1..] == readings[k..][1..];
    assert rest[0] == readings[k + 1];
  }

  lemma {:induction false} HistoriesExplain(c: Config, readings: seq<Snapshot>, hs: map<string, History>, k: nat, obs: seq<Observation>)
    requires Shows(c.features, readings, hs) && k < |readings| && Readings(readings[k], obs) == readings[k..]
    ensures var t, truth := BytesAt(c.features, readings, hs, k), Spread(c.features, readings, hs, k, obs);
      && AllExplained(c, readings[k], t, obs, truth)
      && LastTruth(t, obs, truth) == BytesAt(c.features, readings, hs, |readings| - 1)
    decreases |obs|
  {
    hide BytesAt, Explained, Shows;
    if obs == [] {
      assert readings[k..] == [readings[k]];
    } else if obs[0].read.Some? {
      NextReading(readings, k, obs);
      ReadingExplained(c.features, readings, hs, k + 1);
      HistoriesExplain(c, readings, hs, k + 1, obs[1..]);
      assert Spread(c.features, readings, hs, k, obs)[1..] == Spread(c.features, readings, hs, k + 1, obs[1..]);
    } else {
      HistoriesExplain(c, readings, hs, k, obs[1..]);
      assert Spread(c.features, readings, hs, k, obs)[1..] == Spread(c.features, readings, hs, k, obs[1..]);
    }
  }

  // Whatever happens to the counters of the interfaces, resets at any time
  // included, and whichever reads fail, the energy charged is at most that of the
  // bytes counted between the baseline and the last successful read.
  lemma {:induction false} NeverOverCharges(c: Config, st: State, obs: seq<Observation>, hs: map<string, History>)
    requires c.Valid() && Covered(c, obs) && st.loaded
    requires Shows(c.features, Readings(st.lastRead, obs), hs)
    ensures var rs := Readings(st.lastRead, obs);
      AfterRun(c, st, obs).totalEnergyJ - st.totalEnergyJ <=
      SumValues(TrueCosts(c.features, BytesAt(c.features, rs, hs, 0), BytesAt(c.features, rs, hs, |rs| - 1)))
  {
    var rs := Readings(st.lastRead, obs);
    assert rs[0..] == rs;
    HistoriesExplain(c, rs, hs, 0, obs);
    NicMethod.NeverOverCharges(c, st, BytesAt(c.features, rs, hs, 0), obs, Spread(c.features, rs, hs, 0, obs));
  }
}
