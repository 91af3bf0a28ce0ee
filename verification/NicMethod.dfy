// The NIC measurement method: cumulative byte counters differenced into energy.
module NicMethod {
  import opened Options
  import opened Core
  import opened Counters
  import opened Sums
  import opened NicRead

  datatype PerInterface = PerInterface(
    uploadPower: real, downloadPower: real, uploadMaxRate: real, downloadMaxRate: real)
  {
    // The check loadFeatures makes on every interface.
    predicate Usable()
    {
      uploadPower > 0.0 && downloadPower > 0.0 && uploadMaxRate > 0.0 && downloadMaxRate > 0.0
    }
  }

  type Features = map<string, PerInterface>

  datatype Config = Config(pid: nat, cadence: real, features: Features)
  {
    ghost predicate Valid()
    {
      cadence > 0.0 && forall name :: name in features ==> features[name].Usable()
    }
  }

  // A counter that is missing from a reading counts as 0, like Go's zero value.
  function At(s: Snapshot, name: string): NicKernel.Metrics
  {
    if name in s then s[name] else NicKernel.Metrics(0, 0)
  }

  // ---------- energy of a number of bytes ----------

  // Energy of rx bytes received and tx bytes sent on one interface.
  function Cost(f: PerInterface, rx: int, tx: int): real
    requires f.Usable()
  {
    f.uploadPower / (1000.0 * f.uploadMaxRate) * tx as real +
    f.downloadPower / (1000.0 * f.downloadMaxRate) * rx as real
  }

  // The rates are in KB/s: sending at the full upload rate for some seconds costs
  // the upload power for these seconds, and receiving likewise.
  lemma {:induction false} CostAtFullRate(f: PerInterface, bytes: int, seconds: real)
    requires f.Usable()
    ensures bytes as real == 1000.0 * f.uploadMaxRate * seconds ==> Cost(f, 0, bytes) == f.uploadPower * seconds
    ensures bytes as real == 1000.0 * f.downloadMaxRate * seconds ==> Cost(f, bytes, 0) == f.downloadPower * seconds
  {
    FullRate(f.uploadPower, f.uploadMaxRate, seconds);
    FullRate(f.downloadPower, f.downloadMaxRate, seconds);
  }

  lemma {:induction false} FullRate(power: real, maxRate: real, seconds: real)
    requires maxRate > 0.0
    ensures power / (1000.0 * maxRate) * (1000.0 * maxRate * seconds) == power * seconds
  {
    var rate := 1000.0 * maxRate;
    var c := power / rate;
    assert c * rate == power;
    assert c * (rate * seconds) == (c * rate) * seconds;
  }

  // Energy of one interface between two of its readings.
  function Charge(f: PerInterface, prev: NicKernel.Metrics, cur: NicKernel.Metrics): real
    requires f.Usable()
  {
    Cost(f, Delta(prev.rx, cur.rx), Delta(prev.tx, cur.tx))
  }

  ghost function Costs(features: Features, prev: Snapshot, cur: Snapshot): map<string, real>
    requires cur.Keys <= features.Keys && forall name :: name in features ==> features[name].Usable()
  {
    map name | name in cur.Keys :: Charge(features[name], At(prev, name), cur[name])
  }

  // Energy of the bytes by which reading cur exceeds reading prev.  No time in it.
  ghost function Joules(features: Features, prev: Snapshot, cur: Snapshot): real
    requires cur.Keys <= features.Keys && forall name :: name in features ==> features[name].Usable()
  {
    SumValues(Costs(features, prev, cur))
  }

  // ---------- the method's arithmetic ----------

  function DirectionPower(power: real, maxRate: real, delta: nat, elapsed: real): real
    requires maxRate > 0.0 && elapsed > 0.0
  {
    var rateKBps := (delta as real / elapsed) / 1000.0;
    power * (rateKBps / maxRate)
  }

  lemma {:induction false} DirectionEnergy(power: real, maxRate: real, delta: nat, elapsed: real)
    requires maxRate > 0.0 && elapsed > 0.0
    ensures IsTimes(elapsed, DirectionPower(power, maxRate, delta, elapsed),
                    power / (1000.0 * maxRate) * delta as real)
  {
    var t := delta as real;
    var q1 := t / elapsed;
    var q2 := q1 / 1000.0;
    var q3 := q2 / maxRate;
    var c := power / (1000.0 * maxRate);
    calc {
      elapsed * (power * q3);
    == { assert c * (1000.0 * maxRate) == power; }
      elapsed * ((c * (1000.0 * maxRate)) * q3);
    ==
      elapsed * (c * (1000.0 * (q3 * maxRate)));
    == { assert q3 * maxRate == q2; }
      elapsed * (c * (1000.0 * q2));
    ==
      c * (q1 * elapsed);
    ==
      c * t;
    }
  }

  lemma {:induction false} InterfaceEnergy(f: PerInterface, rx: nat, tx: nat, elapsed: real)
    requires f.Usable() && elapsed > 0.0
    ensures IsTimes(elapsed,
                    DirectionPower(f.uploadPower, f.uploadMaxRate, tx, elapsed) +
                    DirectionPower(f.downloadPower, f.downloadMaxRate, rx, elapsed),
                    Cost(f, rx, tx))
  {
    DirectionEnergy(f.uploadPower, f.uploadMaxRate, tx, elapsed);
    DirectionEnergy(f.downloadPower, f.downloadMaxRate, rx, elapsed);
    TimesAdd(elapsed,
             DirectionPower(f.uploadPower, f.uploadMaxRate, tx, elapsed),
             DirectionPower(f.downloadPower, f.downloadMaxRate, rx, elapsed),
             f.uploadPower / (1000.0 * f.uploadMaxRate) * tx as real,
             f.downloadPower / (1000.0 * f.downloadMaxRate) * rx as real);
  }

  // ---------- state and specification of one Measure ----------

  datatype State = State(loaded: bool, lastRead: Snapshot, lastReadTime: real, totalEnergyJ: real)

  // A Measure that reads cur makes it the new reference and adds the energy of
  // the byte deltas to the total.  A failed read changes nothing.
  ghost function AfterMeasure(c: Config, st: State, now: real, read: Option<Snapshot>): State
    requires c.Valid() && (read.Some? ==> read.value.Keys <= c.features.Keys)
  {
    if !st.loaded || read.None? then st
    else st.(lastRead := read.value, lastReadTime := now,
             totalEnergyJ := st.totalEnergyJ + Joules(c.features, st.lastRead, read.value))
  }

  // What that Measure replies: the energy of the deltas and their average power.
  ghost predicate Replies(c: Config, st: State, now: real, read: Option<Snapshot>, r: Reply)
    requires c.Valid() && (read.Some? ==> read.value.Keys <= c.features.Keys)
  {
    if !st.loaded || read.None? then r == Failed
    else Reports(r, "nic", c.pid, now, Elapsed(now, st.lastReadTime, c.cadence), Joules(c.features, st.lastRead, read.value))
  }

  lemma {:induction false} AddInterface(f: PerInterface, prev: NicKernel.Metrics, cur: NicKernel.Metrics, elapsed: real,
                     avgPower: real, total: real, done: map<string, real>, name: string)
    requires f.Usable() && elapsed > 0.0 && name !in done
    requires avgPower ==
               DirectionPower(f.uploadPower, f.uploadMaxRate, Delta(prev.tx, cur.tx), elapsed) +
               DirectionPower(f.downloadPower, f.downloadMaxRate, Delta(prev.rx, cur.rx), elapsed)
    requires IsTimes(elapsed, total, SumValues(done))
    ensures IsTimes(elapsed, total + avgPower, SumValues(done[name := Charge(f, prev, cur)]))
  {
    InterfaceEnergy(f, Delta(prev.rx, cur.rx), Delta(prev.tx, cur.tx), elapsed);
    TimesAdd(elapsed, total, avgPower, SumValues(done), Charge(f, prev, cur));
    SumInsert(done, name, Charge(f, prev, cur));
  }

  // The loop of Measure over the interfaces, in whatever order the map gives.
  method TotalPower(c: Config, lastRead: Snapshot, current: Snapshot, elapsed: real) returns (totalPowerW: real)
    requires c.Valid() && current.Keys <= c.features.Keys && elapsed > 0.0
    ensures IsTimes(elapsed, totalPowerW, Joules(c.features, lastRead, current))
  {
    totalPowerW := 0.0;
    ghost var costs := Costs(c.features, lastRead, current);
    ghost var done: map<string, real> := map[];
    var todo := current.Keys;
    while todo != {}
      invariant todo <= current.Keys
      invariant done.Keys == current.Keys - todo
      invariant forall name :: name in done ==> done[name] == costs[name]
      invariant IsTimes(elapsed, totalPowerW, SumValues(done))
    {
      var name :| name in todo;
      var counters := current[name];
      var prev := At(lastRead, name);
      if counters.rx < prev.rx {
        prev := prev.(rx := 0);
      }
      if counters.tx < prev.tx {
        prev := prev.(tx := 0);
      }
      var rxDelta: nat := counters.rx - prev.rx;
      var txDelta: nat := counters.tx - prev.tx;
      var f := c.features[name];
      var uploadPower := DirectionPower(f.uploadPower, f.uploadMaxRate, txDelta, elapsed);
      var downloadPower := DirectionPower(f.downloadPower, f.downloadMaxRate, rxDelta, elapsed);
      var avgPower := uploadPower + downloadPower;
      AddInterface(f, At(lastRead, name), counters, elapsed, avgPower, totalPowerW, done, name);
      totalPowerW := totalPowerW + avgPower;
      done := done[name := costs[name]];
      todo := todo - {name};
    }
    assert done == costs;
  }

  class EbpfMethod {
    const cfg: Config
    var loaded: bool
    var lastRead: Snapshot
    var lastReadTime: real
    var totalEnergyJ: real

    function View(): State
      reads this
    {
      State(loaded, lastRead, lastReadTime, totalEnergyJ)
    }

    constructor (c: Config)
      ensures cfg == c && View() == State(false, map[], 0.0, 0.0)
    {
      cfg := c;
      loaded, lastRead, lastReadTime, totalEnergyJ := false, map[], 0.0, 0.0;
    }

    // loaderOk is the outcome of NewLoader, read that of the baseline read.
    method Start(loaderOk: bool, now: real, read: Option<Snapshot>) returns (ok: bool)
      modifies this
      ensures ok <==> loaderOk && read.Some?
      ensures ok ==> View() == State(true, read.value, now, old(totalEnergyJ))
      ensures !loaderOk ==> View() == old(View())
      ensures loaderOk && !ok ==> View() == State(false, map[], now, old(totalEnergyJ))
    {
      if !loaderOk {
        return false;
      }
      loaded := true;
      lastReadTime := now;
      if read.None? {
        lastRead := map[];
        loaded := false;
        return false;
      }
      lastRead := read.value;
      return true;
    }

    method Measure(now: real, read: Option<Snapshot>) returns (r: Reply)
      requires cfg.Valid() && (read.Some? ==> read.value.Keys <= cfg.features.Keys)
      modifies this
      ensures View() == AfterMeasure(cfg, old(View()), now, read)
      ensures Replies(cfg, old(View()), now, read, r)
    {
      if !loaded {
        return Failed;
      }
      var elapsed := now - lastReadTime;
      if elapsed <= 0.0 {
        elapsed := cfg.cadence;
      }
      if read.None? {
        return Failed;
      }
      var current := read.value;

      var totalPowerW := TotalPower(cfg, lastRead, current, elapsed);
      var energyJ := totalPowerW * elapsed;
      assert IsTimes(elapsed, totalPowerW, energyJ);

      totalEnergyJ := totalEnergyJ + energyJ;
      lastRead := current;
      lastReadTime := now;
      return Batch([Sample("nic", cfg.pid, now, totalPowerW, energyJ)]);
    }

    // Stop reports the total; whether it also has a loader to close.
    method Stop() returns (reported: real, closes: bool)
      ensures reported == totalEnergyJ && closes == loaded
    {
      return totalEnergyJ, loaded;
    }
  }

  // ---------- differences add up ----------

  ghost predicate Grows(s: Snapshot, s': Snapshot)
  {
    && s.Keys <= s'.Keys
    && forall name :: name in s ==> s[name].rx <= s'[name].rx && s[name].tx <= s'[name].tx
  }

  lemma {:induction false} CostAdd(f: PerInterface, rx: int, tx: int, rx': int, tx': int)
    requires f.Usable()
    ensures Cost(f, rx, tx) + Cost(f, rx', tx') == Cost(f, rx + rx', tx + tx')
  {
    var u, d := f.uploadPower / (1000.0 * f.uploadMaxRate), f.downloadPower / (1000.0 * f.downloadMaxRate);
    assert u * (tx + tx') as real == u * tx as real + u * tx' as real;
    assert d * (rx + rx') as real == d * rx as real + d * rx' as real;
  }

  lemma {:induction false} CostMonotone(f: PerInterface, rx: int, tx: int, rx': int, tx': int)
    requires f.Usable() && rx <= rx' && tx <= tx'
    ensures Cost(f, rx, tx) <= Cost(f, rx', tx')
    ensures Cost(f, 0, 0) == 0.0
  {
    var u, d := f.uploadPower / (1000.0 * f.uploadMaxRate), f.downloadPower / (1000.0 * f.downloadMaxRate);
    assert u > 0.0 && d > 0.0;
    assert u * (tx' - tx) as real >= 0.0 && d * (rx' - rx) as real >= 0.0;
    CostAdd(f, rx, tx, rx' - rx, tx' - tx);
  }

  lemma {:induction false} ChargeTelescope(f: PerInterface, p: NicKernel.Metrics, q: NicKernel.Metrics, r: NicKernel.Metrics)
    requires f.Usable() && p.rx <= q.rx <= r.rx && p.tx <= q.tx <= r.tx
    ensures Charge(f, p, r) == Charge(f, p, q) + Charge(f, q, r)
  {
    CostAdd(f, q.rx - p.rx, q.tx - p.tx, r.rx - q.rx, r.tx - q.tx);
  }

  lemma {:induction false} ChargeNothing(f: PerInterface)
    requires f.Usable()
    ensures Charge(f, NicKernel.Metrics(0, 0), NicKernel.Metrics(0, 0)) == 0.0
  {
  }

  lemma {:induction false} TelescopeAt(features: Features, base: Snapshot, last: Snapshot, cur: Snapshot, name: string)
    requires name in features && features[name].Usable() && name in cur && Grows(base, last) && Grows(last, cur)
    ensures Charge(features[name], At(base, name), cur[name]) ==
            (if name in last then Charge(features[name], At(base, name), last[name]) else 0.0)
            + Charge(features[name], At(last, name), cur[name])
  {
    hide Charge;
    ChargeTelescope(features[name], At(base, name), At(last, name), cur[name]);
    ChargeNothing(features[name]);
  }

  // Over growing readings the energies of consecutive intervals add up to the
  // energy of the whole, so intermediate readings do not matter.
  lemma {:induction false} Telescope(features: Features, base: Snapshot, last: Snapshot, cur: Snapshot)
    requires forall name :: name in features ==> features[name].Usable()
    requires cur.Keys <= features.Keys && Grows(base, last) && Grows(last, cur)
    ensures Joules(features, base, last) + Joules(features, last, cur) == Joules(features, base, cur)
  {
    var a := Costs(features, base, last);
    var a' := map name | name in cur.Keys :: if name in a then a[name] else 0.0;
    var b := Costs(features, last, cur);
    var c := Costs(features, base, cur);
    hide Charge;
    forall name | name in c ensures c[name] == a'[name] + b[name] {
      TelescopeAt(features, base, last, cur, name);
    }
    SumExtend(a, a');
    SumAdd(a', b, c);
  }

  // ---------- whole runs of Measure ----------

  datatype Observation = Observation(now: real, read: Option<Snapshot>)

  // The successful readings of a run, each against the one before it.
  ghost predicate Growing(last: Snapshot, obs: seq<Observation>)
    decreases |obs|
  {
    if obs == [] then true
    else match obs[0].read
      case None => Growing(last, obs[1..])
      case Some(cur) => Grows(last, cur) && Growing(cur, obs[1..])
  }

  ghost predicate Covered(c: Config, obs: seq<Observation>)
  {
    forall i :: 0 <= i < |obs| && obs[i].read.Some? ==> obs[i].read.value.Keys <= c.features.Keys
  }

  // The state after a run of Measure from st.
  ghost function AfterRun(c: Config, st: State, obs: seq<Observation>): State
    requires c.Valid() && Covered(c, obs)
    decreases |obs|
  {
    if obs == [] then st else AfterRun(c, AfterMeasure(c, st, obs[0].now, obs[0].read), obs[1..])
  }

  // However many ticks there were, whenever they came and whichever failed, the
  // total is the energy of last reading minus baseline.
  lemma {:induction false} TotalIsLastMinusBaseline(c: Config, base: Snapshot, st: State, obs: seq<Observation>)
    requires c.Valid() && Covered(c, obs) && st.loaded
    requires Grows(base, st.lastRead) && st.lastRead.Keys <= c.features.Keys
    requires Growing(st.lastRead, obs)
    requires st.totalEnergyJ == Joules(c.features, base, st.lastRead)
    ensures var st' := AfterRun(c, st, obs);
      st'.lastRead.Keys <= c.features.Keys && st'.totalEnergyJ == Joules(c.features, base, st'.lastRead)
    decreases |obs|
  {
    if obs != [] {
      var mid := AfterMeasure(c, st, obs[0].now, obs[0].read);
      if obs[0].read.Some? {
        Telescope(c.features, base, st.lastRead, obs[0].read.value);
      }
      TotalIsLastMinusBaseline(c, base, mid, obs[1..]);
    }
  }

  // ---------- counters reset while measuring ----------

  // Bytes that really went over each interface since some fixed moment.
  datatype Bytes = Bytes(rx: nat, tx: nat)

  ghost function TrueCosts(features: Features, t: map<string, Bytes>, t': map<string, Bytes>): map<string, real>
    requires forall name :: name in features ==> features[name].Usable()
    requires features.Keys <= t.Keys && features.Keys <= t'.Keys
  {
    map name | name in features.Keys :: Cost(features[name], t'[name].rx - t[name].rx, t'[name].tx - t[name].tx)
  }

  // Two readings and the true amounts at those moments: each counter either
  // moved by the amount, or was reset in between and shows a part of it.
  ghost predicate Explained(features: Features, last: Snapshot, t: map<string, Bytes>, cur: Snapshot, t': map<string, Bytes>)
  {
    && features.Keys <= t.Keys && features.Keys <= t'.Keys
    && forall name :: name in features ==>
         && t[name].rx <= t'[name].rx && t[name].tx <= t'[name].tx
         && Plausible(At(last, name).rx, At(cur, name).rx, t'[name].rx - t[name].rx)
         && Plausible(At(last, name).tx, At(cur, name).tx, t'[name].tx - t[name].tx)
  }

  lemma {:induction false} ChargeAtMost(f: PerInterface, p: NicKernel.Metrics, q: NicKernel.Metrics, rx: nat, tx: nat)
    requires f.Usable() && Plausible(p.rx, q.rx, rx) && Plausible(p.tx, q.tx, tx)
    ensures 0.0 <= Charge(f, p, q) <= Cost(f, rx, tx)
  {
    DeltaAtMost(p.rx, q.rx, rx);
    DeltaAtMost(p.tx, q.tx, tx);
    CostMonotone(f, Delta(p.rx, q.rx), Delta(p.tx, q.tx), rx, tx);
    CostMonotone(f, 0, 0, Delta(p.rx, q.rx), Delta(p.tx, q.tx));
  }

  lemma {:induction false} IntervalAtMostTrue(features: Features, last: Snapshot, t: map<string, Bytes>, cur: Snapshot, t': map<string, Bytes>)
    requires forall name :: name in features ==> features[name].Usable()
    requires cur.Keys <= features.Keys && Explained(features, last, t, cur, t')
    ensures Joules(features, last, cur) <= SumValues(TrueCosts(features, t, t'))
  {
    var a := Costs(features, last, cur);
    var a' := map name | name in features.Keys :: if name in a then a[name] else 0.0;
    var b := TrueCosts(features, t, t');
    forall name | name in b ensures a'[name] <= b[name] {
      ChargeAtMost(features[name], At(last, name), At(cur, name), t'[name].rx - t[name].rx, t'[name].tx - t[name].tx);
    }
    SumExtend(a, a');
    SumAtMost(a', b);
  }

  lemma {:induction false} TrueCostsAdd(features: Features, t: map<string, Bytes>, t': map<string, Bytes>, t'': map<string, Bytes>)
    requires forall name :: name in features ==> features[name].Usable()
    requires features.Keys <= t.Keys && features.Keys <= t'.Keys && features.Keys <= t''.Keys
    ensures SumValues(TrueCosts(features, t, t')) + SumValues(TrueCosts(features, t', t'')) ==
            SumValues(TrueCosts(features, t, t''))
  {
    var a, b, c := TrueCosts(features, t, t'), TrueCosts(features, t', t''), TrueCosts(features, t, t'');
    forall name | name in c ensures c[name] == a[name] + b[name] {
      CostAdd(features[name], t'[name].rx - t[name].rx, t'[name].tx - t[name].tx,
              t''[name].rx - t'[name].rx, t''[name].tx - t'[name].tx);
    }
    SumAdd(a, b, c);
  }

  // truth[i] are the true amounts when observation i was made.
  ghost predicate AllExplained(c: Config, last: Snapshot, t: map<string, Bytes>, obs: seq<Observation>, truth: seq<map<string, Bytes>>)
    requires |obs| == |truth|
    decreases |obs|
  {
    if obs == [] then true
    else match obs[0].read
      case None => AllExplained(c, last, t, obs[1..], truth[1..])
      case Some(cur) =>
        Explained(c.features, last, t, cur, truth[0]) && AllExplained(c, cur, truth[0], obs[1..], truth[1..])
  }

  // The true amounts at the last successful reading.
  ghost function LastTruth(t: map<string, Bytes>, obs: seq<Observation>, truth: seq<map<string, Bytes>>): map<string, Bytes>
    requires |obs| == |truth|
    decreases |obs|
  {
    if obs == [] then t else LastTruth(if obs[0].read.Some? then truth[0] else t, obs[1..], truth[1..])
  }

  // Resets at arbitrary times never make the method charge for more bytes than
  // really went over the interfaces since the baseline.
  lemma {:induction false} NeverOverCharges(c: Config, st: State, t: map<string, Bytes>, obs: seq<Observation>,
                                            truth: seq<map<string, Bytes>>)
    requires c.Valid() && Covered(c, obs) && |obs| == |truth| && st.loaded
    requires c.features.Keys <= t.Keys
    requires AllExplained(c, st.lastRead, t, obs, truth)
    ensures c.features.Keys <= LastTruth(t, obs, truth).Keys
    ensures AfterRun(c, st, obs).totalEnergyJ - st.totalEnergyJ <= SumValues(TrueCosts(c.features, t, LastTruth(t, obs, truth)))
    decreases |obs|
  {
    if obs == [] {
      NoBytesNoCost(c.features, t);
    } else {
      var mid := AfterMeasure(c, st, obs[0].now, obs[0].read);
      if obs[0].read.Some? {
        IntervalAtMostTrue(c.features, st.lastRead, t, obs[0].read.value, truth[0]);
        NeverOverCharges(c, mid, truth[0], obs[1..], truth[1..]);
        TrueCostsAdd(c.features, t, truth[0], LastTruth(t, obs, truth));
      } else {
        NeverOverCharges(c, mid, t, obs[1..], truth[1..]);
      }
    }
  }

  lemma {:induction false} NoBytesNoCost(features: Features, t: map<string, Bytes>)
    requires forall name :: name in features ==> features[name].Usable()
    requires features.Keys <= t.Keys
    ensures SumValues(TrueCosts(features, t, t)) == 0.0
  {
    var a := TrueCosts(features, t, t);
    forall name | name in a ensures a[name] == 0.0 {
      CostMonotone(features[name], 0, 0, 0, 0);
    }
    SumZero(a);
  }
}
