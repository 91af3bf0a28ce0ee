// The CPU measurement from the scheduler's events to the reported energy.
module CpuSystem {
  import opened Core
  import opened Sums
  import opened Reals
  import opened PowerModel
  import opened PowerLaws
  import opened CpuMethod
  import opened Sampling
  import K = CpuKernel

  type Handlers = seq<K.Handler>

  // ---------- power of a sample ----------

  // A method configured from features reports, at every tick at which sensors
  // show no more than TDP level, a power between 0 and 0.7 TDP for every physical
  // core with an eligible virtual core.
  lemma {:induction false} SamplePowerBound(f: Features, pid: nat, cadence: real, realCoreOf: seq<int>,
      st: State, o: Observation, r: Reply, bound: real)
    requires f.Usable() && cadence > 0.0
    requires var c := Configure(pid, cadence, f, realCoreOf); Fits(c, o) && CpuMethod.Replies(c, st, o, r)
    requires Chip(realCoreOf, o.volts, o.freqs).Valid() && BelowTDP(f, Chip(realCoreOf, o.volts, o.freqs))
    requires IsTimes(|Chip(realCoreOf, o.volts, o.freqs).Cores(|realCoreOf|)| as real, 0.7 * f.tdp, bound)
    ensures r.Batch? ==> |r.samples| == 1 && 0.0 <= r.samples[0].powerW <= bound
  {
    hide Energy, Weights, IsTimes, BelowTDP;
    if r.Batch? {
      var c := Configure(pid, cadence, f, realCoreOf);
      var chip := Chip(realCoreOf, o.volts, o.freqs);
      PowerBound(f, chip, Deltas(st.lastReadMap, o.read.value), Elapsed(o.now, st.lastReadTime, cadence),
                 Weights(c.chipCapacitance, chip), r.samples[0].powerW, bound);
    }
  }

  // ---------- energy over a run of the system ----------

  // Seconds accounted on virtual core v from one moment of the kernel to another.
  ghost function AccountedSeconds(target: K.u32, from: Handlers, to: Handlers, v: nat): real
    requires v < 0x1_0000_0000
  {
    (K.RunTime(target, to, v) as int - K.RunTime(target, from, v) as int) as real / 1000000000.0
  }

  ghost function AccountedTimes(chip: Chip, target: K.u32, from: Handlers, to: Handlers, id: int): map<nat, real>
    requires chip.Valid()
  {
    map v | v in chip.Members(id, chip.Size()) :: AccountedSeconds(target, from, to, v)
  }

  // Energy of what was accounted on each physical core, as the model charges it
  // for one interval of the given length.
  ghost function AccountedCharge(power: real, chip: Chip, target: K.u32, from: Handlers, to: Handlers, length: real, id: int): real
    requires chip.Valid()
  {
    Capped(power, SumValues(AccountedTimes(chip, target, from, to, id)), length)
  }

  ghost function AccountedEnergy(w: map<int, real>, chip: Chip, target: K.u32, from: Handlers, to: Handlers, length: real): real
    requires chip.Valid()
  {
    SumValues(map id | id in w.Keys :: AccountedCharge(w[id], chip, target, from, to, length, id))
  }

  // The method's readings are those of the kernel, baseline first, under a clock
  // that advances.
  ghost predicate Feeds(s: K.System, rs: seq<Reading>)
  {
    && |s.readings| == |rs| > 0
    && (forall i :: 0 <= i < |rs| ==> rs[i].values == s.readings[i].values)
    && forall i :: 0 < i < |rs| ==> rs[i - 1].time < rs[i].time
  }

  // Successive scans give what the sampling laws ask for.
  lemma {:induction false} ReadingsAreSampled(u: K.Setup, run: seq<K.Action>, rs: seq<Reading>)
    requires K.Reliable(u) && K.NoOverflow(K.Exec(u, run)) && Feeds(K.Exec(u, run), rs)
    ensures Sampled(rs)
  {
    hide K.Exec, K.Between;
    K.ReadsAreTotals(u, run);
    var s := K.Exec(u, run);
    forall i | 0 < i < |rs| ensures Sampling.Grows(rs[i - 1], rs[i]) {
      assert K.Grows(s.readings[i - 1].values, s.readings[i].values);
      forall cpu ensures CpuMethod.At(rs[i - 1].values, cpu) <= CpuMethod.At(rs[i].values, cpu) {
        assert K.At(s.readings[i - 1].values, cpu) <= K.At(s.readings[i].values, cpu);
      }
    }
  }

  // What two scans tell about a virtual core lies between what was accounted
  // inside and around them.
  lemma {:induction false} SecondsBetweenScans(s: K.System, a: K.Reading, b: K.Reading, v: K.u32)
    requires K.Between(s, a, v) && K.Between(s, b, v)
    requires CpuMethod.At(a.values, v) <= CpuMethod.At(b.values, v)
    ensures AccountedSeconds(s.target, a.end, b.begin, v) <= Seconds(Deltas(a.values, b.values), v)
            <= AccountedSeconds(s.target, a.begin, b.end, v)
  {
    DeltaOf(a.values, b.values, v);
    assert K.At(Deltas(a.values, b.values), v) == CpuMethod.At(Deltas(a.values, b.values), v);
    assert K.At(a.values, v) == CpuMethod.At(a.values, v) && K.At(b.values, v) == CpuMethod.At(b.values, v);
  }

  lemma {:induction false} CoreBetweenScans(s: K.System, chip: Chip, a: K.Reading, b: K.Reading, id: int)
    requires chip.Valid()
    requires forall v: K.u32 :: K.Between(s, a, v) && K.Between(s, b, v)
    requires forall v: K.u32 :: CpuMethod.At(a.values, v) <= CpuMethod.At(b.values, v)
    ensures SumValues(AccountedTimes(chip, s.target, a.end, b.begin, id))
            <= RunTime(chip, Deltas(a.values, b.values), id, chip.Size())
            <= SumValues(AccountedTimes(chip, s.target, a.begin, b.end, id))
  {
    hide AccountedSeconds, Seconds, K.Between, Deltas, CpuMethod.At;
    var low := AccountedTimes(chip, s.target, a.end, b.begin, id);
    var mid := RunTimes(chip, Deltas(a.values, b.values), id, chip.Size());
    var high := AccountedTimes(chip, s.target, a.begin, b.end, id);
    forall v | v in mid ensures low[v] <= mid[v] <= high[v] {
      var cpu: K.u32 := v;
      assert K.Between(s, a, cpu) && K.Between(s, b, cpu) && CpuMethod.At(a.values, cpu) <= CpuMethod.At(b.values, cpu);
      SecondsBetweenScans(s, a, b, cpu);
    }
    SumAtMost(low, mid);
    SumAtMost(mid, high);
  }

  lemma {:induction false} CappedMonotone(power: real, r: real, r': real, length: real)
    requires power >= 0.0 && r <= r'
    ensures Capped(power, r, length) <= Capped(power, r', length)
  {
    MulNonNegative(power, Min(r', length) - Min(r, length));
  }

  // One tick between two scans charges something between what was accounted
  // inside and around them.
  lemma {:induction false} EnergyBetweenScans(s: K.System, w: map<int, real>, chip: Chip, a: K.Reading, b: K.Reading, length: real)
    requires chip.Valid() && forall id :: id in w ==> w[id] > 0.0
    requires forall v: K.u32 :: K.Between(s, a, v) && K.Between(s, b, v)
    requires forall v: K.u32 :: CpuMethod.At(a.values, v) <= CpuMethod.At(b.values, v)
    ensures AccountedEnergy(w, chip, s.target, a.end, b.begin, length)
            <= Energy(w, chip, Deltas(a.values, b.values), length)
            <= AccountedEnergy(w, chip, s.target, a.begin, b.end, length)
  {
    hide Capped, RunTime, AccountedTimes, K.Between, Deltas, CpuMethod.At;
    var low := map id | id in w.Keys :: AccountedCharge(w[id], chip, s.target, a.end, b.begin, length, id);
    var mid := CoreEnergies(w, chip, Deltas(a.values, b.values), length);
    var high := map id | id in w.Keys :: AccountedCharge(w[id], chip, s.target, a.begin, b.end, length, id);
    forall id | id in w ensures low[id] <= mid[id] <= high[id] {
      CoreBetweenScans(s, chip, a, b, id);
      var r := RunTime(chip, Deltas(a.values, b.values), id, chip.Size());
      CappedMonotone(w[id], SumValues(AccountedTimes(chip, s.target, a.end, b.begin, id)), r, length);
      CappedMonotone(w[id], r, SumValues(AccountedTimes(chip, s.target, a.begin, b.end, id)), length);
    }
    SumAtMost(low, mid);
    SumAtMost(mid, high);
  }

  // For every interleaving of scheduler events and scans, and every run of the
  // method on these readings with failing ticks in between: the total is at most
  // the energy of what was accounted around the first and the last scan, and where
  // the clamp is one-sided on every core at least that of what was accounted
  // between them.
  lemma {:induction false} EndToEnd(u: K.Setup, run: seq<K.Action>, c: Config, st: State, chip: Chip, obs: seq<Observation>)
    requires K.Reliable(u) && K.NoOverflow(K.Exec(u, run))
    requires c.Valid() && st.loaded && SteadySensors(c, chip, obs)
    requires forall i :: 0 <= i < |obs| ==> Fits(c, obs[i])
    requires Feeds(K.Exec(u, run), Successes(Reading(st.lastReadMap, st.lastReadTime), obs))
    ensures var s := K.Exec(u, run);
            var rs := Successes(Reading(st.lastReadMap, st.lastReadTime), obs);
            var first, last := s.readings[0], s.readings[|rs| - 1];
            var length := rs[|rs| - 1].time - rs[0].time;
            var w := Weights(c.chipCapacitance, chip);
            var reported := Sampling.AfterRun(c, st, obs).totalEnergyJ - st.totalEnergyJ;
      && reported <= AccountedEnergy(w, chip, s.target, first.begin, last.end, length)
      && ((forall id :: id in w ==> OneSided(chip, rs, id)) ==>
            AccountedEnergy(w, chip, s.target, first.end, last.begin, length) <= reported)
  {
    hide K.Exec, K.Between, Energy, Weights, AccountedEnergy, OneSided, Fits, Deltas;
    var s := K.Exec(u, run);
    var rs := Successes(Reading(st.lastReadMap, st.lastReadTime), obs);
    var n := |rs| - 1;
    ReadingsAreSampled(u, run, rs);
    K.ReadsAreTotals(u, run);
    RunAtMostOneTick(c, st, chip, obs);
    SampledEnds(rs);
    WeightsPositive(c.chipCapacitance, chip);
    EnergyBetweenScans(s, Weights(c.chipCapacitance, chip), chip, s.readings[0], s.readings[n], rs[n].time - rs[0].time);
  }
}
