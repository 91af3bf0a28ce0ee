// How often a run is sampled matters only through the clamp: finer sampling
// never reports more CPU energy.
module Sampling {
  import opened Sums
  import opened Reals
  import opened PowerModel
  import PowerLaws
  import opened CpuMethod

  datatype Reading = Reading(values: Times, time: real)

  // No counter decreased, a missing one being 0.
  ghost predicate Grows(a: Reading, b: Reading)
  {
    forall cpu :: At(a.values, cpu) <= At(b.values, cpu)
  }

  // Successive readings of growing counters under an advancing clock.
  ghost predicate Sampled(rs: seq<Reading>)
  {
    && |rs| > 0
    && forall i :: 0 < i < |rs| ==> Grows(rs[i - 1], rs[i]) && rs[i - 1].time < rs[i].time
  }

  lemma {:induction false} SampledEnds(rs: seq<Reading>)
    requires Sampled(rs)
    ensures Grows(rs[0], rs[|rs| - 1]) && rs[0].time <= rs[|rs| - 1].time
    ensures |rs| > 1 ==> rs[0].time < rs[|rs| - 1].time
  {
    if |rs| > 1 {
      var n := |rs| - 1;
      SampledEnds(rs[..n]);
      assert Grows(rs[n - 1], rs[n]);
    }
  }

  // Run time of a physical core between two readings.
  ghost function RunBetween(chip: Chip, a: Reading, b: Reading, id: int): real
    requires chip.Valid()
  {
    RunTime(chip, Deltas(a.values, b.values), id, chip.Size())
  }

  lemma {:induction false} SecondsBetween(a: Reading, b: Reading, c: Reading, v: nat)
    requires Grows(a, b) && Grows(b, c) && v < 0x1_0000_0000
    ensures Seconds(Deltas(a.values, c.values), v) ==
            Seconds(Deltas(a.values, b.values), v) + Seconds(Deltas(b.values, c.values), v)
  {
    var cpu: u32 := v;
    assert At(a.values, cpu) <= At(b.values, cpu) <= At(c.values, cpu);
  }

  lemma {:induction false} RunAdds(chip: Chip, a: Reading, b: Reading, c: Reading, id: int)
    requires chip.Valid() && Grows(a, b) && Grows(b, c)
    ensures RunBetween(chip, a, c, id) == RunBetween(chip, a, b, id) + RunBetween(chip, b, c, id)
  {
    var x := RunTimes(chip, Deltas(a.values, b.values), id, chip.Size());
    var y := RunTimes(chip, Deltas(b.values, c.values), id, chip.Size());
    var z := RunTimes(chip, Deltas(a.values, c.values), id, chip.Size());
    forall v | v in z ensures z[v] == x[v] + y[v] {
      SecondsBetween(a, b, c, v);
    }
    SumAdd(x, y, z);
  }

  lemma {:induction false} RunOfNothing(chip: Chip, a: Reading, id: int)
    requires chip.Valid()
    ensures RunBetween(chip, a, a, id) == 0.0
  {
    SumZero(RunTimes(chip, Deltas(a.values, a.values), id, chip.Size()));
  }

  // ---------- clamping tick by tick ----------

  // What one tick looks like to one core.
  datatype Tick = Tick(run: real, length: real)

  function TotalRun(ts: seq<Tick>): real
  {
    if ts == [] then 0.0 else TotalRun(ts[..|ts| - 1]) + ts[|ts| - 1].run
  }

  function TotalLength(ts: seq<Tick>): real
  {
    if ts == [] then 0.0 else TotalLength(ts[..|ts| - 1]) + ts[|ts| - 1].length
  }

  function TotalClamped(ts: seq<Tick>): real
  {
    if ts == [] then 0.0 else TotalClamped(ts[..|ts| - 1]) + Min(ts[|ts| - 1].run, ts[|ts| - 1].length)
  }

  // In no tick does the summed run time exceed the tick.
  predicate NeverOver(ts: seq<Tick>) { forall i :: 0 <= i < |ts| ==> ts[i].run <= ts[i].length }

  // In every tick it does, or fills it exactly.
  predicate NeverUnder(ts: seq<Tick>) { forall i :: 0 <= i < |ts| ==> ts[i].run >= ts[i].length }

  lemma {:induction false} ClampedAtMostRun(ts: seq<Tick>)
    ensures TotalClamped(ts) <= TotalRun(ts)
    ensures TotalClamped(ts) == TotalRun(ts) <==> NeverOver(ts)
  {
    if ts != [] {
      var n := |ts| - 1;
      ClampedAtMostRun(ts[..n]);
      assert NeverOver(ts) <==> NeverOver(ts[..n]) && ts[n].run <= ts[n].length;
    }
  }

  lemma {:induction false} ClampedAtMostLength(ts: seq<Tick>)
    ensures TotalClamped(ts) <= TotalLength(ts)
    ensures TotalClamped(ts) == TotalLength(ts) <==> NeverUnder(ts)
  {
    if ts != [] {
      var n := |ts| - 1;
      ClampedAtMostLength(ts[..n]);
      assert NeverUnder(ts) <==> NeverUnder(ts[..n]) && ts[n].run >= ts[n].length;
    }
  }

  // The ticks of core id over a run.
  ghost function TicksOf(chip: Chip, rs: seq<Reading>, id: int): seq<Tick>
    requires chip.Valid()
  {
    var n := |rs| - 1;
    if n <= 0 then []
    else TicksOf(chip, rs[..n], id) + [Tick(RunBetween(chip, rs[n - 1], rs[n], id), rs[n].time - rs[n - 1].time)]
  }

  lemma {:induction false} TotalsAppend(ts: seq<Tick>, t: Tick)
    ensures TotalRun(ts + [t]) == TotalRun(ts) + t.run
    ensures TotalLength(ts + [t]) == TotalLength(ts) + t.length
    ensures TotalClamped(ts + [t]) == TotalClamped(ts) + Min(t.run, t.length)
  {
    assert (ts + [t])[..|ts|] == ts;
  }

  // The ticks of a core tile the run, in time and in run time.
  lemma {:induction false} TicksTile(chip: Chip, rs: seq<Reading>, id: int)
    requires chip.Valid() && Sampled(rs)
    ensures TotalRun(TicksOf(chip, rs, id)) == RunBetween(chip, rs[0], rs[|rs| - 1], id)
    ensures TotalLength(TicksOf(chip, rs, id)) == rs[|rs| - 1].time - rs[0].time
  {
    hide RunBetween, Grows;
    var n := |rs| - 1;
    if n == 0 {
      RunOfNothing(chip, rs[0], id);
    } else {
      TicksTile(chip, rs[..n], id);
      SampledEnds(rs[..n]);
      assert Grows(rs[n - 1], rs[n]);
      RunAdds(chip, rs[0], rs[n - 1], rs[n], id);
      TotalsAppend(TicksOf(chip, rs[..n], id), Tick(RunBetween(chip, rs[n - 1], rs[n], id), rs[n].time - rs[n - 1].time));
    }
  }

  // The energies reported tick by tick, added up.
  ghost function Reported(w: map<int, real>, chip: Chip, rs: seq<Reading>): real
    requires chip.Valid()
  {
    var n := |rs| - 1;
    if n <= 0 then 0.0
    else Reported(w, chip, rs[..n]) +
         Energy(w, chip, Deltas(rs[n - 1].values, rs[n].values), rs[n].time - rs[n - 1].time)
  }

  // What one tick over the whole run would have reported.
  ghost function ReportedOnce(w: map<int, real>, chip: Chip, rs: seq<Reading>): real
    requires chip.Valid() && |rs| > 0
  {
    Energy(w, chip, Deltas(rs[0].values, rs[|rs| - 1].values), rs[|rs| - 1].time - rs[0].time)
  }

  function Joules(power: real, seconds: real): real { power * seconds }

  ghost function CoreReport(w: map<int, real>, chip: Chip, rs: seq<Reading>, id: int): real
    requires chip.Valid() && id in w
  {
    Joules(w[id], TotalClamped(TicksOf(chip, rs, id)))
  }

  ghost function CoreReports(w: map<int, real>, chip: Chip, rs: seq<Reading>): map<int, real>
    requires chip.Valid()
  {
    map id | id in w.Keys :: CoreReport(w, chip, rs, id)
  }

  lemma {:induction false} JoulesAdd(power: real, s: real, t: real)
    ensures Joules(power, s + t) == Joules(power, s) + Joules(power, t)
    ensures Joules(power, 0.0) == 0.0
  {
  }

  ghost function TickEnergies(w: map<int, real>, chip: Chip, rs: seq<Reading>): map<int, real>
    requires chip.Valid() && |rs| > 1
  {
    var n := |rs| - 1;
    CoreEnergies(w, chip, Deltas(rs[n - 1].values, rs[n].values), rs[n].time - rs[n - 1].time)
  }

  // The last tick's energy of a core is what its report grows by.
  lemma {:induction false} CoreReportStep(w: map<int, real>, chip: Chip, rs: seq<Reading>, id: int)
    requires chip.Valid() && |rs| > 1 && id in w
    ensures CoreReport(w, chip, rs, id) == CoreReport(w, chip, rs[..|rs| - 1], id) + TickEnergies(w, chip, rs)[id]
  {
    var n := |rs| - 1;
    var ts := TicksOf(chip, rs[..n], id);
    var t := Tick(RunBetween(chip, rs[n - 1], rs[n], id), rs[n].time - rs[n - 1].time);
    JoulesAppend(w[id], ts, t);
    assert TicksOf(chip, rs, id) == ts + [t];
  }

  lemma {:induction false} JoulesAppend(power: real, ts: seq<Tick>, t: Tick)
    ensures Joules(power, TotalClamped(ts + [t])) == Joules(power, TotalClamped(ts)) + Capped(power, t.run, t.length)
  {
    TotalsAppend(ts, t);
    JoulesAdd(power, TotalClamped(ts), Min(t.run, t.length));
  }

  lemma {:induction false} ReportedByCore(w: map<int, real>, chip: Chip, rs: seq<Reading>)
    requires chip.Valid()
    ensures Reported(w, chip, rs) == SumValues(CoreReports(w, chip, rs))
  {
    var n := |rs| - 1;
    if n <= 0 {
      forall id | id in w ensures CoreReport(w, chip, rs, id) == 0.0 {
        JoulesAdd(w[id], 0.0, 0.0);
      }
      SumZero(CoreReports(w, chip, rs));
    } else {
      ReportedByCore(w, chip, rs[..n]);
      var a, c := CoreReports(w, chip, rs[..n]), CoreReports(w, chip, rs);
      forall id | id in c ensures c[id] == a[id] + TickEnergies(w, chip, rs)[id] {
        CoreReportStep(w, chip, rs, id);
      }
      SumAdd(a, TickEnergies(w, chip, rs), c);
    }
  }

  // The clamp decides every tick the same way.
  ghost predicate OneSided(chip: Chip, rs: seq<Reading>, id: int)
    requires chip.Valid()
  {
    NeverOver(TicksOf(chip, rs, id)) || NeverUnder(TicksOf(chip, rs, id))
  }

  ghost function OnceEnergies(w: map<int, real>, chip: Chip, rs: seq<Reading>): map<int, real>
    requires chip.Valid() && |rs| > 0
  {
    CoreEnergies(w, chip, Deltas(rs[0].values, rs[|rs| - 1].values), rs[|rs| - 1].time - rs[0].time)
  }

  lemma {:induction false} ClampedOnce(power: real, ts: seq<Tick>)
    requires power > 0.0
    ensures Joules(power, TotalClamped(ts)) <= Capped(power, TotalRun(ts), TotalLength(ts))
    ensures Joules(power, TotalClamped(ts)) == Capped(power, TotalRun(ts), TotalLength(ts)) <==>
            NeverOver(ts) || NeverUnder(ts)
  {
    hide NeverOver, NeverUnder, TotalRun, TotalLength, TotalClamped;
    ClampedAtMostRun(ts);
    ClampedAtMostLength(ts);
    MulStrict(power, TotalClamped(ts), Min(TotalRun(ts), TotalLength(ts)));
  }

  lemma {:induction false} CoreReportAtMost(w: map<int, real>, chip: Chip, rs: seq<Reading>, id: int)
    requires chip.Valid() && Sampled(rs) && id in w && w[id] > 0.0
    ensures CoreReport(w, chip, rs, id) <= OnceEnergies(w, chip, rs)[id]
    ensures CoreReport(w, chip, rs, id) == OnceEnergies(w, chip, rs)[id] <==> OneSided(chip, rs, id)
  {
    TicksTile(chip, rs, id);
    ClampedOnce(w[id], TicksOf(chip, rs, id));
  }

  // Cutting a run into ticks never increases the reported energy, and leaves it
  // as it is exactly when, for each physical core, either no tick is exceeded by
  // its summed run time or every tick is filled by it.
  lemma {:induction false} FinerNeverMore(w: map<int, real>, chip: Chip, rs: seq<Reading>)
    requires chip.Valid() && Sampled(rs)
    requires forall id :: id in w ==> w[id] > 0.0
    ensures Reported(w, chip, rs) <= ReportedOnce(w, chip, rs)
    ensures Reported(w, chip, rs) == ReportedOnce(w, chip, rs) <==>
            forall id :: id in w ==> OneSided(chip, rs, id)
  {
    var a, b := CoreReports(w, chip, rs), OnceEnergies(w, chip, rs);
    ReportedByCore(w, chip, rs);
    forall id | id in w
      ensures a[id] <= b[id] && (a[id] == b[id] <==> OneSided(chip, rs, id))
    {
      CoreReportAtMost(w, chip, rs, id);
    }
    SumAtMost(a, b);
    SumEqualOnlyIfSame(a, b);
    SameOnlyIfEverywhere(a, b);
  }

  lemma {:induction false} SameOnlyIfEverywhere<K, V>(a: map<K, V>, b: map<K, V>)
    requires a.Keys == b.Keys
    ensures a == b <==> forall k :: k in a ==> a[k] == b[k]
  {
  }

  // ---------- a run of the method ----------

  ghost predicate SteadySensors(c: Config, chip: Chip, obs: seq<Observation>)
  {
    && chip.Valid() && chip.realCoreOf == c.realCoreOf
    && forall i :: 0 <= i < |obs| ==> obs[i].volts == chip.volts && obs[i].freqs == chip.freqs
  }

  ghost function AfterRun(c: Config, st: State, obs: seq<Observation>): State
    requires c.Valid() && forall i :: 0 <= i < |obs| ==> Fits(c, obs[i])
  {
    if obs == [] then st
    else AfterMeasure(c, AfterRun(c, st, obs[..|obs| - 1]), obs[|obs| - 1])
  }

  // The readings of a run that starts from reading r: failed ticks leave none.
  function Successes(r: Reading, obs: seq<Observation>): (rs: seq<Reading>)
    ensures |rs| > 0 && rs[0] == r
  {
    if obs == [] then [r]
    else
      var o := obs[|obs| - 1];
      var rs := Successes(r, obs[..|obs| - 1]);
      if o.read.Some? then rs + [Reading(o.read.value, o.now)] else rs
  }

  lemma {:induction false} SampledPrefix(p: seq<Reading>, r: Reading)
    requires |p| > 0 && Sampled(p + [r])
    ensures Sampled(p) && p[|p| - 1].time < r.time
  {
    var rs := p + [r];
    assert forall i :: 0 <= i < |p| ==> rs[i] == p[i];
    assert rs[|p| - 1].time < rs[|p|].time;
  }

  // The method's state after a run is its last successful reading and the energy
  // of the ticks between successful readings, whatever ticks failed.
  lemma {:induction false} RunReports(c: Config, st: State, chip: Chip, obs: seq<Observation>)
    requires c.Valid() && st.loaded && SteadySensors(c, chip, obs)
    requires forall i :: 0 <= i < |obs| ==> Fits(c, obs[i])
    requires Sampled(Successes(Reading(st.lastReadMap, st.lastReadTime), obs))
    ensures var rs := Successes(Reading(st.lastReadMap, st.lastReadTime), obs);
            var st' := AfterRun(c, st, obs);
      && st'.loaded
      && Reading(st'.lastReadMap, st'.lastReadTime) == rs[|rs| - 1]
      && st'.totalEnergyJ == st.totalEnergyJ + Reported(Weights(c.chipCapacitance, chip), chip, rs)
  {
    hide Energy, Weights, Deltas, Sampled;
    var r := Reading(st.lastReadMap, st.lastReadTime);
    if obs != [] {
      var n := |obs| - 1;
      var p, rs := Successes(r, obs[..n]), Successes(r, obs);
      if obs[n].read.None? {
        RunReports(c, st, chip, obs[..n]);
      } else {
        SampledPrefix(p, Reading(obs[n].read.value, obs[n].now));
        RunReports(c, st, chip, obs[..n]);
        assert rs[..|rs| - 1] == p;
      }
    }
  }

  // With steady sensors, an advancing clock and growing counters, however a run
  // is ticked and whichever ticks fail, it reports at most what a single tick
  // from its start to its last success would have, and exactly that when the
  // clamp is one-sided on every core.
  lemma {:induction false} RunAtMostOneTick(c: Config, st: State, chip: Chip, obs: seq<Observation>)
    requires c.Valid() && st.loaded && SteadySensors(c, chip, obs)
    requires forall i :: 0 <= i < |obs| ==> Fits(c, obs[i])
    requires Sampled(Successes(Reading(st.lastReadMap, st.lastReadTime), obs))
    ensures var rs := Successes(Reading(st.lastReadMap, st.lastReadTime), obs);
            var w := Weights(c.chipCapacitance, chip);
            var reported := AfterRun(c, st, obs).totalEnergyJ - st.totalEnergyJ;
      && reported <= ReportedOnce(w, chip, rs)
      && (reported == ReportedOnce(w, chip, rs) <==> forall id :: id in w ==> OneSided(chip, rs, id))
  {
    hide Energy, PowerAt;
    RunReports(c, st, chip, obs);
    var w := Weights(c.chipCapacitance, chip);
    forall id | id in w ensures w[id] > 0.0 {
      PowerLaws.MeansPositive(chip, id);
      PowerLaws.PowerAtNonNegative(c.chipCapacitance, MeanVolt(chip, id), MeanFreq(chip, id));
    }
    FinerNeverMore(w, chip, Successes(Reading(st.lastReadMap, st.lastReadTime), obs));
  }
}
