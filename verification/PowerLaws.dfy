// What the CPU power model promises about the energy it reports.
module PowerLaws {
  import opened Sums
  import opened Reals
  import opened PowerModel

  // ---------- every eligible virtual core is counted exactly once ----------

  ghost function CoreRunTimes(chip: Chip, times: Times, k: nat): map<int, real>
    requires chip.Valid() && k <= chip.Size()
  {
    map id | id in chip.Cores(k) :: RunTime(chip, times, id, k)
  }

  ghost function EligibleTimes(chip: Chip, times: Times, k: nat): map<nat, real>
    requires chip.Valid() && k <= chip.Size()
  {
    map v: nat | v < k && chip.realCoreOf[v] >= 0 && chip.volts[v] > 0.0 && chip.freqs[v] > 0.0 :: Seconds(times, v)
  }

  lemma {:induction false} PartitionStep(chip: Chip, times: Times, k: nat)
    requires chip.Valid() && k < chip.Size() && chip.Eligible(k)
    ensures SumValues(CoreRunTimes(chip, times, k + 1)) == SumValues(CoreRunTimes(chip, times, k)) + Seconds(times, k)
  {
    var id := chip.realCoreOf[k];
    var a, b := CoreRunTimes(chip, times, k), CoreRunTimes(chip, times, k + 1);
    CoresStep(chip, k);
    forall j | j in b && j != id ensures j in a && a[j] == b[j] {
      RunTimeStep(chip, times, j, k);
    }
    RunTimeStep(chip, times, id, k);
    if id !in a {
      NewCore(chip, times, id, k);
      FoldedRunTime(chip, times, id, k);
    }
    AddAt(a, b, id, Seconds(times, k));
  }

  // Adding x at one key, which may be new, adds x to the sum.
  lemma {:induction false} AddAt<T>(a: map<T, real>, b: map<T, real>, k: T, x: real)
    requires b.Keys == a.Keys + {k} && b[k] == (if k in a then a[k] else 0.0) + x
    requires forall j :: j in a && j != k ==> b[j] == a[j]
    ensures SumValues(b) == SumValues(a) + x
  {
    SumRemove(b, k);
    if k in a {
      SumRemove(a, k);
      assert a - {k} == b - {k};
    } else {
      assert a == b - {k};
    }
  }

  lemma {:induction false} PartitionSkip(chip: Chip, times: Times, k: nat)
    requires chip.Valid() && k < chip.Size() && !chip.Eligible(k)
    ensures CoreRunTimes(chip, times, k + 1) == CoreRunTimes(chip, times, k)
    ensures EligibleTimes(chip, times, k + 1) == EligibleTimes(chip, times, k)
  {
    CoresStep(chip, k);
    forall id ensures RunTime(chip, times, id, k + 1) == RunTime(chip, times, id, k) {
      RunTimeStep(chip, times, id, k);
    }
  }

  lemma {:induction false} EligibleStep(chip: Chip, times: Times, k: nat)
    requires chip.Valid() && k < chip.Size() && chip.Eligible(k)
    ensures SumValues(EligibleTimes(chip, times, k + 1)) == SumValues(EligibleTimes(chip, times, k)) + Seconds(times, k)
  {
    AddAt(EligibleTimes(chip, times, k), EligibleTimes(chip, times, k + 1), k, Seconds(times, k));
  }

  lemma {:induction false} PartitionNone(chip: Chip, times: Times)
    requires chip.Valid()
    ensures SumValues(CoreRunTimes(chip, times, 0)) == 0.0 == SumValues(EligibleTimes(chip, times, 0))
  {
    SumZero(CoreRunTimes(chip, times, 0));
    SumZero(EligibleTimes(chip, times, 0));
  }

  // The run times of the physical cores add up to those of the eligible virtual
  // cores: none is left out and none is in two groups.
  lemma {:induction false} RunTimesPartition(chip: Chip, times: Times, k: nat)
    requires chip.Valid() && k <= chip.Size()
    ensures SumValues(CoreRunTimes(chip, times, k)) == SumValues(EligibleTimes(chip, times, k))
  {
    hide CoreRunTimes, EligibleTimes;
    if k == 0 {
      PartitionNone(chip, times);
    } else {
      RunTimesPartition(chip, times, k - 1);
      if chip.Eligible(k - 1) {
        PartitionStep(chip, times, k - 1);
        EligibleStep(chip, times, k - 1);
      } else {
        PartitionSkip(chip, times, k - 1);
      }
    }
  }

  // ---------- power is bounded ----------

  lemma {:induction false} SumConstant<T>(m: map<T, real>, x: real, n: nat)
    requires n == |m| && forall v :: v in m ==> m[v] == x
    ensures IsTimes(n as real, x, SumValues(m))
  {
    if n == 0 {
      assert m == map[];
    } else {
      hide IsTimes;
      var k :| k in m.Keys;
      SumRemove(m, k);
      assert |m - {k}| == n - 1;
      SumConstant(m - {k}, x, n - 1);
      OneMore((n - 1) as real, x, SumValues(m - {k}));
    }
  }

  lemma {:induction false} OneMore(n: real, x: real, s: real)
    requires IsTimes(n, x, s)
    ensures IsTimes(n + 1.0, x, s + x)
  {
  }

  lemma {:induction false} SumAtLeastConstant<T>(m: map<T, real>, lo: real, limit: real)
    requires IsTimes(|m| as real, lo, limit) && forall v :: v in m ==> lo <= m[v]
    ensures limit <= SumValues(m)
  {
    var low := map v | v in m.Keys :: lo;
    assert low.Keys == m.Keys;
    SumConstant(low, lo, |m|);
    SumAtMost(low, m);
  }

  lemma {:induction false} SumAtMostConstant<T>(m: map<T, real>, hi: real, limit: real)
    requires IsTimes(|m| as real, hi, limit) && forall v :: v in m ==> m[v] <= hi
    ensures SumValues(m) <= limit
  {
    var high := map v | v in m.Keys :: hi;
    assert high.Keys == m.Keys;
    SumConstant(high, hi, |m|);
    SumAtMost(m, high);
  }

  lemma {:induction false} Mean(s: real, n: nat, x: real, limit: real)
    requires n > 0 && IsTimes(n as real, x, limit)
    ensures limit <= s ==> x <= s / n as real
    ensures s <= limit ==> s / n as real <= x
  {
    var q := s / n as real;
    assert n as real * q == s;
    MulStrict(n as real, x, q);
    MulStrict(n as real, q, x);
  }

  lemma {:induction false} MeanBetween<T>(m: map<T, real>, lo: real, hi: real)
    requires |m| > 0 && forall v :: v in m ==> lo <= m[v] <= hi
    ensures lo <= SumValues(m) / |m| as real <= hi
  {
    var n := |m| as real;
    SumAtLeastConstant(m, lo, n * lo);
    SumAtMostConstant(m, hi, n * hi);
    Mean(SumValues(m), |m|, lo, n * lo);
    Mean(SumValues(m), |m|, hi, n * hi);
  }

  // The mean of a group lies between any bounds on its members.
  lemma {:induction false} MeanVoltBetween(chip: Chip, id: int, lo: real, hi: real)
    requires IsCore(chip, id)
    requires forall v: nat :: v < chip.Size() && chip.Eligible(v) && chip.realCoreOf[v] == id ==> lo <= chip.volts[v] <= hi
    ensures lo <= MeanVolt(chip, id) <= hi
  {
    var m := Volts(chip, id, chip.Size());
    CoreHasMembers(chip, id, chip.Size());
    assert m.Keys == chip.Members(id, chip.Size());
    MeanBetween(m, lo, hi);
  }

  lemma {:induction false} MeanFreqBetween(chip: Chip, id: int, lo: real, hi: real)
    requires IsCore(chip, id)
    requires forall v: nat :: v < chip.Size() && chip.Eligible(v) && chip.realCoreOf[v] == id ==> lo <= chip.freqs[v] <= hi
    ensures lo <= MeanFreq(chip, id) <= hi
  {
    var m := Freqs(chip, id, chip.Size());
    CoreHasMembers(chip, id, chip.Size());
    assert m.Keys == chip.Members(id, chip.Size());
    MeanBetween(m, lo, hi);
  }

  // A nonempty sum of positive values is positive.
  lemma {:induction false} SumPositive<T>(m: map<T, real>)
    requires m.Keys != {} && forall v :: v in m ==> m[v] > 0.0
    ensures SumValues(m) > 0.0
  {
    var k :| k in m.Keys;
    SumRemove(m, k);
    SumNonNegative(m - {k});
  }

  lemma {:induction false} MeansPositive(chip: Chip, id: int)
    requires IsCore(chip, id)
    ensures MeanVolt(chip, id) > 0.0 && MeanFreq(chip, id) > 0.0
  {
    CoreHasMembers(chip, id, chip.Size());
    var mv, mf := Volts(chip, id, chip.Size()), Freqs(chip, id, chip.Size());
    assert mv.Keys == chip.Members(id, chip.Size()) == mf.Keys;
    SumPositive(mv);
    SumPositive(mf);
  }

  lemma {:induction false} PowerAtMonotone(c: real, v: real, f: real, v': real, f': real)
    requires c > 0.0 && 0.0 < v <= v' && 0.0 < f <= f'
    ensures PowerAt(c, v, f) <= PowerAt(c, v', f')
  {
    MulMonotone(c, c, v, v');
    MulPositive(c, v);
    MulMonotone(c * v, c * v', v, v');
    MulPositive(c * v, v);
    MulMonotone(c * v * v, c * v' * v', f, f');
  }

  lemma {:induction false} PowerAtNonNegative(c: real, v: real, f: real)
    requires c >= 0.0 && v > 0.0 && f > 0.0
    ensures PowerAt(c, v, f) >= 0.0
    ensures c > 0.0 ==> PowerAt(c, v, f) > 0.0
  {
    if c > 0.0 {
      MulPositive(c, v);
      MulPositive(c * v, v);
      MulPositive(c * v * v, f);
    }
  }

  lemma {:induction false} PowerAtTDP(f: Features)
    requires f.Usable()
    ensures f.ChipCapacitance() > 0.0
    ensures PowerAt(f.ChipCapacitance(), f.voltageTDP, f.freqTDP) == 0.7 * f.tdp
  {
    var d := f.freqTDP * f.voltageTDP * f.voltageTDP;
    MulPositive(f.freqTDP, f.voltageTDP);
    MulPositive(f.freqTDP * f.voltageTDP, f.voltageTDP);
    var c := f.ChipCapacitance();
    assert c * d == 0.7 * f.tdp;
    assert PowerAt(c, f.voltageTDP, f.freqTDP) == c * d;
  }

  // At TDP voltage and frequency, or below, a core draws at most 0.7 TDP.
  lemma {:induction false} WeightAtMost(f: Features, chip: Chip, id: int)
    requires f.Usable() && IsCore(chip, id)
    requires BelowTDP(f, chip)
    ensures 0.0 < Weight(f.ChipCapacitance(), chip, id) <= 0.7 * f.tdp
  {
    MeanVoltBetween(chip, id, 0.0, f.voltageTDP);
    MeanFreqBetween(chip, id, 0.0, f.freqTDP);
    MeansPositive(chip, id);
    PowerAtTDP(f);
    PowerAtNonNegative(f.ChipCapacitance(), MeanVolt(chip, id), MeanFreq(chip, id));
    PowerAtMonotone(f.ChipCapacitance(), MeanVolt(chip, id), MeanFreq(chip, id), f.voltageTDP, f.freqTDP);
  }

  lemma {:induction false} CappedBetween(w: real, r: real, e: real, b: real, be: real)
    requires 0.0 <= w <= b && r >= 0.0 && e >= 0.0 && IsTimes(e, b, be)
    ensures 0.0 <= Capped(w, r, e) <= be
  {
    MulNonNegative(w, Min(r, e));
    MulMonotone(w, b, Min(r, e), e);
  }

  // The bound the code gives, for any run times, topology and interval: 0.7 TDP
  // for every physical core that has an eligible virtual core.
  lemma {:induction false} PowerBound(f: Features, chip: Chip, times: Times, elapsed: real, w: map<int, real>, powerW: real, bound: real)
    requires f.Usable() && chip.Valid() && elapsed > 0.0 && BelowTDP(f, chip)
    requires w == Weights(f.ChipCapacitance(), chip) && IsTimes(elapsed, powerW, Energy(w, chip, times, elapsed))
    requires IsTimes(|chip.Cores(chip.Size())| as real, 0.7 * f.tdp, bound)
    ensures 0.0 <= powerW <= bound
  {
    hide Weight, IsTimes, Energy, BelowTDP;
    WeightsAtMost(f, chip);
    PowerAtMost(w, chip, times, elapsed, powerW, 0.7 * f.tdp, bound);
  }

  ghost predicate BelowTDP(f: Features, chip: Chip)
    requires chip.Valid()
  {
    forall v: nat :: v < chip.Size() && chip.Eligible(v) ==> chip.volts[v] <= f.voltageTDP && chip.freqs[v] <= f.freqTDP
  }

  lemma {:induction false} WeightsAtMost(f: Features, chip: Chip)
    requires f.Usable() && chip.Valid() && BelowTDP(f, chip)
    ensures var w := Weights(f.ChipCapacitance(), chip);
      forall id :: id in w ==> 0.0 <= w[id] <= 0.7 * f.tdp
  {
    forall id | IsCore(chip, id) ensures 0.0 <= Weight(f.ChipCapacitance(), chip, id) <= 0.7 * f.tdp {
      WeightAtMost(f, chip, id);
    }
  }

  // Cores of power at most b draw at most b each on average.
  lemma {:induction false} PowerAtMost(w: map<int, real>, chip: Chip, times: Times, elapsed: real, powerW: real, b: real, bound: real)
    requires chip.Valid() && elapsed > 0.0 && w.Keys == chip.Cores(chip.Size())
    requires forall id :: id in w ==> 0.0 <= w[id] <= b
    requires IsTimes(elapsed, powerW, Energy(w, chip, times, elapsed))
    requires IsTimes(|chip.Cores(chip.Size())| as real, b, bound)
    ensures 0.0 <= powerW <= bound
  {
    var n := |chip.Cores(chip.Size())| as real;
    var most := Product(elapsed, b);
    var limit := Product(n, most);
    EnergyAtMost(w, chip, times, elapsed, b, most, limit);
    Quotient(Energy(w, chip, times, elapsed), powerW, elapsed, b, n, most, limit, bound);
  }

  lemma {:induction false} EnergyAtMost(w: map<int, real>, chip: Chip, times: Times, elapsed: real, b: real, most: real, limit: real)
    requires chip.Valid() && elapsed > 0.0
    requires forall id :: id in w ==> 0.0 <= w[id] <= b
    requires IsTimes(elapsed, b, most) && IsTimes(|w.Keys| as real, most, limit)
    ensures 0.0 <= Energy(w, chip, times, elapsed) <= limit
  {
    var energies := CoreEnergies(w, chip, times, elapsed);
    forall id | id in energies ensures 0.0 <= energies[id] <= most {
      RunTimeNonNegative(chip, times, id, chip.Size());
      CappedBetween(w[id], RunTime(chip, times, id, chip.Size()), elapsed, b, most);
    }
    assert energies.Keys == w.Keys;
    SumWithin(energies, most, limit);
  }

  lemma {:induction false} SumWithin<T>(m: map<T, real>, most: real, limit: real)
    requires IsTimes(|m| as real, most, limit) && forall k :: k in m ==> 0.0 <= m[k] <= most
    ensures 0.0 <= SumValues(m) <= limit
  {
    SumNonNegative(m);
    SumAtMostConstant(m, most, limit);
  }

  lemma {:induction false} Quotient(energy: real, power: real, elapsed: real, b: real, n: real, most: real, limit: real, bound: real)
    requires elapsed > 0.0 && IsTimes(elapsed, power, energy) && 0.0 <= energy <= limit
    requires IsTimes(elapsed, b, most) && IsTimes(n, most, limit) && IsTimes(n, b, bound)
    ensures 0.0 <= power <= bound
  {
    assert n * (elapsed * b) == elapsed * (n * b);
    MulStrict(elapsed, power, bound);
    MulStrict(elapsed, 0.0, power);
  }

  // Whatever the sensors show, energy is never negative.
  lemma {:induction false} EnergyNonNegative(c: real, chip: Chip, times: Times, elapsed: real)
    requires c >= 0.0 && chip.Valid() && elapsed >= 0.0
    ensures Energy(Weights(c, chip), chip, times, elapsed) >= 0.0
  {
    var w := Weights(c, chip);
    var energies := CoreEnergies(w, chip, times, elapsed);
    forall id | id in energies ensures energies[id] >= 0.0 {
      MeansPositive(chip, id);
      RunTimeNonNegative(chip, times, id, chip.Size());
      PowerAtNonNegative(c, MeanVolt(chip, id), MeanFreq(chip, id));
      CappedBetween(w[id], RunTime(chip, times, id, chip.Size()), elapsed, w[id], elapsed * w[id]);
    }
    SumNonNegative(energies);
  }

  // ---------- chip capacitance or a share of it ----------

  lemma {:induction false} WeightShare(c: real, n: real, chip: Chip, id: int)
    requires IsCore(chip, id) && n > 0.0
    ensures IsTimes(n, Weight(c / n, chip, id), Weight(c, chip, id))
  {
    var v, f := MeanVolt(chip, id), MeanFreq(chip, id);
    PowerAtShare(c, n, v, f);
  }

  lemma {:induction false} PowerAtShare(c: real, n: real, v: real, f: real)
    requires n > 0.0
    ensures IsTimes(n, PowerAt(c / n, v, f), PowerAt(c, v, f))
  {
    var q := c / n;
    assert q * n == c;
    assert n * (q * v * v * f) == (q * n) * v * v * f;
  }

  lemma {:induction false} CappedTimes(n: real, w: real, w': real, r: real, e: real)
    requires IsTimes(n, w, w')
    ensures IsTimes(n, Capped(w, r, e), Capped(w', r, e))
  {
    var x := Min(r, e);
    assert n * (w * x) == (n * w) * x;
  }

  // Values that are not negative add up to zero only if all of them are.
  lemma {:induction false} SumIsZero<T>(m: map<T, real>)
    requires forall v :: v in m ==> m[v] >= 0.0
    ensures SumValues(m) == 0.0 <==> forall v :: v in m ==> m[v] == 0.0
  {
    if v :| v in m && m[v] != 0.0 {
      SumRemove(m, v);
      SumNonNegative(m - {v});
    } else {
      SumZero(m);
    }
  }

  // The workload had no time on any virtual core with a known physical core, a
  // voltage and a frequency.
  ghost predicate Idle(chip: Chip, times: Times)
    requires chip.Valid()
  {
    forall v: nat :: v < chip.Size() && chip.realCoreOf[v] >= 0 && chip.volts[v] > 0.0 && chip.freqs[v] > 0.0 ==>
      Seconds(times, v) == 0.0
  }

  lemma {:induction false} CoreIsIdle(chip: Chip, times: Times, id: int)
    requires chip.Valid()
    ensures RunTime(chip, times, id, chip.Size()) == 0.0 <==>
            forall v :: v in chip.Members(id, chip.Size()) ==> Seconds(times, v) == 0.0
  {
    var m := RunTimes(chip, times, id, chip.Size());
    assert m.Keys == chip.Members(id, chip.Size());
    SumIsZero(m);
  }

  lemma {:induction false} CappedIsZero(power: real, runTime: real, elapsed: real)
    requires power > 0.0 && runTime >= 0.0 && elapsed > 0.0
    ensures Capped(power, runTime, elapsed) >= 0.0
    ensures Capped(power, runTime, elapsed) == 0.0 <==> runTime == 0.0
  {
    MulStrict(power, Min(runTime, elapsed), 0.0);
    MulStrict(power, 0.0, Min(runTime, elapsed));
  }

  lemma {:induction false} WeightsPositive(c: real, chip: Chip)
    requires c > 0.0 && chip.Valid()
    ensures forall id :: id in Weights(c, chip) ==> Weights(c, chip)[id] > 0.0
  {
    forall id | id in chip.Cores(chip.Size()) ensures Weight(c, chip, id) > 0.0 {
      MeansPositive(chip, id);
      PowerAtNonNegative(c, MeanVolt(chip, id), MeanFreq(chip, id));
    }
  }

  lemma {:induction false} AllCoresIdle(chip: Chip, times: Times)
    requires chip.Valid()
    ensures Idle(chip, times) <==>
            forall id :: id in chip.Cores(chip.Size()) ==> RunTime(chip, times, id, chip.Size()) == 0.0
  {
    forall id | id in chip.Cores(chip.Size())
      ensures RunTime(chip, times, id, chip.Size()) == 0.0 <==>
              forall v :: v in chip.Members(id, chip.Size()) ==> Seconds(times, v) == 0.0
    {
      CoreIsIdle(chip, times, id);
    }
    assert forall v: nat :: v < chip.Size() && chip.Eligible(v) ==>
        chip.realCoreOf[v] in chip.Cores(chip.Size()) && v in chip.Members(chip.realCoreOf[v], chip.Size());
  }

  // Nothing is reported exactly for a workload that was idle.
  lemma {:induction false} NoEnergy(c: real, chip: Chip, times: Times, elapsed: real)
    requires c > 0.0 && chip.Valid() && elapsed > 0.0
    ensures Energy(Weights(c, chip), chip, times, elapsed) == 0.0 <==> Idle(chip, times)
  {
    hide Weight, Idle, Capped, RunTime;
    var w := Weights(c, chip);
    var energies := CoreEnergies(w, chip, times, elapsed);
    WeightsPositive(c, chip);
    forall id | id in energies
      ensures energies[id] >= 0.0 && (energies[id] == 0.0 <==> RunTime(chip, times, id, chip.Size()) == 0.0)
    {
      RunTimeNonNegative(chip, times, id, chip.Size());
      CappedIsZero(w[id], RunTime(chip, times, id, chip.Size()), elapsed);
    }
    SumIsZero(energies);
    AllCoresIdle(chip, times);
  }

  // The description of the model charges each core its share c / n of the chip's
  // capacitance; the loop charges the whole of it.  So the reported energy is n
  // times the described one, and equals it exactly when there is one core or the
  // workload was idle.
  lemma {:induction false} WholeChipPerCore(c: real, n: nat, chip: Chip, times: Times, elapsed: real)
    requires c > 0.0 && n > 0 && chip.Valid() && elapsed > 0.0
    ensures var reported := Energy(Weights(c, chip), chip, times, elapsed);
            var described := Energy(Weights(c / n as real, chip), chip, times, elapsed);
      && IsTimes(n as real, described, reported)
      && (reported == described <==> n == 1 || Idle(chip, times))
  {
    hide Weight, Idle, Capped, RunTime;
    var w, w' := Weights(c / n as real, chip), Weights(c, chip);
    var a, b := CoreEnergies(w, chip, times, elapsed), CoreEnergies(w', chip, times, elapsed);
    forall id | id in a ensures IsTimes(n as real, a[id], b[id]) {
      WeightShare(c, n as real, chip, id);
      CappedTimes(n as real, w[id], w'[id], RunTime(chip, times, id, chip.Size()), elapsed);
    }
    SumScale(a, b, n as real);
    MultipleEqual(n as real, SumValues(a), SumValues(b));
    NoEnergy(c, chip, times, elapsed);
  }

  lemma {:induction false} MultipleEqual(n: real, x: real, y: real)
    requires n > 0.0 && IsTimes(n, x, y)
    ensures y == x <==> n == 1.0 || y == 0.0
  {
    if y == x {
      assert (n - 1.0) * x == 0.0;
      ProductZero(n - 1.0, x);
    }
  }

  // Two virtual cores on two physical cores, both at TDP voltage and frequency.
  function TwoCores(f: Features): Chip
  {
    Chip([0, 1], [f.voltageTDP, f.voltageTDP], [f.freqTDP, f.freqTDP])
  }

  lemma {:induction false} TwoCoresIds(f: Features)
    requires f.Usable()
    ensures TwoCores(f).Cores(2) == {0, 1}
  {
    var chip := TwoCores(f);
    CoresStep(chip, 0);
    CoresStep(chip, 1);
    assert chip.Eligible(0) && chip.Eligible(1);
  }

  // Busy for the whole second they draw 1.4 TDP, more than the chip is rated for.
  lemma {:induction false} AboveTDP(f: Features, times: Times)
    requires f.Usable()
    requires Seconds(times, 0) >= 1.0 && Seconds(times, 1) >= 1.0
    ensures Energy(Weights(f.ChipCapacitance(), TwoCores(f)), TwoCores(f), times, 1.0) == 1.4 * f.tdp > f.tdp
  {
    TwoCoresIds(f);
    BusyCoreEnergy(f, TwoCores(f), times, 0);
    BusyCoreEnergy(f, TwoCores(f), times, 1);
    SumPair(CoreEnergies(Weights(f.ChipCapacitance(), TwoCores(f)), TwoCores(f), times, 1.0), 0, 1);
  }

  lemma {:induction false} SumPair<T>(m: map<T, real>, j: T, k: T)
    requires m.Keys == {j, k} && j != k
    ensures SumValues(m) == m[j] + m[k]
  {
    SumRemove(m, j);
    SumRemove(m - {j}, k);
    SumZero(m - {j} - {k});
  }

  lemma {:induction false} BusyCoreEnergy(f: Features, chip: Chip, times: Times, id: int)
    requires f.Usable() && (id == 0 || id == 1)
    requires chip == Chip([0, 1], [f.voltageTDP, f.voltageTDP], [f.freqTDP, f.freqTDP])
    requires IsCore(chip, id)
    requires Seconds(times, 0) >= 1.0 && Seconds(times, 1) >= 1.0
    ensures CoreEnergies(Weights(f.ChipCapacitance(), chip), chip, times, 1.0)[id] == 0.7 * f.tdp
  {
    WeightAtTDP(f, chip, id);
    BusyCore(chip, times, id);
  }

  // A core whose virtual cores all run at TDP voltage and frequency draws 0.7 TDP.
  lemma {:induction false} WeightAtTDP(f: Features, chip: Chip, id: int)
    requires f.Usable() && IsCore(chip, id)
    requires forall v: nat :: v < chip.Size() && chip.Eligible(v) ==>
               chip.volts[v] == f.voltageTDP && chip.freqs[v] == f.freqTDP
    ensures Weights(f.ChipCapacitance(), chip)[id] == 0.7 * f.tdp
  {
    MeanVoltBetween(chip, id, f.voltageTDP, f.voltageTDP);
    MeanFreqBetween(chip, id, f.freqTDP, f.freqTDP);
    PowerAtTDP(f);
  }

  lemma {:induction false} BusyCore(chip: Chip, times: Times, id: int)
    requires chip.Valid() && chip.Size() == 2 && chip.realCoreOf == [0, 1] && (id == 0 || id == 1)
    requires chip.Eligible(0) && chip.Eligible(1)
    requires Seconds(times, 0) >= 1.0 && Seconds(times, 1) >= 1.0
    ensures RunTime(chip, times, id, 2) >= 1.0
  {
    RunTimeStep(chip, times, id, 0);
    RunTimeStep(chip, times, id, 1);
    SumZero(RunTimes(chip, times, id, 0));
  }

  // ---------- the voltage field of MSR 0x198 ----------

  function VoltageBits(val: bv64): bv64 { (val >> 32) & 0xFFFF }

  // Bits 47:32 and nothing else.
  lemma {:induction false} VoltageBitsAreField(high: bv64, field: bv64, low: bv64)
    requires field <= 0xFFFF && low <= 0xFFFF_FFFF && high <= 0xFFFF
    ensures VoltageBits((high << 48) | (field << 32) | low) == field
    ensures VoltageBits(high) <= 0xFFFF
  {
  }
}
