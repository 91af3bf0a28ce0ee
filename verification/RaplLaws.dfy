// What the RAPL method reports over whole runs.
module RaplLaws {
  import opened Words
  import opened Options
  import opened Reals
  import opened RaplMethod

  // ---------- wrap-around ----------

  lemma {:induction false} ModUnique(n: int, q: int, r: int, m: nat)
    requires m > 0 && n == q * m + r && 0 <= r < m
    ensures n % m == r && n / m == q
  {
    var q', r' := n / m, n % m;
    assert (q' - q) * m == r - r';
    if q' > q { MulAtLeast(q' - q, m); }
    if q' < q { MulAtLeast(q - q', m); }
  }

  lemma {:induction false} MulAtLeast(k: int, m: nat)
    requires k >= 1
    ensures k * m >= m
  {
  }

  lemma {:induction false} Split(n: nat, m: nat)
    requires m > 0
    ensures n == n / m * m + n % m && 0 <= n % m < m
    ensures n < m <==> n / m == 0
  {
    if n < m { ModUnique(n, 0, n, m); }
  }

  // The counter difference of two residues is the residue of the difference.
  lemma {:induction false} ResidueDifference(t: nat, t': nat, m: nat)
    requires m > 0 && t <= t'
    ensures (t' - t) % m == if t' % m >= t % m then t' % m - t % m else m - t % m + t' % m
  {
    var a, b, x, y := t / m, t' / m, t % m, t' % m;
    if y >= x {
      assert t' - t == (b - a) * m + (y - x);
      ModUnique(t' - t, b - a, y - x, m);
    } else {
      assert t' - t == (b - a - 1) * m + (m - x + y);
      ModUnique(t' - t, b - a - 1, m - x + y, m);
    }
  }

  // True energies at successive successful samples, baseline first.
  ghost predicate Increasing(ts: seq<nat>)
  {
    |ts| > 0 && forall i :: 0 < i < |ts| ==> ts[i - 1] <= ts[i]
  }

  // The true energy between baseline and last success.
  function TrueUJ(ts: seq<nat>): int
    requires |ts| > 0
  {
    ts[|ts| - 1] as int - ts[0]
  }

  // The deltas the method adds up when the counter shows energy modulo modulus
  // and max is the range it was told.
  function Summed(ts: seq<nat>, modulus: nat, max: u64): nat
    requires 0 < modulus <= TWO_TO_64
  {
    var n := |ts| - 1;
    if n <= 0 then 0
    else Summed(ts[..n], modulus, max) + DeltaUJ(ts[n - 1] % modulus, ts[n] % modulus, max)
  }

  // The part of a difference that a counter of this period cannot show.
  function Lost(d: nat, modulus: nat): nat
    requires modulus > 0
  {
    d - d % modulus
  }

  // What whole turns of the counter within single intervals hide.
  function LostTurns(ts: seq<nat>, modulus: nat): nat
    requires modulus > 0 && Increasing(ts)
    decreases |ts|
  {
    var n := |ts| - 1;
    if n <= 0 then 0 else LostTurns(ts[..n], modulus) + Lost(ts[n] - ts[n - 1], modulus)
  }

  // Intervals over which the reading went down.
  function Drops(ts: seq<nat>, modulus: nat): nat
    requires modulus > 0
  {
    var n := |ts| - 1;
    if n <= 0 then 0
    else Drops(ts[..n], modulus) + if ts[n] % modulus < ts[n - 1] % modulus then 1 else 0
  }

  ghost predicate NoFullTurn(ts: seq<nat>, modulus: nat)
  {
    forall i :: 0 < i < |ts| ==> ts[i] - ts[i - 1] < modulus
  }

  lemma {:induction false} LostIsMultiple(d: nat, modulus: nat)
    requires modulus > 0
    ensures Lost(d, modulus) % modulus == 0
    ensures Lost(d, modulus) == 0 <==> d < modulus
  {
    Split(d, modulus);
    ModUnique(d / modulus * modulus, d / modulus, 0, modulus);
    if d >= modulus { MulAtLeast(d / modulus, modulus); }
  }

  lemma {:induction false} AddMultiples(x: nat, y: nat, m: nat)
    requires m > 0 && x % m == 0 && y % m == 0
    ensures (x + y) % m == 0
  {
    Split(x, m);
    Split(y, m);
    assert (x / m + y / m) * m == x / m * m + y / m * m;
    ModUnique(x + y, x / m + y / m, 0, m);
  }

  lemma {:induction false} LostTurnsAreTurns(ts: seq<nat>, modulus: nat)
    requires modulus > 0 && Increasing(ts)
    ensures LostTurns(ts, modulus) % modulus == 0
    ensures LostTurns(ts, modulus) == 0 <==> NoFullTurn(ts, modulus)
    ensures ts[0] <= ts[|ts| - 1]
    decreases |ts|
  {
    hide Lost;
    var n := |ts| - 1;
    if n > 0 {
      assert Increasing(ts[..n]);
      LostTurnsAreTurns(ts[..n], modulus);
      LostIsMultiple(ts[n] - ts[n - 1], modulus);
      AddMultiples(LostTurns(ts[..n], modulus), Lost(ts[n] - ts[n - 1], modulus), modulus);
      assert NoFullTurn(ts, modulus) <==> NoFullTurn(ts[..n], modulus) && ts[n] - ts[n - 1] < modulus;
    } else {
      ModUnique(0, 0, 0, modulus);
    }
  }

  lemma {:induction false} DeltaMissing(t: nat, t': nat, max: u64)
    requires max > 0 && t <= t'
    ensures DeltaUJ(t % max, t' % max, max) == t' - t - Lost(t' - t, max)
  {
    ResidueDifference(t, t', max);
  }

  // A counter of period max: what is missing is whole turns of the counter.
  lemma {:induction false} MissingTurns(ts: seq<nat>, max: u64)
    requires max > 0 && Increasing(ts)
    ensures Summed(ts, max, max) + LostTurns(ts, max) == TrueUJ(ts)
    decreases |ts|
  {
    hide Lost, DeltaUJ;
    var n := |ts| - 1;
    if n > 0 {
      MissingTurns(ts[..n], max);
      DeltaMissing(ts[n - 1], ts[n], max);
    }
  }

  lemma {:induction false} DeltaMissingInclusive(t: nat, t': nat, max: u64)
    requires t <= t'
    ensures DeltaUJ(t % (max + 1), t' % (max + 1), max) ==
            t' - t - Lost(t' - t, max + 1) - if t' % (max + 1) < t % (max + 1) then 1 else 0
  {
    ResidueDifference(t, t', max + 1);
  }

  // A counter that also shows max itself has period max + 1, and the method
  // misses one more microjoule for every drop.
  lemma {:induction false} MissingDrops(ts: seq<nat>, max: u64)
    requires Increasing(ts)
    ensures Summed(ts, max + 1, max) + LostTurns(ts, max + 1) + Drops(ts, max + 1) == TrueUJ(ts)
    decreases |ts|
  {
    hide Lost, DeltaUJ;
    var n := |ts| - 1;
    if n > 0 {
      MissingDrops(ts[..n], max);
      DeltaMissingInclusive(ts[n - 1], ts[n], max);
    }
  }

  // ---------- the same for the method's runs ----------

  // Whether a started method takes a sample: the energy counter and, for a
  // process, the CPU times were read.  An exited process gives no sample, and
  // then the energy reference must stay where it is.
  predicate Sampled(c: Config, o: Observation)
  {
    o.energyUJ.Some? && (c.pid > 0 ==> o.cpu.Some?)
  }

  // The true energies at the samples of a run, given the true energy at every
  // observation.
  function Truths(c: Config, t: nat, obs: seq<Observation>, truth: seq<nat>): (ts: seq<nat>)
    requires |obs| == |truth|
    ensures |ts| > 0 && ts[0] == t
  {
    if obs == [] then [t]
    else
      var n := |obs| - 1;
      var ts := Truths(c, t, obs[..n], truth[..n]);
      if Sampled(c, obs[n]) then ts + [truth[n]] else ts
  }

  ghost predicate Shows(obs: seq<Observation>, truth: seq<nat>, modulus: nat)
    requires |obs| == |truth| && modulus > 0
  {
    forall i :: 0 <= i < |obs| && obs[i].energyUJ.Some? ==> obs[i].energyUJ.value == truth[i] % modulus
  }

  // The counter differences of a run, before any attribution.
  function MeasuredUJ(c: Config, st: State, obs: seq<Observation>): nat
  {
    if obs == [] then 0
    else
      var n := |obs| - 1;
      var before := AfterRun(c, st, obs[..n]);
      MeasuredUJ(c, st, obs[..n]) +
      if Succeeds(c, before, obs[n]) then DeltaUJ(before.lastEnergyUJ, obs[n].energyUJ.value, before.maxEnergyUJ) else 0
  }

  // For the whole system and for any process, whatever reads fail and whenever
  // the process exits: the energy reference is the counter at the last sample,
  // and the differences are those between successive samples.
  lemma {:induction false} MeasuredIsSummed(c: Config, st: State, t: nat, obs: seq<Observation>, truth: seq<nat>, modulus: nat)
    requires |obs| == |truth| && 0 < modulus <= TWO_TO_64 && Shows(obs, truth, modulus)
    requires st.started && st.lastEnergyUJ == t % modulus
    ensures var ts := Truths(c, t, obs, truth);
            var st' := AfterRun(c, st, obs);
      && st'.started && st'.maxEnergyUJ == st.maxEnergyUJ
      && st'.lastEnergyUJ == ts[|ts| - 1] % modulus
      && MeasuredUJ(c, st, obs) == Summed(ts, modulus, st.maxEnergyUJ)
  {
    hide DeltaUJ, IntervalEnergy;
    if obs != [] {
      var n := |obs| - 1;
      MeasuredIsSummed(c, st, t, obs[..n], truth[..n], modulus);
      if Sampled(c, obs[n]) {
        var ts := Truths(c, t, obs, truth);
        assert ts[..|ts| - 1] == Truths(c, t, obs[..n], truth[..n]);
      }
    }
  }

  // At every sample the process was not busier than the system since the one before.
  ghost predicate FairShares(c: Config, st: State, obs: seq<Observation>)
  {
    forall i :: 0 <= i < |obs| && Sampled(c, obs[i]) ==> FairShare(AfterRun(c, st, obs[..i]).lastCPU, obs[i].cpu)
  }

  predicate FairShare(last: CpuTimes, cpu: Option<CpuTimes>)
  {
    cpu.Some? ==> Sub64(cpu.value.pid, last.pid) <= Sub64(cpu.value.total, last.total)
  }

  // At every sample there was busy time, and all of it was the process's.
  ghost predicate AllShares(c: Config, st: State, obs: seq<Observation>)
  {
    forall i :: 0 <= i < |obs| && Sampled(c, obs[i]) ==> AllShare(AfterRun(c, st, obs[..i]).lastCPU, obs[i].cpu)
  }

  predicate AllShare(last: CpuTimes, cpu: Option<CpuTimes>)
  {
    cpu.Some? ==> Sub64(cpu.value.pid, last.pid) == Sub64(cpu.value.total, last.total) > 0
  }

  lemma {:induction false} RatioAtMostOne(p: real, t: real, q: real)
    requires t > 0.0 && 0.0 <= p <= t && q == p / t
    ensures 0.0 <= q <= 1.0
    ensures p == t ==> q == 1.0
  {
    assert t * q == p;
    MulStrict(t, 0.0, q);
    MulStrict(t, q, 1.0);
  }

  lemma {:induction false} AttributedAtMost(energyJ: real, last: CpuTimes, cur: CpuTimes)
    requires energyJ >= 0.0 && FairShare(last, Some(cur))
    ensures 0.0 <= Attributed(energyJ, last, cur) <= energyJ
    ensures AllShare(last, Some(cur)) ==> Attributed(energyJ, last, cur) == energyJ
  {
    var p, t := Sub64(cur.pid, last.pid) as real, Sub64(cur.total, last.total) as real;
    if t > 0.0 {
      var q := p / t;
      RatioAtMostOne(p, t, q);
      MulNonNegative(energyJ, q);
      MulNonNegative(energyJ, 1.0 - q);
    }
  }

  lemma {:induction false} JoulesAdd(a: nat, b: nat)
    ensures Joules(a + b) == Joules(a) + Joules(b)
    ensures Joules(a) >= 0.0 && Joules(0) == 0.0
    ensures a <= b ==> Joules(a) <= Joules(b)
  {
  }

  // What a method reports of the energy it measured: the whole system all of it,
  // a process at most that, and all of it when it alone is ever busy.
  lemma {:induction false} ReportedOfMeasured(c: Config, st: State, obs: seq<Observation>)
    requires st.started
    ensures var reported := AfterRun(c, st, obs).totalEnergyJ - st.totalEnergyJ;
            var measured := Joules(MeasuredUJ(c, st, obs));
      && AfterRun(c, st, obs).started
      && (c.pid == 0 ==> reported == measured)
      && (c.pid > 0 && FairShares(c, st, obs) ==> 0.0 <= reported <= measured)
      && (c.pid > 0 && FairShares(c, st, obs) && AllShares(c, st, obs) ==> reported == measured)
  {
    hide DeltaUJ, Attributed, Joules, FairShare, AllShare;
    if obs == [] {
      JoulesAdd(0, 0);
    } else {
      var n := |obs| - 1;
      var before := AfterRun(c, st, obs[..n]);
      ReportedOfMeasured(c, st, obs[..n]);
      SharesPrefix(c, st, obs);
      if Sampled(c, obs[n]) {
        var deltaUJ := DeltaUJ(before.lastEnergyUJ, obs[n].energyUJ.value, before.maxEnergyUJ);
        JoulesAdd(MeasuredUJ(c, st, obs[..n]), deltaUJ);
        JoulesAdd(deltaUJ, 0);
        if c.pid > 0 && FairShares(c, st, obs) {
          AttributedAtMost(Joules(deltaUJ), before.lastCPU, obs[n].cpu.value);
        }
      }
    }
  }

  lemma {:induction false} SharesPrefix(c: Config, st: State, obs: seq<Observation>)
    requires |obs| > 0
    ensures FairShares(c, st, obs) ==> FairShares(c, st, obs[..|obs| - 1])
    ensures AllShares(c, st, obs) ==> AllShares(c, st, obs[..|obs| - 1])
  {
    hide AfterRun, FairShare, AllShare, Sampled;
    assert forall i :: 0 <= i < |obs| - 1 ==> obs[..|obs| - 1][..i] == obs[..i] && obs[..|obs| - 1][i] == obs[i];
  }

  // Over a whole run with failed reads, for the whole system or for a process that
  // may exit: the energy measured never exceeds the true energy, differs from it
  // by whole turns of the counter, and equals it exactly when every interval
  // between samples stays below one turn.  The whole system is charged what is
  // measured, and a process at most the true energy.
  lemma {:induction false} WrapAround(c: Config, st: State, t: nat, obs: seq<Observation>, truth: seq<nat>)
    requires |obs| == |truth| && st.maxEnergyUJ > 0 && Shows(obs, truth, st.maxEnergyUJ)
    requires st.started && st.lastEnergyUJ == t % st.maxEnergyUJ
    requires Increasing(Truths(c, t, obs, truth))
    ensures var ts := Truths(c, t, obs, truth);
            var measuredUJ := MeasuredUJ(c, st, obs);
            var reported := AfterRun(c, st, obs).totalEnergyJ - st.totalEnergyJ;
      && AfterRun(c, st, obs).lastEnergyUJ == ts[|ts| - 1] % st.maxEnergyUJ
      && measuredUJ <= TrueUJ(ts)
      && (TrueUJ(ts) - measuredUJ) % st.maxEnergyUJ == 0
      && (measuredUJ == TrueUJ(ts) <==> NoFullTurn(ts, st.maxEnergyUJ))
      && (c.pid == 0 ==> reported == Joules(measuredUJ))
      && (c.pid > 0 && FairShares(c, st, obs) ==> 0.0 <= reported <= Joules(TrueUJ(ts)))
  {
    hide DeltaUJ, Lost, FairShares, AllShares, Joules;
    var ts := Truths(c, t, obs, truth);
    MeasuredIsSummed(c, st, t, obs, truth, st.maxEnergyUJ);
    MissingTurns(ts, st.maxEnergyUJ);
    LostTurnsAreTurns(ts, st.maxEnergyUJ);
    ReportedOfMeasured(c, st, obs);
    JoulesAdd(MeasuredUJ(c, st, obs), TrueUJ(ts));
  }

  // If the counter also takes the value max, then with less than a turn between
  // samples the energy measured falls short by exactly the number of drops.
  lemma {:induction false} InclusiveRange(c: Config, st: State, t: nat, obs: seq<Observation>, truth: seq<nat>)
    requires |obs| == |truth| && Shows(obs, truth, st.maxEnergyUJ + 1)
    requires st.started && st.lastEnergyUJ == t % (st.maxEnergyUJ + 1)
    requires Increasing(Truths(c, t, obs, truth)) && NoFullTurn(Truths(c, t, obs, truth), st.maxEnergyUJ + 1)
    ensures var ts := Truths(c, t, obs, truth);
            var shortfall := Drops(ts, st.maxEnergyUJ + 1);
            var reported := AfterRun(c, st, obs).totalEnergyJ - st.totalEnergyJ;
      && shortfall <= TrueUJ(ts)
      && MeasuredUJ(c, st, obs) == TrueUJ(ts) - shortfall
      && (c.pid == 0 ==> reported == Joules(TrueUJ(ts) - shortfall))
      && (c.pid > 0 && FairShares(c, st, obs) ==> 0.0 <= reported <= Joules(TrueUJ(ts) - shortfall))
  {
    hide DeltaUJ, Lost, FairShares, AllShares, Joules;
    var ts := Truths(c, t, obs, truth);
    MeasuredIsSummed(c, st, t, obs, truth, st.maxEnergyUJ + 1);
    MissingDrops(ts, st.maxEnergyUJ);
    LostTurnsAreTurns(ts, st.maxEnergyUJ + 1);
    ReportedOfMeasured(c, st, obs);
  }
}
