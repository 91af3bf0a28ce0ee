// The CPU power model: run times of virtual cores folded into one record per
// physical core, and from there into energy.
module PowerModel {
  import opened Words
  import opened Sums
  import opened Reals
  import Kernel = CpuKernel

  type u32 = Kernel.u32
  type Times = map<u32, u64>

  datatype Features = Features(tdp: real, freqTDP: real, voltageTDP: real)
  {
    // cpu.go replaces values that are not positive by defaults.
    predicate Usable() { tdp > 0.0 && freqTDP > 0.0 && voltageTDP > 0.0 }

    function ChipCapacitance(): (c: real)
      requires Usable()
      ensures c > 0.0
    {
      MulPositive(freqTDP, voltageTDP);
      MulPositive(freqTDP * voltageTDP, voltageTDP);
      (0.7 * tdp) / (freqTDP * voltageTDP * voltageTDP)
    }
  }

  // Per virtual core: its physical core (-1 if unknown), voltage and frequency
  // (-1 if unreadable).
  datatype Chip = Chip(realCoreOf: seq<int>, volts: seq<real>, freqs: seq<real>)
  {
    predicate Valid() { |realCoreOf| == |volts| == |freqs| <= 0x1_0000_0000 }

    function Size(): nat { |realCoreOf| }

    predicate Eligible(v: nat)
      requires Valid() && v < Size()
    {
      realCoreOf[v] >= 0 && volts[v] > 0.0 && freqs[v] > 0.0
    }

    // The eligible virtual cores below k on physical core id.
    ghost function Members(id: int, k: nat): set<nat>
      requires Valid() && k <= Size()
    {
      set v: nat | v < k && Eligible(v) && realCoreOf[v] == id
    }

    // The physical cores that have one.
    ghost function Cores(k: nat): set<int>
      requires Valid() && k <= Size()
    {
      set v: nat | v < k && Eligible(v) :: realCoreOf[v]
    }
  }

  lemma {:induction false} CoreHasMembers(chip: Chip, id: int, k: nat)
    requires chip.Valid() && k <= chip.Size()
    ensures id in chip.Cores(k) <==> chip.Members(id, k) != {}
  {
    if id in chip.Cores(k) {
      var v: nat :| v < k && chip.Eligible(v) && chip.realCoreOf[v] == id;
      assert v in chip.Members(id, k);
    }
  }

  // ---------- the specification ----------

  function Seconds(times: Times, v: nat): real
    requires v < 0x1_0000_0000
  {
    Kernel.At(times, v) as real / 1000000000.0
  }

  ghost function RunTimes(chip: Chip, times: Times, id: int, k: nat): map<nat, real>
    requires chip.Valid() && k <= chip.Size()
  {
    map v | v in chip.Members(id, k) :: Seconds(times, v)
  }

  ghost function Volts(chip: Chip, id: int, k: nat): map<nat, real>
    requires chip.Valid() && k <= chip.Size()
  {
    map v | v in chip.Members(id, k) :: chip.volts[v]
  }

  ghost function Freqs(chip: Chip, id: int, k: nat): map<nat, real>
    requires chip.Valid() && k <= chip.Size()
  {
    map v | v in chip.Members(id, k) :: chip.freqs[v]
  }

  ghost function RunTime(chip: Chip, times: Times, id: int, k: nat): real
    requires chip.Valid() && k <= chip.Size()
  {
    SumValues(RunTimes(chip, times, id, k))
  }

  ghost function VoltSum(chip: Chip, id: int, k: nat): real
    requires chip.Valid() && k <= chip.Size()
  {
    SumValues(Volts(chip, id, k))
  }

  ghost function FreqSum(chip: Chip, id: int, k: nat): real
    requires chip.Valid() && k <= chip.Size()
  {
    SumValues(Freqs(chip, id, k))
  }

  // The sums and the size of one group.
  datatype Group = Group(runTime: real, voltSum: real, freqSum: real, n: nat)
  {
    function Plus(runTime: real, volt: real, freq: real): Group
    {
      Group(this.runTime + runTime, voltSum + volt, freqSum + freq, n + 1)
    }
  }

  // What folding the virtual cores below k into group id gives.
  function GroupOf(chip: Chip, times: Times, id: int, k: nat): Group
    requires chip.Valid() && k <= chip.Size()
  {
    if k == 0 then Group(0.0, 0.0, 0.0, 0)
    else
      var g := GroupOf(chip, times, id, k - 1);
      if chip.Eligible(k - 1) && chip.realCoreOf[k - 1] == id
      then g.Plus(Seconds(times, k - 1), chip.volts[k - 1], chip.freqs[k - 1])
      else g
  }

  ghost predicate IsCore(chip: Chip, id: int)
  {
    chip.Valid() && id in chip.Cores(chip.Size())
  }

  ghost function MeanVolt(chip: Chip, id: int): real
    requires IsCore(chip, id)
  {
    CoreHasMembers(chip, id, chip.Size());
    VoltSum(chip, id, chip.Size()) / |chip.Members(id, chip.Size())| as real
  }

  ghost function MeanFreq(chip: Chip, id: int): real
    requires IsCore(chip, id)
  {
    CoreHasMembers(chip, id, chip.Size());
    FreqSum(chip, id, chip.Size()) / |chip.Members(id, chip.Size())| as real
  }

  // Power of a physical core while it runs: C * (mean V)^2 * (mean f).
  ghost function Weight(c: real, chip: Chip, id: int): real
    requires IsCore(chip, id)
  {
    PowerAt(c, MeanVolt(chip, id), MeanFreq(chip, id))
  }

  function PowerAt(c: real, volt: real, freq: real): real { c * volt * volt * freq }

  ghost function Weights(c: real, chip: Chip): (w: map<int, real>)
    requires chip.Valid()
    ensures w.Keys == chip.Cores(chip.Size())
  {
    map id | id in chip.Cores(chip.Size()) :: Weight(c, chip, id)
  }

  function Min(x: real, y: real): real { if x <= y then x else y }

  // Energy of a core of the given power: it cannot have run longer than the
  // interval lasted.
  function Capped(power: real, runTime: real, elapsed: real): real
  {
    power * Min(runTime, elapsed)
  }

  ghost function CoreEnergies(w: map<int, real>, chip: Chip, times: Times, elapsed: real): map<int, real>
    requires chip.Valid()
  {
    map id | id in w.Keys :: Capped(w[id], RunTime(chip, times, id, chip.Size()), elapsed)
  }

  // Sum over the physical cores, given the power of each, of
  // power * min(run time, elapsed).
  ghost function Energy(w: map<int, real>, chip: Chip, times: Times, elapsed: real): real
    requires chip.Valid()
  {
    SumValues(CoreEnergies(w, chip, times, elapsed))
  }

  // ---------- the sums, one virtual core at a time ----------

  lemma {:induction false} MembersStep(chip: Chip, id: int, k: nat)
    requires chip.Valid() && k < chip.Size()
    ensures chip.Members(id, k + 1) ==
            if chip.Eligible(k) && chip.realCoreOf[k] == id then chip.Members(id, k) + {k} else chip.Members(id, k)
    ensures k !in chip.Members(id, k)
  {
  }

  lemma {:induction false} RunTimeStep(chip: Chip, times: Times, id: int, k: nat)
    requires chip.Valid() && k < chip.Size()
    ensures RunTime(chip, times, id, k + 1) ==
            RunTime(chip, times, id, k) + if chip.Eligible(k) && chip.realCoreOf[k] == id then Seconds(times, k) else 0.0
  {
    MembersStep(chip, id, k);
    if chip.Eligible(k) && chip.realCoreOf[k] == id {
      SumInsert(RunTimes(chip, times, id, k), k, Seconds(times, k));
      assert RunTimes(chip, times, id, k + 1) == RunTimes(chip, times, id, k)[k := Seconds(times, k)];
    }
  }

  lemma {:induction false} VoltSumStep(chip: Chip, id: int, k: nat)
    requires chip.Valid() && k < chip.Size()
    ensures VoltSum(chip, id, k + 1) ==
            VoltSum(chip, id, k) + if chip.Eligible(k) && chip.realCoreOf[k] == id then chip.volts[k] else 0.0
  {
    MembersStep(chip, id, k);
    if chip.Eligible(k) && chip.realCoreOf[k] == id {
      SumInsert(Volts(chip, id, k), k, chip.volts[k]);
      assert Volts(chip, id, k + 1) == Volts(chip, id, k)[k := chip.volts[k]];
    }
  }

  lemma {:induction false} FreqSumStep(chip: Chip, id: int, k: nat)
    requires chip.Valid() && k < chip.Size()
    ensures FreqSum(chip, id, k + 1) ==
            FreqSum(chip, id, k) + if chip.Eligible(k) && chip.realCoreOf[k] == id then chip.freqs[k] else 0.0
  {
    MembersStep(chip, id, k);
    if chip.Eligible(k) && chip.realCoreOf[k] == id {
      SumInsert(Freqs(chip, id, k), k, chip.freqs[k]);
      assert Freqs(chip, id, k + 1) == Freqs(chip, id, k)[k := chip.freqs[k]];
    }
  }

  // Folding gives the sums over the group's members, and counts them.
  lemma {:induction false} FoldedRunTime(chip: Chip, times: Times, id: int, k: nat)
    requires chip.Valid() && k <= chip.Size()
    ensures GroupOf(chip, times, id, k).runTime == RunTime(chip, times, id, k)
  {
    if k == 0 {
      SumZero(RunTimes(chip, times, id, k));
    } else {
      FoldedRunTime(chip, times, id, k - 1);
      RunTimeStep(chip, times, id, k - 1);
    }
  }

  lemma {:induction false} FoldedVolts(chip: Chip, times: Times, id: int, k: nat)
    requires chip.Valid() && k <= chip.Size()
    ensures GroupOf(chip, times, id, k).voltSum == VoltSum(chip, id, k)
  {
    if k == 0 {
      SumZero(Volts(chip, id, k));
    } else {
      FoldedVolts(chip, times, id, k - 1);
      VoltSumStep(chip, id, k - 1);
    }
  }

  lemma {:induction false} FoldedFreqs(chip: Chip, times: Times, id: int, k: nat)
    requires chip.Valid() && k <= chip.Size()
    ensures GroupOf(chip, times, id, k).freqSum == FreqSum(chip, id, k)
  {
    if k == 0 {
      SumZero(Freqs(chip, id, k));
    } else {
      FoldedFreqs(chip, times, id, k - 1);
      FreqSumStep(chip, id, k - 1);
    }
  }

  lemma {:induction false} FoldedCount(chip: Chip, times: Times, id: int, k: nat)
    requires chip.Valid() && k <= chip.Size()
    ensures GroupOf(chip, times, id, k).n == |chip.Members(id, k)|
  {
    if k == 0 {
      assert chip.Members(id, k) == {};
    } else {
      FoldedCount(chip, times, id, k - 1);
      MembersStep(chip, id, k - 1);
    }
  }

  lemma {:induction false} FoldIsSum(chip: Chip, times: Times, id: int, k: nat)
    requires chip.Valid() && k <= chip.Size()
    ensures GroupOf(chip, times, id, k) ==
            Group(RunTime(chip, times, id, k), VoltSum(chip, id, k), FreqSum(chip, id, k), |chip.Members(id, k)|)
  {
    FoldedRunTime(chip, times, id, k);
    FoldedVolts(chip, times, id, k);
    FoldedFreqs(chip, times, id, k);
    FoldedCount(chip, times, id, k);
  }

  lemma {:induction false} CoresStep(chip: Chip, k: nat)
    requires chip.Valid() && k < chip.Size()
    ensures chip.Cores(k + 1) ==
            if chip.Eligible(k) then chip.Cores(k) + {chip.realCoreOf[k]} else chip.Cores(k)
  {
  }

  lemma {:induction false} OtherGroups(chip: Chip, times: Times, k: nat)
    requires chip.Valid() && k < chip.Size()
    ensures forall id :: !(chip.Eligible(k) && chip.realCoreOf[k] == id) ==>
              GroupOf(chip, times, id, k + 1) == GroupOf(chip, times, id, k)
  {
  }

  // A physical core without eligible virtual cores so far has nothing folded.
  lemma {:induction false} NewCore(chip: Chip, times: Times, id: int, k: nat)
    requires chip.Valid() && k <= chip.Size() && id !in chip.Cores(k)
    ensures GroupOf(chip, times, id, k) == Group(0.0, 0.0, 0.0, 0)
  {
    if k > 0 {
      CoresStep(chip, k - 1);
      NewCore(chip, times, id, k - 1);
    }
  }

  lemma {:induction false} SumNonNegative<T>(m: map<T, real>)
    requires forall v :: v in m ==> m[v] >= 0.0
    ensures SumValues(m) >= 0.0
  {
    var zero := map v | v in m.Keys :: 0.0;
    SumZero(zero);
    SumAtMost(zero, m);
  }

  lemma {:induction false} RunTimeNonNegative(chip: Chip, times: Times, id: int, k: nat)
    requires chip.Valid() && k <= chip.Size()
    ensures RunTime(chip, times, id, k) >= 0.0
  {
    SumNonNegative(RunTimes(chip, times, id, k));
  }

  // ---------- the method ----------

  class PhysicalCore {
    var runTimeSec: real
    var voltSum: real
    var freqSum: real
    var n: nat

    constructor ()
      ensures View() == Group(0.0, 0.0, 0.0, 0)
    {
      runTimeSec, voltSum, freqSum, n := 0.0, 0.0, 0.0, 0;
    }

    method Add(runTime: real, volt: real, freq: real)
      modifies this
      ensures View() == old(View()).Plus(runTime, volt, freq)
    {
      runTimeSec := runTimeSec + runTime;
      voltSum := voltSum + volt;
      freqSum := freqSum + freq;
      n := n + 1;
    }

    function View(): Group
      reads this
    {
      Group(runTimeSec, voltSum, freqSum, n)
    }
  }

  // e is what record phyC contributes to an interval of the given length.
  ghost predicate Contributes(c: real, phyC: PhysicalCore, elapsed: real, e: real)
    reads phyC
  {
    && phyC.n > 0 && phyC.runTimeSec >= 0.0
    && e == Capped(PowerAt(c, phyC.voltSum / phyC.n as real, phyC.freqSum / phyC.n as real), phyC.runTimeSec, elapsed)
  }

  lemma {:induction false} CoreContribution(c: real, chip: Chip, times: Times, elapsed: real, id: int, phyC: PhysicalCore)
    requires IsCore(chip, id) && phyC.View() == GroupOf(chip, times, id, chip.Size())
    ensures Contributes(c, phyC, elapsed, CoreEnergies(Weights(c, chip), chip, times, elapsed)[id])
  {
    RunTimeNonNegative(chip, times, id, chip.Size());
    FoldIsSum(chip, times, id, chip.Size());
    CoreHasMembers(chip, id, chip.Size());
    var w := Weights(c, chip);
    var volt, freq := phyC.voltSum / phyC.n as real, phyC.freqSum / phyC.n as real;
    assert volt == MeanVolt(chip, id) && freq == MeanFreq(chip, id);
    assert w[id] == PowerAt(c, volt, freq);
  }

  class PowerModel {
    const chipCapacitance: real
    const realCoreOf: seq<int>
    var lastPowerW: real

    constructor (chipCapacitance: real, realCoreOf: seq<int>)
      ensures this.realCoreOf == realCoreOf && this.chipCapacitance == chipCapacitance && lastPowerW == 0.0
    {
      this.chipCapacitance := chipCapacitance;
      this.realCoreOf := realCoreOf;
      lastPowerW := 0.0;
    }

    // volts and freqs are what the sensors gave for this interval.
    method EnergyOf(cpuTimeNs: Times, elapsedSec: real, volts: seq<real>, freqs: seq<real>)
      returns (powerW: real, energyJ: real)
      requires Chip(realCoreOf, volts, freqs).Valid()
      modifies this
      ensures elapsedSec <= 0.0 ==> powerW == energyJ == 0.0
      ensures elapsedSec > 0.0 ==>
                var chip := Chip(realCoreOf, volts, freqs);
                && energyJ == Energy(Weights(chipCapacitance, chip), chip, cpuTimeNs, elapsedSec)
                && IsTimes(elapsedSec, powerW, energyJ)
      ensures lastPowerW == if elapsedSec <= 0.0 || |cpuTimeNs| == 0 then old(lastPowerW) else powerW
    {
      var chip := Chip(realCoreOf, volts, freqs);
      if elapsedSec <= 0.0 || |cpuTimeNs| == 0 {
        if elapsedSec > 0.0 {
          IdleEnergy(Weights(chipCapacitance, chip), chip, cpuTimeNs, elapsedSec);
        }
        return 0.0, 0.0;
      }
      var physicalCores := FoldCores(chip, cpuTimeNs);
      ghost var energies := CoreEnergies(Weights(chipCapacitance, chip), chip, cpuTimeNs, elapsedSec);
      forall id | id in physicalCores
        ensures Contributes(chipCapacitance, physicalCores[id], elapsedSec, energies[id])
      {
        CoreContribution(chipCapacitance, chip, cpuTimeNs, elapsedSec, id, physicalCores[id]);
      }
      energyJ := SumCores(chipCapacitance, physicalCores, elapsedSec, energies);
      powerW := energyJ / elapsedSec;
      AveragePower(energyJ, elapsedSec);
      lastPowerW := powerW;
    }
  }

  // One record per physical core, distinct objects, each holding its group's
  // sums over the virtual cores below k.
  ghost predicate Folded(chip: Chip, times: Times, k: nat, cores: map<int, PhysicalCore>)
    requires chip.Valid() && k <= chip.Size()
    reads cores.Values
  {
    && cores.Keys == chip.Cores(k)
    && (forall i, j :: i in cores && j in cores && i != j ==> cores[i] != cores[j])
    && (forall id :: id in cores ==> cores[id].View() == GroupOf(chip, times, id, k))
  }

  // The first loop of energy.
  method FoldCores(chip: Chip, cpuTimeNs: Times) returns (physicalCores: map<int, PhysicalCore>)
    requires chip.Valid()
    ensures Folded(chip, cpuTimeNs, chip.Size(), physicalCores) && fresh(physicalCores.Values)
  {
    physicalCores := map[];
    for v := 0 to chip.Size()
      invariant Folded(chip, cpuTimeNs, v, physicalCores) && fresh(physicalCores.Values)
    {
      physicalCores := FoldOne(chip, cpuTimeNs, v, physicalCores);
    }
  }

  // One turn of that loop: virtual core v is skipped, or added in place to the
  // record of its physical core, which is created when it is the first one.
  method FoldOne(chip: Chip, cpuTimeNs: Times, v: nat, cores: map<int, PhysicalCore>)
    returns (physicalCores: map<int, PhysicalCore>)
    requires chip.Valid() && v < chip.Size() && Folded(chip, cpuTimeNs, v, cores)
    modifies cores.Values
    ensures Folded(chip, cpuTimeNs, v + 1, physicalCores)
    ensures fresh(physicalCores.Values - cores.Values)
  {
    physicalCores := cores;
    CoresStep(chip, v);
    OtherGroups(chip, cpuTimeNs, v);
    var physicalCoreID := chip.realCoreOf[v];
    if physicalCoreID < 0 || chip.volts[v] <= 0.0 || chip.freqs[v] <= 0.0 {
      return;
    }
    if physicalCoreID !in physicalCores {
      var created := new PhysicalCore();
      NewCore(chip, cpuTimeNs, physicalCoreID, v);
      physicalCores := physicalCores[physicalCoreID := created];
    }
    var phyC := physicalCores[physicalCoreID];
    phyC.Add(Seconds(cpuTimeNs, v), chip.volts[v], chip.freqs[v]);
  }

  // The second loop: the energies of the records, in whatever order the map gives.
  method SumCores<Id(==)>(c: real, physicalCores: map<Id, PhysicalCore>, elapsedSec: real, ghost energies: map<Id, real>)
    returns (energyJ: real)
    requires energies.Keys == physicalCores.Keys && elapsedSec > 0.0
    requires forall id :: id in physicalCores ==> Contributes(c, physicalCores[id], elapsedSec, energies[id])
    ensures energyJ == SumValues(energies)
  {
    energyJ := 0.0;
    ghost var done: map<Id, real> := map[];
    var todo := physicalCores.Keys;
    while todo != {}
      invariant todo <= physicalCores.Keys
      invariant done.Keys == physicalCores.Keys - todo
      invariant forall id :: id in done ==> done[id] == energies[id]
      invariant energyJ == SumValues(done)
    {
      var id :| id in todo;
      var e := CoreJoules(c, physicalCores[id], elapsedSec, energies[id]);
      energyJ := energyJ + e;
      todo := todo - {id};
      SumInsert(done, id, energies[id]);
      done := done[id := energies[id]];
    }
    assert done == energies;
  }

  // One turn of that loop.
  method CoreJoules(c: real, phyC: PhysicalCore, elapsedSec: real, ghost e: real) returns (joules: real)
    requires Contributes(c, phyC, elapsedSec, e) && elapsedSec > 0.0
    ensures joules == e
  {
    if phyC.n == 0 || phyC.runTimeSec <= 0.0 {
      return 0.0;
    }
    var runTime := phyC.runTimeSec;
    if runTime > elapsedSec {
      runTime := elapsedSec;
    }
    var volt := phyC.voltSum / phyC.n as real;
    var freq := phyC.freqSum / phyC.n as real;
    return c * volt * volt * freq * runTime;
  }

  // No recorded time, no energy.
  lemma {:induction false} IdleEnergy(w: map<int, real>, chip: Chip, times: Times, elapsed: real)
    requires chip.Valid() && times == map[] && elapsed >= 0.0
    ensures Energy(w, chip, times, elapsed) == 0.0
  {
    var energies := CoreEnergies(w, chip, times, elapsed);
    forall id | id in energies ensures energies[id] == 0.0 {
      SumZero(RunTimes(chip, times, id, chip.Size()));
    }
    SumZero(energies);
  }
}
