// The eBPF CPU measurement method: cumulative per-CPU times differenced and
// handed to the power model.
module CpuMethod {
  import opened Words
  import opened Options
  import opened Core
  import opened Counters
  import opened PowerModel

  datatype Config = Config(pid: nat, cadence: real, chipCapacitance: real, realCoreOf: seq<int>)
  {
    ghost predicate Valid() { cadence > 0.0 && chipCapacitance > 0.0 }
  }

  // The configuration that results from the features in cpu.json.
  function Configure(pid: nat, cadence: real, features: Features, realCoreOf: seq<int>): (c: Config)
    requires features.Usable()
    ensures cadence > 0.0 ==> c.Valid()
  {
    Config(pid, cadence, features.ChipCapacitance(), realCoreOf)
  }

  // What one call of Measure sees: the clock, the outcome of Read, the sensors.
  datatype Observation = Observation(now: real, read: Option<Times>, volts: seq<real>, freqs: seq<real>)

  ghost predicate Fits(c: Config, o: Observation)
  {
    Chip(c.realCoreOf, o.volts, o.freqs).Valid()
  }

  function At<Cpu>(m: map<Cpu, u64>, cpu: Cpu): u64 { if cpu in m then m[cpu] else 0 }

  // CPU time per CPU since the previous read.
  function Deltas<Cpu>(prev: map<Cpu, u64>, cur: map<Cpu, u64>): map<Cpu, u64>
  {
    map cpu | cpu in cur :: Delta(At(prev, cpu), cur[cpu]) as u64
  }

  // The loop of Measure over the counters that were read.
  method DeltaPerCPU<Cpu(==)>(lastReadMap: map<Cpu, u64>, actualReadMap: map<Cpu, u64>)
    returns (deltaPerCPU: map<Cpu, u64>)
    ensures deltaPerCPU == Deltas(lastReadMap, actualReadMap)
  {
    deltaPerCPU := map[];
    var todo := actualReadMap.Keys;
    while todo != {}
      invariant todo <= actualReadMap.Keys
      invariant deltaPerCPU.Keys == actualReadMap.Keys - todo
      invariant forall cpu :: cpu in deltaPerCPU ==> deltaPerCPU[cpu] == Deltas(lastReadMap, actualReadMap)[cpu]
    {
      var cpu :| cpu in todo;
      var actual := actualReadMap[cpu];
      var prev := At(lastReadMap, cpu);
      if actual < prev {
        prev := 0;
      }
      deltaPerCPU := deltaPerCPU[cpu := actual - prev];
      todo := todo - {cpu};
    }
  }

  // The deltas of one CPU over successive readings, added up.
  function Summed<Cpu>(rs: seq<map<Cpu, u64>>, cpu: Cpu): nat
  {
    var n := |rs| - 1;
    if n <= 0 then 0
    else Summed(rs[..n], cpu) + At(Deltas(rs[n - 1], rs[n]), cpu)
  }

  lemma {:induction false} DeltaOf<Cpu>(prev: map<Cpu, u64>, cur: map<Cpu, u64>, cpu: Cpu)
    ensures At(Deltas(prev, cur), cpu) == Delta(At(prev, cpu), At(cur, cpu))
    ensures At(prev, cpu) <= At(cur, cpu) ==> At(Deltas(prev, cur), cpu) == At(cur, cpu) - At(prev, cpu)
  {
  }

  lemma {:induction false} SummedAtMost<Cpu>(rs: seq<map<Cpu, u64>>, cpu: Cpu, truth: seq<nat>)
    requires |rs| == |truth| > 0
    requires forall i :: 0 < i < |rs| ==>
               truth[i - 1] <= truth[i] && Plausible(At(rs[i - 1], cpu), At(rs[i], cpu), truth[i] - truth[i - 1])
    ensures truth[0] + Summed(rs, cpu) <= truth[|rs| - 1]
    ensures (forall i :: 0 < i < |rs| ==> At(rs[i - 1], cpu) <= At(rs[i], cpu)) ==>
              At(rs[0], cpu) + Summed(rs, cpu) == At(rs[|rs| - 1], cpu)
  {
    hide At, Deltas, Delta, Plausible;
    var n := |rs| - 1;
    if n > 0 {
      SummedAtMost(rs[..n], cpu, truth[..n]);
      DeltaOf(rs[n - 1], rs[n], cpu);
      DeltaAtMost(At(rs[n - 1], cpu), At(rs[n], cpu), truth[n] - truth[n - 1]);
    }
  }

  // The readings show one CPU's counter at the reads of its history of counting,
  // resets and reads.
  ghost predicate Shows<Cpu>(rs: seq<map<Cpu, u64>>, cpu: Cpu, es: seq<Event>)
  {
    && |rs| > 0 && |rs| == |Shown(At(rs[0], cpu), es)|
    && forall i :: 0 <= i < |rs| ==> At(rs[i], cpu) == Shown(At(rs[0], cpu), es)[i]
  }

  // Whenever the counter of a CPU is reset, the summed deltas never exceed what
  // was counted between baseline and last read; without a reset they are exactly
  // that.
  lemma {:induction false} NeverOverCounts<Cpu>(rs: seq<map<Cpu, u64>>, cpu: Cpu, es: seq<Event>)
    requires Shows(rs, cpu, es)
    ensures var t := Counters.After(Begin(At(rs[0], cpu)), es);
      && Summed(rs, cpu) <= t.countedAtRead <= t.counted
      && ((forall i :: 0 <= i < |es| ==> !es[i].Reset?) ==>
            Summed(rs, cpu) == t.countedAtRead == At(rs[|rs| - 1], cpu) - At(rs[0], cpu))
  {
    hide At, Summed, Plausible, Shown, CountedAt, Counters.After;
    var baseline := At(rs[0], cpu);
    ReadsPlausible(baseline, es);
    Counters.NeverOverCounts(baseline, es);
    SummedAtMost(rs, cpu, CountedAt(baseline, es));
    if forall i :: 0 <= i < |es| ==> !es[i].Reset? {
      ExactWithoutReset(baseline, es);
      NeverDecreases(baseline, es);
    }
  }

  datatype State = State(loaded: bool, lastReadMap: Times, lastReadTime: real, totalEnergyJ: real)

  // Energy between two readings, at the voltages and frequencies seen now.
  ghost function IntervalEnergy(c: Config, st: State, o: Observation): real
    requires c.Valid() && Fits(c, o) && o.read.Some?
  {
    var chip := Chip(c.realCoreOf, o.volts, o.freqs);
    Energy(Weights(c.chipCapacitance, chip), chip, Deltas(st.lastReadMap, o.read.value),
           Elapsed(o.now, st.lastReadTime, c.cadence))
  }

  ghost function AfterMeasure(c: Config, st: State, o: Observation): State
    requires c.Valid() && Fits(c, o)
  {
    if !st.loaded || o.read.None? then st
    else State(true, o.read.value, o.now, st.totalEnergyJ + IntervalEnergy(c, st, o))
  }

  ghost predicate Replies(c: Config, st: State, o: Observation, r: Reply)
    requires c.Valid() && Fits(c, o)
  {
    if !st.loaded || o.read.None? then r == Failed
    else Reports(r, "cpu", c.pid, o.now, Elapsed(o.now, st.lastReadTime, c.cadence), IntervalEnergy(c, st, o))
  }

  class EbpfMethod {
    const cfg: Config
    var loaded: bool
    var lastReadMap: Times
    var lastReadTime: real
    var power: PowerModel?
    var totalEnergyJ: real

    function View(): State
      reads this
    {
      State(loaded, lastReadMap, lastReadTime, totalEnergyJ)
    }

    ghost predicate Valid()
      reads this, power
    {
      && cfg.Valid()
      && (loaded ==>
            && power != null && power.realCoreOf == cfg.realCoreOf
            && power.chipCapacitance == cfg.chipCapacitance)
    }

    constructor (c: Config)
      requires c.Valid()
      ensures cfg == c && Valid() && View() == State(false, map[], 0.0, 0.0)
    {
      cfg := c;
      loaded, lastReadMap, lastReadTime, totalEnergyJ := false, map[], 0.0, 0.0;
      power := null;
    }

    // coresOk, loaderOk and read are the outcomes of mapRealCores, NewLoader and
    // the baseline read.
    method Start(coresOk: bool, loaderOk: bool, read: Option<Times>, now: real) returns (ok: bool)
      requires Valid() && !loaded
      modifies this
      ensures Valid() && (ok <==> coresOk && loaderOk && read.Some?)
      ensures View() == if ok then State(true, read.value, now, old(totalEnergyJ)) else old(View())
      ensures power != null ==> power == old(power) || fresh(power)
    {
      if !coresOk {
        return false;
      }
      power := new PowerModel(cfg.chipCapacitance, cfg.realCoreOf);
      if !loaderOk || read.None? {
        return false;
      }
      loaded := true;
      lastReadMap := read.value;
      lastReadTime := now;
      return true;
    }

    method Measure(o: Observation) returns (r: Reply)
      requires Valid() && Fits(cfg, o)
      modifies this, power
      ensures Valid() && power == old(power)
      ensures View() == AfterMeasure(cfg, old(View()), o)
      ensures Replies(cfg, old(View()), o, r)
    {
      hide Energy;
      if !loaded {
        return Failed;
      }
      var elapsedtime := o.now - lastReadTime;
      if elapsedtime <= 0.0 {
        elapsedtime := cfg.cadence;
      }
      if o.read.None? {
        return Failed;
      }
      var actualReadMap := o.read.value;
      var deltaPerCPU := DeltaPerCPU(lastReadMap, actualReadMap);
      var powerW, energyJ := power.EnergyOf(deltaPerCPU, elapsedtime, o.volts, o.freqs);
      r := Batch([Sample("cpu", cfg.pid, o.now, powerW, energyJ)]);
      assert Reports(r, "cpu", cfg.pid, o.now, elapsedtime, energyJ);
      totalEnergyJ := totalEnergyJ + energyJ;
      lastReadMap := actualReadMap;
      lastReadTime := o.now;
    }

    method Stop() returns (reported: real, closes: bool)
      modifies this
      ensures reported == old(totalEnergyJ) && closes == old(loaded) && !loaded
      ensures totalEnergyJ == old(totalEnergyJ)
    {
      reported, closes := totalEnergyJ, loaded;
      loaded := false;
    }
  }
}
