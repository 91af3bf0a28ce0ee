// The RAPL method: a wrapping energy counter differenced per tick, and for one
// process its share by busy CPU time.
module RaplMethod {
  import opened Words
  import opened Options
  import opened Core
  import opened Sums

  // Busy CPU time of the target process and of the whole system.
  datatype CpuTimes = CpuTimes(pid: u64, total: u64)

  // pid 0 is the whole system.
  datatype Config = Config(pid: nat, cadence: real)
  {
    ghost predicate Valid() { cadence > 0.0 }
  }

  // What one Measure sees: the clock, the energy counter, the CPU times.
  datatype Observation = Observation(now: real, energyUJ: Option<u64>, cpu: Option<CpuTimes>)

  datatype State = State(
    started: bool, maxEnergyUJ: u64, lastEnergyUJ: u64, lastCPU: CpuTimes, lastReadTime: real, totalEnergyJ: real)

  // A value and whether reading it succeeded.
  datatype Read<T> = Read(value: T, ok: bool)

  // Every read up to the first that fails sets its reference; only a Start that
  // succeeds sets the time, and once the domain is found the method counts as
  // started.
  function AfterStart(c: Config, st: State, domainOk: bool, max: Read<u64>, energyUJ: Read<u64>, cpu: Read<CpuTimes>,
    now: real): State
  {
    if !domainOk then st
    else
      var counted := max.ok;
      var metered := counted && energyUJ.ok;
      var ok := metered && (c.pid > 0 ==> cpu.ok);
      State(true, max.value,
            if counted then energyUJ.value else st.lastEnergyUJ,
            if metered && c.pid > 0 then cpu.value else st.lastCPU,
            if ok then now else st.lastReadTime,
            st.totalEnergyJ)
  }

  // Microjoules since the last reading, for a counter that wraps at max.
  function DeltaUJ(last: u64, cur: u64, max: u64): u64
  {
    if cur >= last then cur - last else Add64(Sub64(max, last), cur)
  }

  function Joules(deltaUJ: nat): real { deltaUJ as real / 1000000.0 }

  // The part of an interval's energy that goes to the process.
  function Attributed(energyJ: real, last: CpuTimes, cur: CpuTimes): real
  {
    var pidDelta := Sub64(cur.pid, last.pid);
    var totalDelta := Sub64(cur.total, last.total);
    if totalDelta > 0 then energyJ * (pidDelta as real / totalDelta as real) else 0.0
  }

  predicate Succeeds(c: Config, st: State, o: Observation)
  {
    st.started && o.energyUJ.Some? && (c.pid > 0 ==> o.cpu.Some?)
  }

  // Energy reported by a Measure that succeeds.
  function IntervalEnergy(c: Config, st: State, o: Observation): real
    requires Succeeds(c, st, o)
  {
    var energyJ := Joules(DeltaUJ(st.lastEnergyUJ, o.energyUJ.value, st.maxEnergyUJ));
    if c.pid > 0 then Attributed(energyJ, st.lastCPU, o.cpu.value) else energyJ
  }

  // A Measure that succeeds takes all its references from the same observation;
  // one that does not, because of a failed read or a process that is gone,
  // changes nothing.
  function AfterMeasure(c: Config, st: State, o: Observation): State
  {
    if !Succeeds(c, st, o) then st
    else State(true, st.maxEnergyUJ, o.energyUJ.value, if c.pid > 0 then o.cpu.value else st.lastCPU, o.now,
               st.totalEnergyJ + IntervalEnergy(c, st, o))
  }

  predicate Replies(c: Config, st: State, o: Observation, r: Reply)
  {
    if !st.started || o.energyUJ.None? then r == Failed
    else if !Succeeds(c, st, o) then r == Batch([])
    else Reports(r, "cpu", c.pid, o.now, Elapsed(o.now, st.lastReadTime, c.cadence), IntervalEnergy(c, st, o))
  }

  method Attribute(energyJ: real, last: CpuTimes, cur: CpuTimes) returns (e: real)
    ensures e == Attributed(energyJ, last, cur)
  {
    var pidDelta := Sub64(cur.pid, last.pid);
    var totalDelta := Sub64(cur.total, last.total);
    if totalDelta > 0 {
      e := energyJ * (pidDelta as real / totalDelta as real);
    } else {
      e := 0.0;
    }
  }

  class RaplMethod {
    const cfg: Config
    var started: bool // energyPath != ""
    var maxEnergyUJ: u64
    var lastEnergyUJ: u64
    var lastCPU: CpuTimes
    var lastReadTime: real
    var totalEnergyJ: real

    function View(): State
      reads this
    {
      State(started, maxEnergyUJ, lastEnergyUJ, lastCPU, lastReadTime, totalEnergyJ)
    }

    constructor (c: Config)
      ensures cfg == c && View() == State(false, 0, 0, CpuTimes(0, 0), 0.0, 0.0)
    {
      cfg := c;
      started, maxEnergyUJ, lastEnergyUJ, lastCPU := false, 0, 0, CpuTimes(0, 0);
      lastReadTime, totalEnergyJ := 0.0, 0.0;
    }

    // What the reads give.  Go assigns the value of a read together with its error,
    // so a read that fails still overwrites its field.
    method Start(domainOk: bool, max: Read<u64>, energyUJ: Read<u64>, cpu: Read<CpuTimes>, now: real)
      returns (ok: bool)
      modifies this
      ensures ok <==> domainOk && max.ok && energyUJ.ok && (cfg.pid > 0 ==> cpu.ok)
      ensures ok ==> View() == State(true, max.value, energyUJ.value,
                                     if cfg.pid > 0 then cpu.value else old(lastCPU), now, old(totalEnergyJ))
      ensures View() == AfterStart(cfg, old(View()), domainOk, max, energyUJ, cpu, now)
    {
      if !domainOk {
        return false;
      }
      started := true;
      maxEnergyUJ := max.value;
      if !max.ok {
        return false;
      }
      lastEnergyUJ := energyUJ.value;
      if !energyUJ.ok {
        return false;
      }
      if cfg.pid > 0 {
        lastCPU := cpu.value;
        if !cpu.ok {
          return false;
        }
      }
      lastReadTime := now;
      return true;
    }

    method Measure(o: Observation) returns (r: Reply)
      requires cfg.Valid()
      modifies this
      ensures View() == AfterMeasure(cfg, old(View()), o)
      ensures Replies(cfg, old(View()), o, r)
    {
      hide Attributed, IsTimes;
      if !started {
        return Failed;
      }
      var elapsed := o.now - lastReadTime;
      if elapsed <= 0.0 {
        elapsed := cfg.cadence;
      }
      if o.energyUJ.None? {
        return Failed;
      }
      var cur := o.energyUJ.value;
      var deltaUJ: u64;
      if cur >= lastEnergyUJ {
        deltaUJ := cur - lastEnergyUJ;
      } else {
        deltaUJ := Add64(Sub64(maxEnergyUJ, lastEnergyUJ), cur);
      }
      var energyJ := deltaUJ as real / 1000000.0;
      if cfg.pid > 0 {
        if o.cpu.None? {
          return Batch([]);
        }
        energyJ := Attribute(energyJ, lastCPU, o.cpu.value);
        lastCPU := o.cpu.value;
      }
      lastEnergyUJ := cur;
      lastReadTime := o.now;
      totalEnergyJ := totalEnergyJ + energyJ;
      var powerW := energyJ / elapsed;
      AveragePower(energyJ, elapsed);
      return Batch([Sample("cpu", cfg.pid, o.now, powerW, energyJ)]);
    }

    method Stop() returns (reported: real, wasStarted: bool)
      modifies this
      ensures reported == old(totalEnergyJ) && wasStarted == old(started) && !started
      ensures totalEnergyJ == old(totalEnergyJ)
    {
      reported, wasStarted := totalEnergyJ, started;
      started := false;
    }
  }

  function AfterRun(c: Config, st: State, obs: seq<Observation>): State
  {
    if obs == [] then st
    else AfterMeasure(c, AfterRun(c, st, obs[..|obs| - 1]), obs[|obs| - 1])
  }
}
