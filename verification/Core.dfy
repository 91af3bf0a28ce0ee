// What every measurement method has in common with the engine.
module Core {
  import opened Sums

  // Sample, with the two metrics that every method reports.
  datatype Sample = Sample(source: string, pid: nat, timestamp: real, powerW: real, energyJ: real)

  // What a call of Measure hands back: an error, or a batch that may be empty.
  datatype Reply = Failed | Batch(samples: seq<Sample>)

  // The sampling interval: time since the last read, or the configured cadence
  // when the clock did not advance.
  function Elapsed(now: real, last: real, cadence: real): real
  {
    if now - last <= 0.0 then cadence else now - last
  }

  // A batch of one sample: this energy, and its average power over the interval.
  predicate Reports(r: Reply, source: string, pid: nat, now: real, elapsed: real, energyJ: real)
  {
    && r.Batch? && |r.samples| == 1
    && r.samples[0].source == source && r.samples[0].pid == pid && r.samples[0].timestamp == now
    && r.samples[0].energyJ == energyJ
    && IsTimes(elapsed, r.samples[0].powerW, energyJ)
  }
}
