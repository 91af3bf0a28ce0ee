# EcoFloc, verified

EcoFloc turns kernel counters into energy. Handlers attached to the kernel count
bytes per network interface and nanoseconds per CPU; three measurement methods
difference such cumulative counters at every tick, convert the differences into
joules and keep a running total; an engine drives the methods and hands their
samples to the outputs. This project models that pipeline and proves what it
promises over whole runs, for every interleaving and every pattern of failures.

How the pieces are modelled:

- `NicKernel`, `CpuKernel`: each run of a handler is a small state machine that
  takes one map operation or one atomic add per step, and a run of the kernel is
  an arbitrary sequence of such steps. `BpfMaps` gives map entries an identity,
  so a pointer obtained by a lookup stays with its entry even if the key is given
  a new one. 64-bit counters wrap.
- `NicSystem` adds user space: a scan visits one entry per step, and the calls of
  `Start` and `Measure` begin and end scans at any moment. An iteration visits
  every key that was present when it began, each key once. `NicRuns` and `CpuRuns`
  say what a run does by the actions in it, `NicProgress` how far a handler gets
  on its own.
- `NicMethod`, `CpuMethod`, `RaplMethod`, `PowerModel`: classes with the fields
  of the Go structs, whose methods are proved against functions on values;
  `PowerLaws`, `Sampling`, `RaplLaws`, `RaplAttribution`, `RaplMisses`,
  `NicResets` and `Counters` prove what those functions mean over runs. Energy
  and power are exact reals. `CpuSystem` joins the CPU method to the kernel's
  events.
- `NicLoader` acquires and releases cgroup directory, links and eBPF objects on a
  `Host`, where any operation may fail and processes fork, exit and move between
  its steps; `Cgroups` has the theory of moving processes and moving them back.
- `Engine`, `EngineLaws`: the calls made on modules and outputs, with arbitrary
  answers. `Delivery` puts the three methods behind the engine.
- `Text`, `CpuInfo`, `ProcStat`, `MethodPairs`: the parsers, with the string
  functions of the Go library they use.

Automatic induction is switched off in every lemma; inductive proofs call
themselves.

`Options`, `Words`, `Sums`, `Reals` and `Core` hold what the others share. Sums
over maps do not depend on the order in which keys are visited, so loops over Go
maps are covered in every order.

Where the code and its description disagree, the code is modelled:

- The comment on the power model (modules/cpu/ebpf_method/power.go:24-26) speaks
  of a core's share of the chip capacitance, the loop uses all of it.
  `PowerLaws.WholeChipPerCore` says exactly when that makes no difference, and
  `PowerLaws.AboveTDP` shows a two-core chip reporting 1.4 times its TDP.
- `Validate` says that a sampling time of 0 means the default, but nothing
  replaces it, and the ticker panics: `EngineLaws.ValidButPanics`.
  `EngineLaws.PanicsExactly` says for which sampling times it does.
- A failed `Start` leaves the modules started before it running:
  `EngineLaws.StoppedUnlessStartFails`.
- A RAPL counter that also takes the value `max_energy_range_uj` loses a
  microjoule per wrap: `RaplLaws.InclusiveRange`.
- RAPL attribution to several processes conserves energy only as long as no
  process misses a tick and comes back: `RaplMisses.ConservesExactly`.

Assumptions, each visible as a hypothesis: cumulative byte counts and run times
stay below 2^64 where readings are related to amounts (`NoOverflow`); handlers on
one CPU do not overlap and there are at most 1024 CPUs (`CpuKernel.Reliable`,
which `CpuKernel.LosslessExactly` shows to be needed); between two samples a
process is not busier than the system (`FairShares`, `Consistent`);
the interfaces in nic.json have positive rates and the sampling cadence is
positive (`Valid`), as the module's own checks and the ticker require; all
physical cores belong to one package; while processes are moved, the conditions
`Calm` and `QuietAll` of the NIC loader.

## Model

| member | source | states |
|---|---|---|
| NicKernel.Conservation | modules/nic/bpf/nic_bpf.c:28-60 | under every interleaving of any number of packet handlers each counter is the sum of the lengths of exactly the packets whose atomic add has executed, an interface without entry has none, and a packet is dropped only when the map is full and lacks its interface |
| NicKernel.NothingLostOnceEntered | modules/nic/bpf/nic_bpf.c:45-60 | once an interface has an entry, the entry stays, none of its packets (earlier or later) is ever dropped, and when all handlers have finished its counters are the sums over all its packets |
| NicKernel.ExecInv | modules/nic/bpf/nic_bpf.c:35-60 | the inductive invariant: no insert resets a counter, and every pointer held by a handler is the current entry of its key |
| NicProgress.FourStepsFinish | modules/nic/bpf/nic_bpf.c:35-60 | whatever the other handlers are at, four steps of its own finish a handler |
| NicProgress.LonePacket | modules/nic/bpf/nic_bpf.c:41-60 | a packet handled on its own, with an entry or room for one, raises exactly its own counter by its length and leaves every other as it is |
| NicRead.ResolveInterfaces | modules/nic/bpf/loader.go:104-131 | every index leads to a configured name whose last listed entry has this index, every configured name that is listed is covered, the result is empty only if none is listed, and no two indexes share a name |
| NicRead.Read | modules/nic/bpf/loader.go:165-186 | the entries of configured interfaces by name, or an error when the iteration failed |
| NicRead.NamedLookup | modules/nic/bpf/loader.go:172-180 | a name is in the result exactly if its index was visited, with the value visited |
| NicMethod.EbpfMethod.Start | modules/nic/ebpf_method/ebpf.go:45-60 | success exactly if loader and baseline read succeed; then the baseline is the reference; otherwise there is no loader |
| NicMethod.EbpfMethod.Measure | modules/nic/ebpf_method/ebpf.go:62-124 | a successful read replaces the reference and adds the energy of the byte differences to the total and to the one sample, whose power is that energy over the interval; a failed one changes nothing |
| NicMethod.TotalPower | modules/nic/ebpf_method/ebpf.go:79-106 | the loop over interfaces, in any order: power times interval is the sum over interfaces of power/(1000 max rate) times bytes, with the interval cancelled |
| NicMethod.CostAtFullRate | modules/nic/ebpf_method/ebpf.go:95-101 | sending at the full upload rate, or receiving at the full download rate, for some seconds costs that power for these seconds |
| NicMethod.Telescope | modules/nic/ebpf_method/ebpf.go:82-113 | over growing readings the energies of two consecutive intervals add up to that of the whole |
| NicMethod.TotalIsLastMinusBaseline | modules/nic/ebpf_method/ebpf.go:67-113 | after any run, whichever ticks fail and whenever they come, the total is the energy of last reading minus baseline |
| NicResets.NeverOverCharges | modules/nic/ebpf_method/ebpf.go:82-113 | for any histories of increments, resets and reads of the counters and any failing reads, the total never exceeds the energy of the bytes counted between baseline and last successful read |
| NicRuns.EndToEnd | modules/nic/ebpf_method/ebpf.go:45-113 | for every interleaving of handlers, scans and Measure calls, any of them failing, told by the positions of the actions: the total lies between the energy of the bytes accounted from the end of the baseline scan to the begin of the last completed scan and that from the begin of the first to the end of the last |
| NicRuns.QuietScansAreExact | modules/nic/ebpf_method/ebpf.go:67-113 | with no packet handled during these two scans the total is exactly the energy of the bytes accounted between them |
| NicRuns.NothingBeforeFirstTick | modules/nic/ebpf_method/ebpf.go:45-60 | until a scan of Measure completes there is no energy |
| NicRuns.StartKeeps | modules/nic/ebpf_method/ebpf.go:51-59 | a scan of Start that visits what it found becomes the baseline, with the moments it began and ended |
| NicRuns.MeasureKeeps | modules/nic/ebpf_method/ebpf.go:73-112 | a scan of Measure that visits what it found becomes the new reference, and its difference to the one before is added to the total |
| NicRuns.ErrorKeeps | modules/nic/ebpf_method/ebpf.go:74-77 | a scan of Measure that fails changes nothing |
| NicSystem.TotalOfReadings | modules/nic/ebpf_method/ebpf.go:67-113 | in every reachable state the total is the energy of last value minus baseline value per interface |
| NicSystem.ActionInv | modules/nic/ebpf_method/ebpf.go:62-113 | every step of the combined system keeps the invariant behind the end-to-end result |
| NicSystem.CompleteScan | modules/nic/bpf/loader.go:165-186 | a non-atomic scan yields, for every configured interface, values between those at its begin and at its end |
| NicSystem.ReadBetweenAccounted | modules/nic/ebpf_method/ebpf.go:82-108 | the energy between two scans lies between that of the bytes accounted inside and around them |
| Counters.NeverOverCounts | modules/nic/ebpf_method/ebpf.go:82-93 | for any sequence of increments, resets and reads, the summed differences never exceed what was counted since the baseline |
| Counters.ExactWithoutReset | modules/nic/ebpf_method/ebpf.go:82-93 | without a reset they are last minus baseline, and that is the amount counted |
| Counters.DeltaOfInterval | modules/nic/ebpf_method/ebpf.go:83-93 | the delta of one interval: all that was counted without a reset, and otherwise at least what was counted since the last reset exactly if the decrease is seen or the counter stood at 0 |
| CpuMethod.NeverOverCounts | modules/cpu/ebpf_method/ebpf.go:89-100 | for any history of a CPU's counter, its differences summed over successive readings never exceed what was counted by the last read, and are last minus baseline without a reset |
| CpuKernel.NothingLost | modules/cpu/ebpf_method/bpf_utils/kernel_bpf.c:37-69 | with handlers on one CPU serialised, every finished handler counted its event unless it was of the idle task or of another group than the target, each entry is the total runtime of the events it should hold, and only keys of the target exist |
| CpuRuns.OthersLeaveNothing | modules/cpu/ebpf_method/bpf_utils/kernel_bpf.c:41-53 | as long as only the idle task and other groups than the target run, the map stays empty |
| CpuRuns.LoneEvent | modules/cpu/ebpf_method/bpf_utils/kernel_bpf.c:41-66 | an event of the target handled on its own adds exactly its runtime to the counter of its CPU and leaves every other as it is |
| CpuRuns.FourStepsFinish | modules/cpu/ebpf_method/bpf_utils/kernel_bpf.c:38-69 | whatever the other handlers are at, four steps of its own finish a handler |
| CpuKernel.InsertCreates | modules/cpu/ebpf_method/bpf_utils/kernel_bpf.c:55-64 | an insert with BPF_ANY always finds its key absent and the map not full, so it replaces nothing |
| CpuKernel.ReadsAreTotals | modules/cpu/ebpf_method/bpf_utils/loader.go:59-81 | each successful Read returns per CPU a total between those at the two ends of its scan, and successive Reads never decrease |
| CpuRuns.ScanIsReading | modules/cpu/ebpf_method/bpf_utils/loader.go:59-81 | every scan that visits the keys it found becomes one more reading, with values between the runtimes accounted when it began and when it ended |
| CpuKernel.ActInv | modules/cpu/ebpf_method/bpf_utils/loader.go:26-53 | the invariant across all steps, including that the target is set before the attach and never changes while handlers exist |
| CpuKernel.LosslessExactly | modules/cpu/ebpf_method/bpf_utils/kernel_bpf.c:30-66 | no run loses an event exactly if there is no CPU, or handlers on one CPU are serialised and there are at most 1024 CPUs |
| CpuKernel.OverlapLoses | modules/cpu/ebpf_method/bpf_utils/kernel_bpf.c:55-66 | without serialisation there is a run in which two handlers of the target count and the map keeps only one of the events |
| CpuKernel.FullMapDrops | modules/cpu/ebpf_method/bpf_utils/kernel_bpf.c:58-64 | with more than 1024 CPUs there is a run in which a matching event is dropped |
| CpuSystem.EndToEnd | modules/cpu/ebpf_method/ebpf.go:71-118 | for every interleaving of scheduler events and scans and every run on the resulting readings with failing ticks and steady sensors, the total is at most the energy of the time accounted around first and last scan, and with a one-sided clamp at least that of the time accounted between them |
| CpuSystem.SamplePowerBound | modules/cpu/ebpf_method/power.go:48-121 | a method configured from the features in cpu.json reports at most 0.7 TDP per occupied physical core at every tick with sensors at most at TDP level |
| CpuKernel.Read | modules/cpu/ebpf_method/bpf_utils/loader.go:59-81 | the entries of the target by CPU, or an error when the iteration failed |
| PowerModel.PowerModel.EnergyOf | modules/cpu/ebpf_method/power.go:62-122 | energy is the sum over physical cores of C (mean V)^2 (mean f) min(sum of run times, interval), power is that over the interval; nothing for an empty interval |
| PowerModel.FoldCores | modules/cpu/ebpf_method/power.go:80-100 | one distinct record per physical core that has an eligible virtual core, holding the folded sums of its group |
| PowerModel.SumCores | modules/cpu/ebpf_method/power.go:105-117 | the loop over the records, in any order, adds up their clamped contributions, skipping idle ones |
| PowerModel.FoldIsSum | modules/cpu/ebpf_method/power.go:83-100 | folding core by core gives the sums and the number over exactly the eligible virtual cores of the group |
| PowerLaws.RunTimesPartition | modules/cpu/ebpf_method/power.go:83-100 | every eligible virtual core is counted in exactly one group: the groups' run times add up to that of all eligible virtual cores |
| PowerLaws.PowerBound | modules/cpu/ebpf_method/power.go:48-49 | with voltages and frequencies at most at TDP level, power lies between 0 and 0.7 TDP per physical core with an eligible virtual core, for any run times, topology and interval |
| PowerLaws.MeanVoltBetween | modules/cpu/ebpf_method/power.go:114-115 | the mean voltage of a group lies between any bounds on its members |
| PowerLaws.EnergyNonNegative | modules/cpu/ebpf_method/power.go:105-121 | reported energy is never negative, whatever the sensors show |
| PowerLaws.WholeChipPerCore | modules/cpu/ebpf_method/power.go:116-116 | the reported energy is n times the one described for n cores sharing the capacitance, equal to it exactly if n is 1 or no eligible virtual core has any run time |
| PowerLaws.AboveTDP | modules/cpu/ebpf_method/power.go:24-26 | two busy cores at TDP level are charged 1.4 times the TDP of the chip |
| PowerLaws.VoltageBitsAreField | modules/cpu/ebpf_method/power.go:155-155 | the extracted bits are bits 47 to 32 of the register and do not depend on the others |
| CpuMethod.EbpfMethod.Start | modules/cpu/ebpf_method/ebpf.go:42-67 | success exactly if topology, loader and baseline read succeed; otherwise the method keeps its state |
| CpuMethod.EbpfMethod.Measure | modules/cpu/ebpf_method/ebpf.go:71-118 | a successful read adds the energy of the per-CPU differences to the total and to the sample and becomes the reference; a failed one changes nothing |
| CpuMethod.DeltaPerCPU | modules/cpu/ebpf_method/ebpf.go:91-100 | the differences per CPU, a counter that decreased starting from 0 |
| Sampling.FinerNeverMore | modules/cpu/ebpf_method/power.go:96-116 | cutting a run into ticks never increases the reported energy, and keeps it exactly if on each core either no tick is exceeded by the run time or every tick is filled |
| Sampling.RunAtMostOneTick | modules/cpu/ebpf_method/ebpf.go:93-107 | the same for runs of the method with failing ticks |
| RaplMethod.RaplMethod.Start | modules/cpu/rapl_method/rapl.go:49-75 | success exactly if domain, range, counter and, for a process, its CPU times are readable; after a failure each reference holds what its read left in it |
| RaplMethod.RaplMethod.Measure | modules/cpu/rapl_method/rapl.go:77-133 | all references are renewed together from one successful sample, which carries the interval's (attributed) energy; a failed read or an exited process changes nothing |
| RaplLaws.WrapAround | modules/cpu/rapl_method/rapl.go:88-122 | for the whole system and for any process, with reads that fail and a process that exits: if readings are the true energy modulo the range, the reference is the last sample and the measured energy is at most the true one, congruent to it, and equal exactly if less than one range passes between samples; the system reports all of it, a process never busier than the system at most the true energy |
| RaplLaws.InclusiveRange | modules/cpu/rapl_method/rapl.go:92-98 | if the counter also takes the maximum, the energy measured for the system or a process falls short by exactly the number of intervals over which the reading went down |
| RaplLaws.ReportedOfMeasured | modules/cpu/rapl_method/rapl.go:102-122 | of the energy it measured the system reports all; a process never busier than the system between nothing and all of it, and all of it when it alone is ever busy |
| RaplAttribution.AttributionConserves | modules/cpu/rapl_method/rapl.go:102-122 | what is attributed to any set of processes, exiting at any time, is at most the measured energy over the whole run, and all of it if they make up the busy time at every tick |
| RaplAttribution.TickTotals | modules/cpu/rapl_method/rapl.go:110-117 | the same for every single tick |
| RaplMisses.ConservesExactly | modules/cpu/rapl_method/rapl.go:102-122 | for a given pattern of missed ticks attribution conserves energy for all counters exactly if a process that misses a tick at which another is sampled is never sampled again |
| RaplAttribution.MissedTickOverAttributes | modules/cpu/rapl_method/rapl.go:106-109 | an instance: a process misses one of two ticks, and 199 J of 100 J are attributed |
| NicLoader.Loader.NewLoader | modules/nic/bpf/loader.go:40-100 | success exactly if no operation fails, an interface is found and the process lives until it is moved; on failure at any step links and objects are released and, if nothing interfered with the moves, processes and directories are as without the loader; on success both programs are attached and only displaced processes are in the new directory |
| NicLoader.AcquiresExactly | modules/nic/bpf/loader.go:43-99 | for a process that lives on, a loader can be had exactly if nothing done for it fails and some listed interface is configured |
| NicLoader.EnteredStays | modules/nic/bpf/loader.go:223-232 | the process is then in the directory ecofloc-PID below the cgroup it was found in |
| NicLoader.Loader.AttachCgroup | modules/nic/bpf/loader.go:134-158 | both programs are attached or none, but for an egress link that cannot be closed again |
| NicLoader.Loader.CreateCgroupChild | modules/nic/bpf/loader.go:216-238 | a new directory below the process's cgroup with the process in it, exactly if no operation fails and the process is alive; otherwise no trace but a directory whose removal failed |
| NicLoader.Loader.CleanupChildCgroup | modules/nic/bpf/loader.go:242-267 | the listed processes are written back one by one and the directory is removed if no process is left in it |
| NicLoader.Loader.Close | modules/nic/bpf/loader.go:190-212 | the first failure is reported; every link and object whose own closing does not fail is released, whatever else fails, and the processes are restored |
| NicLoader.Session | modules/nic/ebpf_method/ebpf.go:45-132 | from Start to Stop, with forks, exits and moves at any time: it starts exactly if a loader can be had and the baseline read, no link or object stays but those whose closing fails, every process is where those events alone would have left it, and the directories are the same |
| Cgroups.Restored | modules/nic/bpf/loader.go:252-266 | writing back the listed processes empties the child and restores every process, if nothing enters the child meanwhile |
| Cgroups.RenamedAfter | modules/nic/bpf/loader.go:230-234 | forks, exits and moves elsewhere keep exactly the displaced processes in the child |
| Cgroups.ForkEscapes | modules/nic/bpf/loader.go:253-266 | a fork between the listing and its parent's own turn leaves the new process in the child |
| Cgroups.RestoredExactly | modules/nic/bpf/loader.go:223-266 | whether or not the directory existed before: processes are restored exactly if by the end none would have been in a directory of that name without the loader |
| Engine.Engine.Run | core/engine.go:26-72 | the calls made on modules and outputs and the outcome, for arbitrary answers and signals |
| Engine.Engine.Sample | core/engine.go:75-84 | one round: each module measured, its successful batch offered |
| Engine.Aggregator.Process | core/aggregator.go:22-33 | a batch that is not empty is offered to every output, failing ones included |
| Engine.Aggregator.CloseAll | core/aggregator.go:36-46 | every output is closed and the first failure returned |
| EngineLaws.RunIsExpected | core/engine.go:26-84 | every run consists of exactly the expected calls, each once, in the only allowed order: starts, whole rounds, stops |
| EngineLaws.SamplesUntilEnd | core/engine.go:62-71 | the loop samples once for every tick before the first cancellation or, with a duration configured, the first deadline, and for none after it |
| EngineLaws.DurationOf | core/config.go:68-73 | a positive interval up to the largest duration is that many seconds; a positive interval sets a deadline exactly if its nanoseconds are positive as a 64-bit word, and no other interval does |
| EngineLaws.CadenceOf | core/config.go:62-64 | a sampling time up to the largest duration is that many milliseconds |
| EngineLaws.StoppedUnlessStartFails | core/engine.go:28-44 | all started modules are stopped exactly if no start fails or the first one does |
| EngineLaws.PanicsExactly | core/engine.go:47-47 | with all modules running the ticker panics exactly if the sampling time in nanoseconds, as a 64-bit word, is 0 or has the sign bit |
| EngineLaws.ValidButPanics | core/config.go:76-97 | a configuration with sampling time 0 is valid and makes the ticker panic |
| Delivery.DeliveredIsReported | core/engine.go:75-84 | what an output received from a module plus what failed writes lost is the total the module reports at Stop; nothing is lost if all writes succeed |
| Delivery.ReferencesTogether | modules/cpu/rapl_method/rapl.go:82-122 | in all three methods the stored counters and the time of the last read come from the same successful sample, the last one, or from Start |
| Delivery.IntervalsTile | modules/cpu/ebpf_method/ebpf.go:76-107 | with an advancing clock the intervals of the delivered samples tile the time from start to last success |
| Delivery.WorkIsEnergy | modules/nic/ebpf_method/ebpf.go:67-123 | power times interval, summed over the delivered samples, is the total energy |
| Delivery.OneTick | modules/cpu/rapl_method/rapl.go:120-132 | at every tick of every method the delivered energy is what the total grows by, and the power is that over the time since the last success, or over the cadence if the clock did not advance |
| Delivery.SampleOf | modules/cpu/rapl_method/rapl.go:124-132 | a sample names its module and the configured PID |
| Delivery.NothingDelivered | modules/cpu/rapl_method/rapl.go:78-109 | Measure fails exactly if the counters cannot be read; an exited process gives an empty batch instead |
| CpuInfo.MapRealCores | modules/cpu/ebpf_method/power.go:182-220 | the loop computes the line-by-line scan of the file, or fails |
| CpuInfo.TopologyRoundTrip | modules/cpu/ebpf_method/power.go:194-215 | rendering any blocks with arbitrary unrelated or malformed lines between and parsing it gives, for each processor in range, the core id of its last block and -1 elsewhere |
| ProcStat.ReadCPUTimes | modules/cpu/rapl_method/rapl.go:178-217 | the two busy times, or nothing if a file is unreadable or malformed |
| ProcStat.CpuTimesRoundTrip | modules/cpu/rapl_method/rapl.go:178-217 | from both rendered files the busy time of the process is read as that of the process and the busy time of the system as the total; without one of the files there is nothing |
| ProcStat.ShortLineRefused | modules/cpu/rapl_method/rapl.go:193-195 | a process line with fewer than 13 fields after the name is refused |
| ProcStat.ShortStatRefused | modules/cpu/rapl_method/rapl.go:207-209 | a system line with fewer than 7 values is refused |
| ProcStat.OtherLineRefused | modules/cpu/rapl_method/rapl.go:207-209 | a first line that does not begin with cpu is refused |
| ProcStat.PidTimeRoundTrip | modules/cpu/rapl_method/rapl.go:185-198 | for any process name, parentheses, spaces and newlines included, utime plus stime is read back |
| ProcStat.SystemTimeRoundTrip | modules/cpu/rapl_method/rapl.go:205-216 | the system line gives the sum of its values without idle and iowait |
| ProcStat.DependsOnAllButIdle | modules/cpu/rapl_method/rapl.go:210-216 | changing one value changes the total exactly if it is neither idle nor iowait |
| MethodPairs.ParseMethodPairs | core/config.go:126-145 | for every string: failure exactly if some element is bad, otherwise the last element wins for each name |
| MethodPairs.BadMeans | core/config.go:129-141 | an element is bad exactly if it is not blank and lacks a colon or has a blank side |
| MethodPairs.MethodListRoundTrip | core/config.go:126-145 | any rendering of a map, with extra white space and empty elements, parses to that map and nothing else |
| Text.ParseUintItoa | modules/cpu/rapl_method/rapl.go:196-197 | parsing a printed number gives it back, or the largest 64-bit word with an error if it is larger |
| Text.AtoiItoa | modules/cpu/ebpf_method/power.go:202-210 | a printed number, with or without a sign, is read back exactly if it fits a 64-bit integer |
| Text.TrimSpaceMeans | core/config.go:130-130 | trimming takes away white space at both ends, and all of it |
| Text.AsciiSpaces | core/config.go:130-130 | among ASCII characters, tab, newline, vertical tab, form feed, carriage return and space are white space |

## Left out

- Floating-point rounding: power and energy are exact reals.
- Updates of BPF maps that fail for other reasons than a present key or a full map (out of kernel memory).
- The system calls behind files, sysfs, MSRs, cgroups and BPF: their outcomes are arguments.
- The text of /proc/PID/cgroup: looking up the cgroup of a process either fails or gives the one it is in.
- Sub-directories that others create inside the child cgroup, which would keep it from being removed.
- The fallback to the last power in `energy`: both sensor readers always return without error.
- Fairness of `select` and wall-clock timing of tickers and timers: ticks, deadline and cancellation come as arbitrary signals.
- Process lookup by name, JSON configuration, flags, registries, the MQTT and CSV outputs, and the empty disk, GPU and RAM modules: no property beyond their single branches.
- Stopping the NIC method twice: its loader stays set, so a second Stop would close it again.
- Several packages: cores are identified by core id alone, as in the code, so equal ids of two packages would share a record.
- A RAPL counter range of 0, for which a reading modulo the range has no meaning: `RaplLaws.WrapAround` assumes a positive one.
