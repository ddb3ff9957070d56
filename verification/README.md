# Verified model of the R9V runtime tools

R9V serves a mixture-of-experts model on two GPUs. Around the server stand planners, trackers and small exact
algorithms whose mistakes would be silent: an expert evicted while in use, a placement that runs out of memory after
loading, a log that loses the fault it was kept for. This project models them in Dafny and proves what they promise.
Code that works in place is modelled by classes and loops proved against specification functions; the promises are
then lemmas about those functions, over every input and every run.

- `PinnedCache*`: the expert cache planner, its device loops, and its meaning as a pinned least-recently-used cache.
- `RankedExperts`, `RankedCatalog`, `CatalogMeaning`, `Placement`, `TrimmedPlacement`, `MemoryEnvelope`, `ExpertPlan`,
  `LaunchCheck`, `PlanMeaning`: from route counts to a ranked catalog, a memory budget, the largest placement that
  fits, and the check before launch. Layers and experts per layer are parameters; the two ranks are not.
- `ConfigSchema`, `LayeredConfig`, `EffectiveConfig`, `ConfigFlatten`, `ConfigPrecedence`, `ConfigRuns`,
  `ConfigMeaning`, `ConfigSample`, `EditDistance`: layered configuration with precedence, whole-layer updates,
  cross-field rules, settings found in a file, whole runs of layers, and suggestions for misspelt keys. The schema is
  a parameter.
- `RotatingLog`, `FaultWindow`: bounded rotating logs with a freeze latch, and the three-file timeline.
- `SeededRng`, `SeededRngCycles`, `ByteSize`, `ByteSizeExact`, `ByteSizeText`, `ByteSizeUnits`, `Quantizer`,
  `QuantizerBlocks`, `IntervalUnion`: exact arithmetic on words, decimals, reals and interval ticks.
- `CaptureTrackers`, `CaptureMeaning`, `RemoteWatch`, `RemoteWatchRuns`, `RemoteWatchMeaning`, `LineStream`,
  `GpuTrace`, `GpuTraceRuns`, `GpuTraceMeaning`: state machines over event streams.
- `Sets`, `Sorting`, `Decimal`, `Results`: shared vocabulary.

The modules named for a meaning, and `PinnedCacheOrder` and `ByteSizeUnits`, say the same things once more in plain
fields, bytes and positions, without the specification functions the loops are proved against, so that those functions
are themselves held to what the program does.

What the proofs found about the code, each with its exact condition:

- A setting whose type may be "auto" is read from variables, flags and requests as text, so a concrete number for
  `scheduler.step_budget_ms` or `io.repack_threads` is accepted only from a file
  (`ConfigSchema.AutoNumbersReadOnlyAuto`, `ConfigSample.BudgetOnlyFromFile`), although the former is declared
  changeable while running.
- Two layers accepted in one order are accepted in the other exactly when the second alone keeps the cross-field rules
  (`ConfigPrecedence.OtherOrderIff`, and a flag and a file refused in one order in `ConfigSample.OrderMatters`).
- A setting under its current name is found wherever it is written in a file with no setting above it
  (`ConfigFlatten.DeclaredFoundIff`). A former name is found only where settings of today lie in its section
  (`ConfigFlatten.FoundIff`): a setting that moved out of a section left empty is still understood as a flag, and lost
  in a file (`ConfigFlatten.MovedIsLost`). No setting of the program has a former name so far.
- A size with 24 or more fraction digits can denote whole bytes and still be refused as an overflow
  (`ByteSizeText.LongTextRefused`, a text of 342255273508864 bytes); the exact condition is that the fraction fits
  (`ByteSizeText.ParseTextIff`), and up to 23 digits it always does.
- The maximum headroom named in a planning error is clamped at zero, which hides a problem exactly when no headroom is
  asked and nothing would be left free (`ExpertPlan.ClampHidesIff`).
- Log segments are bounded exactly with at least two segments or only empty records (`RotatingLog.BoundedIff`), and
  logs stay record suffixes exactly when no log is named like a segment of another (`FaultWindow.PromiseIff`).
- Byte fills compose exactly at multiples of eight, over all states (`SeededRng.FillsJoinIff`) and over the states
  that seeded generators reach (`SeededRngCycles.SeededFillsJoinIff`); the new generator of seed 0 already loses bytes
  when a fill is split inside its first word (`SeededRngCycles.SeedZeroSplit`).
- A catalog reranked without preserved prefixes is sure not to regress exactly when the source already keeps the
  experts the training counts would pick (`RankedCatalog.VerdictIff`); with preserved prefixes it never does.
- The two trace readers agree exactly when no dispatch is open again after a completion (`GpuTraceRuns.AgreeIff`); a
  stream without errors on which they differ uses a completed number again (`GpuTraceRuns.ReuseDisagrees`).
- A reported interval union stays within the sum of durations beside it exactly when no duration is negative
  (`IntervalUnion.UnionAtMostDurationsIff`).

## Model

| member | source | states |
|---|---|---|
| `PinnedCacheRuns.ReplayIsLru` | tools/pin_sim/pin_sim.cpp:13-36 | From a fresh cache, every event of every replay is a step of an abstract pinned least-recently-used cache: only requested experts enter, requested and pinned ones never leave, what leaves was last requested no later than anything unprotected that stays, and nothing leaves before the cache is full |
| `PinnedCacheRuns.StepIsLru` | tools/pin_sim/pin_sim.cpp:17-35 | One event on any valid cache is such a step, with the slot clocks as ages |
| `PinnedCacheRuns.ClockIsLastUse` | tools/pin_sim/pin_sim.cpp:34-35 | After any replay the clock of a resident expert is the number of the last event that requested it, and the event counter is the number of events |
| `PinnedCacheRuns.PinnedForever` | tools/pin_sim/pin_sim.cpp:24-32 | Over every replay no slot is emptied and a filled slot below the pin count keeps its expert |
| `PinnedCacheRuns.StepKeepsValid` | tools/pin_sim/pin_sim.cpp:13-36 | Slot array and expert map stay mutually inverse through an event, slots change only if they were free or evictable, and only to requested experts |
| `PinnedCacheRuns.AdmissionCount` | tools/pin_sim/pin_sim.cpp:18-33 | An event admits 0 when the distinct requests exceed half the capacity, otherwise the minimum of misses, insertion limit and free plus evictable slots |
| `PinnedCacheRuns.AdmitWho` | tools/pin_sim/pin_sim.cpp:22-33 | Exactly the leading candidates gain a slot, and no requested expert loses one |
| `PinnedCacheRuns.RequestedResidents` | tools/pin_sim/pin_sim.cpp:34-37 | The requested experts resident afterwards are the distinct requests less the reported uncached count, and the ones without a slot are the misses after the admitted ones |
| `PinnedCacheRuns.AdmitEvictsWhenFull` | tools/pin_sim/pin_sim.cpp:24-30 | An expert loses its slot only when no slot is left empty, and only from an evictable slot |
| `PinnedCacheRuns.AdmitEvictsLeastClock` | tools/pin_sim/pin_sim.cpp:26-31 | A lost expert's clock is least among the evictable slots that keep their expert |
| `PinnedCacheRuns.StepGrows` | tools/pin_sim/pin_sim.cpp:24-32 | Occupied slots stay occupied, so the resident count never falls |
| `PinnedCacheRuns.ResidentCount` | tools/pin_sim/pin_sim.cpp:24-32 | The cache fills up before anything leaves: residents grow by the newcomers up to the capacity |
| `PinnedCache.Target` | tools/pin_sim/pin_sim.cpp:23-29 | The next admission goes to a slot that is free or evictable if there is one at all; to an occupied slot only when none is empty, and then one of least clock |
| `PinnedCache.LeastClock` | tools/pin_sim/pin_sim.cpp:26-28 | The evictable slot with the smallest clock, the lowest on a tie |
| `PinnedCacheOrder.EarlierFirst` | tools/pin_sim/pin_sim.cpp:17-33 | In any event, an expert without a slot that is first requested earlier enters before one first requested later |
| `PinnedCacheOrder.EntersSoonest` | tools/pin_sim/pin_sim.cpp:22-33 | An entering expert takes an open slot sooner than every open slot that goes to an expert first requested later or to none: empty slots from the lowest up, then the longest unused, the lowest of equally old ones first |
| `PinnedCacheOrder.HowManyEnter` | tools/pin_sim/pin_sim.cpp:17-33 | None enter when the distinct requests are more than half the capacity, otherwise as many as miss, up to the limit and to the number of open slots |
| `PinnedCacheOrder.UncachedCount` | tools/pin_sim/pin_sim.cpp:38 | The reported uncached count is the number of requested experts left without a slot |
| `PinnedCacheOrder.AbsentCount` | tools/pin_sim/pin_sim.cpp:36-38 | The reported absent count is the number of request positions whose expert has no slot |
| `PinnedCacheDevice.EventTotalsMean` | tools/pin_sim/pin_sim.cpp:59 | What the tool adds up for an event are the experts that entered, the requested ones left without a slot, and the positions asking for one of these |
| `PinnedCacheDevice.RankPins` | runtimes/qwen38-flash-next-gfx1201-mtp4-v3/sources/cache/full_mutable_device.h:238-433 | On rank 0 every slot is open to eviction, on the other rank the slots from 400 on |
| `PinnedCacheDevice.RankSizes` | runtimes/qwen38-flash-next-gfx1201-mtp4-v3/sources/cache/full_mutable_device.h:148-296 | The slot counts, hot list lengths, request counts and ranges that the two ranks accept, in numbers |
| `PinnedCacheDevice.Arena.PinnedPlanner` | tools/pin_sim/pin_sim.cpp:13-39 | The loops over the arena arrays leave exactly the state of the abstract event, and the packed result holds admissions and absent request positions, with the uncached count beside it |
| `PinnedCacheDevice.Arena.PlanEvent` | runtimes/qwen38-flash-next-gfx1201-mtp4-v3/sources/cache/full_mutable_device.h:299-412 | Deduplication, protection, admission and recency update of an event, proved against the abstract event |
| `PinnedCacheDevice.Arena.AdmitMisses` | tools/pin_sim/pin_sim.cpp:22-33 | The admission loop, with slot search, eviction and protection in place, gives the abstract batch of admissions |
| `PinnedCacheDevice.Arena.FindTarget` | tools/pin_sim/pin_sim.cpp:23-29 | Both slot searches find the abstract target |
| `PinnedCacheDevice.Arena.Classify` | tools/pin_sim/pin_sim.cpp:19 | Protects exactly the slots of requested residents and collects exactly the misses |
| `PinnedCacheDevice.Arena.DevicePlanner` | runtimes/qwen38-flash-next-gfx1201-mtp4-v3/sources/cache/full_mutable_device.h:238-433 | The serving planner refuses exactly the invalid events, without changing the arena, and otherwise performs the abstract event with the pins of its rank |
| `PinnedCacheDevice.Arena.Init` | runtimes/qwen38-flash-next-gfx1201-mtp4-v3/sources/cache/full_mutable_device.h:148-230 | The warm start accepts exactly the well-formed hot lists, refuses without writing, and leaves a valid cache with the list in the first slots |
| `PinnedCacheDevice.ReplayEvent` | tools/pin_sim/pin_sim.cpp:57-64 | One event of the tool: the replay planner takes the abstract step and its three totals, and at the pin count of the rank the serving planner does the same, so the comparison finds no difference |
| `PinnedCacheDevice.Replay` | tools/pin_sim/pin_sim.cpp:54-68 | The loop over a trace never reports a mismatch, ends in the state of the abstract run over the whole history, with both arenas equal at the pin count of the rank, and keeps the totals of the training events and of the rest apart |
| `PinnedCacheDevice.OrIsSum` | tools/pin_sim/pin_sim.cpp:38 | On 32-bit words the packed result decodes to its two fields |
| `SeededRng.UnmixMix` | crates/r9v-common/src/rng.rs:78-84 | The SplitMix64 output mix has a left inverse on all 64-bit words, so it is injective |
| `SeededRng.SeedWordsDistinct` | crates/r9v-common/src/rng.rs:21-36 | The four seed words of any seed are pairwise distinct, so the all-zero fallback is never taken |
| `SeededRng.SeedRecoverable` | crates/r9v-common/src/rng.rs:17-41 | The seed can be computed back from the seeded state, so distinct seeds give distinct states |
| `SeededRng.StepInvertible` | crates/r9v-common/src/rng.rs:50-58 | The xoshiro256++ state step has a left inverse |
| `SeededRng.UnstepInvertible` | crates/r9v-common/src/rng.rs:50-58 | The same function is a right inverse, so the step is a bijection on states |
| `SeededRng.RunsNeverMeet` | crates/r9v-common/src/rng.rs:44-61 | Two generators in the same state after equally many words started in the same state |
| `SeededRng.SeededRunNeverZero` | crates/r9v-common/src/rng.rs:26-61 | No run from any seed reaches the all-zero state |
| `SeededRng.SeedsNeverMeet` | crates/r9v-common/src/rng.rs:17-61 | Generators of different seeds never reach the same state after equally many words |
| `SeededRng.RepeatReturnsToStart` | crates/r9v-common/src/rng.rs:44-61 | A run that repeats a state has come back to its start |
| `SeededRng.FillsCompose` | crates/r9v-common/src/rng.rs:64-75 | Filling whole words and then b bytes writes what one fill of all of them writes |
| `SeededRng.FillStatesCompose` | crates/r9v-common/src/rng.rs:64-75 | ... and leaves the same generator state |
| `SeededRng.FillsJoinIff` | crates/r9v-common/src/rng.rs:64-75 | Over all states, splitting a fill in two is harmless from every state exactly at a multiple of eight bytes, or when nothing follows |
| `SeededRng.Rng.FillBytes` | crates/r9v-common/src/rng.rs:64-75 | The buffer receives a prefix of the little-endian word stream, and the state advances by the words drawn |
| `SeededRng.Rng.Next` | crates/r9v-common/src/rng.rs:44-61 | The in-place update returns the output word and leaves the successor state |
| `SeededRng.Rng.SplitStep` | crates/r9v-common/src/rng.rs:78-84 | The seeding step advances by the golden-ratio constant and returns the mix |
| `SeededRngCycles.Period` | crates/r9v-common/src/rng.rs:44-61 | There are finitely many states, so every generator comes back to its start |
| `SeededRngCycles.SeedZeroSplit` | crates/r9v-common/src/rng.rs:17-75 | The new generator of seed 0 loses bytes when a fill is split anywhere inside its first word |
| `SeededRngCycles.SeededFillsJoinIff` | crates/r9v-common/src/rng.rs:17-75 | For the states seeded generators reach, too: a split is harmless for every seed after every number of words exactly at a multiple of eight bytes, or when nothing follows |
| `EditDistance.Levenshtein` | crates/r9v-config/src/config.rs:893-906 | The two-row loop returns the recursively defined distance, for all strings |
| `EditDistance.NoShorterPath` | crates/r9v-config/src/config.rs:893-906 | No chain of single-character edits between two strings is shorter than the distance |
| `EditDistance.ShortestPath` | crates/r9v-config/src/config.rs:893-906 | There is a chain of exactly that many edits |
| `EditDistance.ZeroIffEqual` | crates/r9v-config/src/config.rs:893-906 | Distance zero means equal, and only equal strings have it |
| `EditDistance.Symmetric` | crates/r9v-config/src/config.rs:893-906 | The distance is symmetric |
| `EditDistance.Triangle` | crates/r9v-config/src/config.rs:893-906 | The distance obeys the triangle inequality |
| `EditDistance.Nearest` | crates/r9v-config/src/config.rs:596-607 | The suggestion is a declared key that no declared key is preferred to: closer, or as close and earlier in order |
| `EditDistance.DeclaredKeySuggestsItself` | crates/r9v-config/src/config.rs:596-607 | A declared key can only be answered by itself |
| `ConfigSchema.AutoNumbersReadOnlyAuto` | crates/r9v-config/src/config.rs:678-698 | A number, truth value, list or bucket set whose type may be "auto" is accepted from a variable, flag or request exactly when the text is "auto"; concrete text for it is always refused |
| `LayeredConfig.TakeEntries` | crates/r9v-config/src/config.rs:280-319 | The loop over a layer leaves the candidate with every good entry assigned in order, one explained problem for each refused entry in order, and a warning for each former name |
| `LayeredConfig.Judge` | crates/r9v-config/src/config.rs:340-367 | An entry yields its assignment or the problem that explains its refusal: unknown key with its suggestion, not changeable while running, unreadable text or failed check |
| `ConfigPrecedence.AllSettled` | crates/r9v-config/src/config.rs:557-574 | After any sequence of assignments a key is unchanged if none reaches its old precedence, and otherwise holds value and source of the last assignment among those of highest precedence |
| `ConfigPrecedence.EffectiveIsWinner` | crates/r9v-config/src/config.rs:557-574 | That winning assignment alone determines the effective value and source |
| `ConfigPrecedence.AnyOrder` | crates/r9v-config/src/config.rs:557-574 | Lists of assignments of pairwise different precedence give the same values and sources in any order |
| `ConfigPrecedence.SwapLayers` | crates/r9v-config/src/config.rs:557-574 | Two layers of different precedence may be exchanged |
| `ConfigPrecedence.LayersCommute` | crates/r9v-config/src/config.rs:557-574 | The taken entries of two layers of different precedence leave the same values and sources in either order |
| `ConfigPrecedence.OtherOrderIff` | crates/r9v-config/src/config.rs:250-474 | Two layers of different precedence accepted in one order are accepted in the other exactly when the second alone keeps the cross-field rules |
| `ConfigSample.OrderMatters` | crates/r9v-config/src/config.rs:500-548 | From the defaults, a flag that lowers the prefill minimum and then a file that lowers the maximum are accepted; the file first is refused |
| `ConfigSample.FromTheCommandLine` | crates/r9v-config/src/config.rs:376-411 | The first of these layers is what a command line with that flag gives |
| `ConfigSample.FromTheFile` | crates/r9v-config/src/config.rs:250-319 | The second is what a file with that setting on line 3 gives |
| `ConfigSample.BudgetOnlyFromFile` | crates/r9v-config/src/config.rs:678-698 | 50 milliseconds for the step budget are accepted from a file; as text they are refused, whatever the readers accept |
| `ConfigSample.FlagBeatsVariable` | crates/r9v-config/src/config.rs:557-574 | A flag and a variable for one setting leave the flag's value in either order |
| `ConfigSample.FromTheEnvironment` | crates/r9v-config/src/config.rs:326-411 | That variable and that flag, as the environment and the command line give them |
| `ConfigSample.SampleIsGood` | crates/r9v-config/src/config.rs:204-224 | A schema that meets every demand the object makes of its declarations |
| `ConfigRuns.EffectiveAfterRun` | crates/r9v-config/src/config.rs:250-574 | After any run of layers, some refused, and resolutions in between: a key no accepted layer assigned is as declared, any other has value and source of the last assignment among the accepted ones of highest precedence |
| `ConfigRuns.RunIsAssignments` | crates/r9v-config/src/config.rs:250-574 | Resolutions aside, a run leaves what one list of the accepted assignments leaves |
| `ConfigRuns.RunsInAnyOrder` | crates/r9v-config/src/config.rs:250-574 | Runs of layers of pairwise different precedence, in two orders in each of which all are accepted, leave the object with the same values and sources |
| `ConfigRuns.ReachableIsGood` | crates/r9v-config/src/config.rs:250-574 | Over every run all settings are admissible, resolved only while "auto", set by request only where allowed, and the cross-field rules hold |
| `ConfigRuns.OutcomeIsCall` | crates/r9v-config/src/config.rs:272-324 | Every layer method of the object makes exactly such a call: all of the layer, or nothing |
| `ConfigMeaning.RequestsThenFlagsThenVariablesThenFiles` | crates/r9v-config/src/config.rs:150-158 | After any run a key shows the last accepted request for it, without one the last flag, then the last variable, then the last file entry, and else its default |
| `ConfigMeaning.VariableSetsKey` | crates/r9v-config/src/config.rs:326-346 | A variable spelt from a key in capitals, with two underscores for a dot, sets that key |
| `ConfigMeaning.EntrySources` | crates/r9v-config/src/config.rs:298-475 | Entries say truly which variable, flag, request or file line they come from |
| `ConfigMeaning.RequestedMayChange` | crates/r9v-config/src/config.rs:446-455 | Whatever a request set in any run may be changed while running |
| `ConfigMeaning.RequestTaken` | crates/r9v-config/src/config.rs:418-475 | A request is taken exactly for a setting that may be changed while running and a readable, admissible value |
| `ConfigMeaning.CanonicalMeans` | crates/r9v-config/src/config.rs:576-594 | A key means the setting of that name, and an unused former name the setting that had it |
| `ConfigMeaning.IntAdmitted` | crates/r9v-config/src/config.rs:708-790 | Integers are admissible exactly when not negative and within their range |
| `ConfigMeaning.BucketsAdmitted` | crates/r9v-config/src/config.rs:847-872 | Bucket sets are admissible exactly with three nonempty axes of positive integers, zero allowed for prefill |
| `ConfigMeaning.RulesReported` | crates/r9v-config/src/config.rs:500-548 | Each cross-field rule is reported exactly when it is broken |
| `ConfigMeaning.BucketsGiven` | crates/r9v-config/src/config.rs:874-882 | The bound on the prefill maximum is the largest bucket on the prefill axis |
| `ConfigMeaning.TopLevel` | crates/r9v-config/src/config.rs:284-294 | Sections of others are kept apart, and everything else but the version is a setting |
| `EffectiveConfiguration.EffectiveConfig.constructor` | crates/r9v-config/src/config.rs:204-224 | The defaults satisfy every invariant |
| `EffectiveConfiguration.EffectiveConfig.Commit` | crates/r9v-config/src/config.rs:272-319 | A layer is applied whole, or reported and the whole configuration is unchanged; every invariant holds afterwards |
| `EffectiveConfiguration.EffectiveConfig.ApplyFile` | crates/r9v-config/src/config.rs:250-324 | A file of the wrong version changes nothing; otherwise its flattened settings are applied as one layer, its extension sections replace the old ones, and unknown keys are reported first |
| `EffectiveConfiguration.EffectiveConfig.ApplyEnv` | crates/r9v-config/src/config.rs:327-373 | Prefixed variables are applied as one layer |
| `EffectiveConfiguration.EffectiveConfig.ApplyCli` | crates/r9v-config/src/config.rs:376-415 | Flags are applied as one layer |
| `EffectiveConfiguration.EffectiveConfig.ApplyRuntime` | crates/r9v-config/src/config.rs:418-477 | Requests are applied as one layer, and keys that are not changeable while running are refused |
| `EffectiveConfiguration.EffectiveConfig.ResolveAuto` | crates/r9v-config/src/config.rs:480-497 | Accepted exactly for a declared setting that is "auto" and a concrete admissible value, and otherwise refused for the reason there is; only the resolution changes |
| `EffectiveConfiguration.Propose` | crates/r9v-config/src/config.rs:272-319 | A layer is accepted exactly when no entry was refused and the cross-field rules hold of the outcome |
| `EffectiveConfiguration.AssignAllKeeps` | crates/r9v-config/src/config.rs:557-574 | Good assignments keep every setting admissible, resolved only while "auto", and changed by request only where the schema allows |
| `EffectiveConfiguration.ConsistentReads` | crates/r9v-config/src/config.rs:550-555 | In every reachable state the integers the rules read are there |
| `ConfigFlatten.FoundIff` | crates/r9v-config/src/config.rs:609-635 | A setting is found exactly when its key is a current or former name and is written at a path of the file whose tables are no settings and have settings below them |
| `ConfigFlatten.UnknownIff` | crates/r9v-config/src/config.rs:609-635 | A key is reported as unknown exactly when it is written at such a path, names no setting, and is not a table with settings below it |
| `ConfigFlatten.DeclaredFoundIff` | crates/r9v-config/src/config.rs:609-635 | A setting under its current name is found exactly when it is written somewhere in the file with no setting on the way |
| `ConfigFlatten.FormerSectionLost` | crates/r9v-config/src/config.rs:609-635 | A former name in a section where no setting lies today is not found: the section is reported as unknown |
| `ConfigFlatten.MovedIsLost` | crates/r9v-config/src/config.rs:576-635 | Such a setting: its former name is understood as a flag, and lost in a file |
| `FaultWindow.LogPromise` | tools/fault_window.py:18-35 | From an empty directory, after any appends to logs that do not collide: a log joined oldest to newest is a suffix of its records, each file is within the limit, and once anything is missing more than (segments div 2) times the limit remains |
| `FaultWindow.LogsIndependent` | tools/fault_window.py:21-32 | Logs that do not collide each hold the record view of their own appends |
| `FaultWindow.PromiseIff` | tools/fault_window.py:18-35 | With two or more segments and a positive limit, every run of accepted appends to the basenames of a set leaves every log a record suffix exactly when no log is named like a segment of another |
| `FaultWindow.CollisionOverwrites` | tools/fault_window.py:26-30 | In a rotation, whatever a file named like an old segment held is replaced by the next newer segment |
| `FaultWindow.TimelinePromise` | tools/watch_runtime.py:92-109 | The three-file timeline keeps a record suffix, each file within the limit, and more than one limit once anything is dropped |
| `FaultWindow.ChainDistinct` | tools/fault_window.py:27-30 | The segment names of one log are distinct |
| `FaultWindow.LogNames` | tools/fault_window.py:18-22 | A log may have any name without a slash but the two that mean directories |
| `FaultWindow.LogFiles` | tools/fault_window.py:23-30 | The files of a log are its name, then its name with a point and 1, 2, 3, ... for older segments |
| `FaultWindow.Window.Append` | tools/fault_window.py:18-35 | Frozen windows ignore appends; otherwise the rename loop is the abstract rotation, with both refusals |
| `FaultWindow.Window.Freeze` | tools/fault_window.py:43-65 | Freezing latches first, moves exactly all files into the snapshot, and is a no-op when already frozen; existing names of the snapshot or trigger make it fail with the latch set |
| `FaultWindow.Window.constructor` | tools/fault_window.py:10-16 | A directory that already holds a snapshot opens frozen |
| `FaultWindow.Timeline.Append` | tools/watch_runtime.py:92-109 | The two hand-written renames are the rotation of a chain of three |
| `RotatingLog.AppendRefinesPush` | tools/fault_window.py:26-32 | Renaming files and appending bytes refines pushing a record onto a list of segments |
| `RotatingLog.RetainsSuffix` | tools/fault_window.py:26-32 | The retained records are a suffix of all records, and something is missing only when every segment is in use |
| `RotatingLog.SegmentsBounded` | tools/fault_window.py:23-32 | With at least two segments every segment stays within the limit and neighbours together exceed it |
| `RotatingLog.EnoughRemains` | tools/fault_window.py:26-32 | Once anything is dropped, more than (count div 2) times the limit remains |
| `RotatingLog.BoundedIff` | tools/fault_window.py:10-32 | The size bound holds for every run exactly with two or more segments, or when only empty records are allowed |
| `RotatingLog.RotateShifts` | tools/fault_window.py:27-30 | A rotation moves every segment one place up and frees the first name |
| `RotatingLog.AppendApart` | tools/fault_window.py:26-32 | Appending to one log leaves the segments of a log with other names alone |
| `IntervalUnion.UnionLength` | scripts/analyze-pp-profile.py:77-89 | On integer ticks the sweep returns the number of ticks covered by at least one interval |
| `IntervalUnion.MergeCovers` | scripts/analyze-pp-profile.py:83-88 | The merged intervals cover exactly what the sorted ones covered |
| `IntervalUnion.MergeSeparates` | scripts/analyze-pp-profile.py:83-88 | The merged intervals are disjoint |
| `IntervalUnion.SameMembersSameCover` | scripts/analyze-pp-profile.py:77-89 | Order and repetition do not matter |
| `IntervalUnion.SplittingKeepsCover` | scripts/analyze-pp-profile.py:77-89 | Splitting an interval does not matter |
| `IntervalUnion.UnionAtMostSum` | scripts/analyze-pp-profile.py:77-89 | The union is at most the sum of lengths, and equal to it exactly when no two intervals share a tick |
| `IntervalUnion.UnionAtMostDurations` | scripts/analyze-pp-profile.py:383-405 | With no negative duration, the reported union never exceeds the sum of durations reported beside it |
| `IntervalUnion.UnionAtMostDurationsIff` | scripts/analyze-pp-profile.py:383-405 | For given durations, the union stays within their sum for every placing of the events exactly when none is negative |
| `ByteSize.ParseByteSize` | crates/r9v-common/src/bytes.rs:97-275 | The parser returns the shape error of a malformed text and otherwise the checked evaluation of its parts |
| `ByteSize.ScanNumber` | crates/r9v-common/src/bytes.rs:109-135 | The scanning loop finds the longest prefix of digits and at most one point, with its two errors |
| `ByteSizeExact.ParseIff` | crates/r9v-common/src/bytes.rs:97-275 | Any input is accepted with value n exactly when it has the shape of a size, denotes n bytes exactly, n fits in 64 bits and the fraction fits |
| `ByteSizeText.ShapeIff` | crates/r9v-common/src/bytes.rs:97-275 | A text has the shape of a size, with these parts, exactly when it is spaces, a numeral, spaces, a known unit and spaces |
| `ByteSizeText.ParseTextIff` | crates/r9v-common/src/bytes.rs:97-275 | Any text is accepted with value n exactly when it is written so, denotes n bytes exactly, n fits in 64 bits and the fraction fits |
| `ByteSizeText.LongTextRefused` | crates/r9v-common/src/bytes.rs:186-215 | `0.303983747959136962890625 PiB` is written as a size of 342255273508864 bytes and is refused as an overflow |
| `ByteSizeUnits.PrefixMeans` | crates/r9v-common/src/bytes.rs:277-289 | k, m, g, t and p, alone or with b or ib, in any case, are the powers of 1024 in that order, and nothing else is |
| `ByteSizeUnits.BytesMean` | crates/r9v-common/src/bytes.rs:277-289 | No unit, b, byte and bytes, in any case, are single bytes, and nothing else is |
| `ByteSizeUnits.EarlyRefusals` | crates/r9v-common/src/bytes.rs:97-108 | Blank texts and texts that start with a minus are refused as such, and no others |
| `ByteSizeUnits.UnitRefusals` | crates/r9v-common/src/bytes.rs:137-159 | Unknown units and text behind the unit are named in the refusal |
| `ByteSizeUnits.FractionalIff` | crates/r9v-common/src/bytes.rs:181-224 | A number whose steps fit is refused as fractional exactly when no number of bytes is its value |
| `ByteSizeExact.EvaluateIff` | crates/r9v-common/src/bytes.rs:161-274 | The checked arithmetic answers n exactly when n is the exact value, within 64 bits, and the fraction fits |
| `ByteSizeExact.ShortFractionFits` | crates/r9v-common/src/bytes.rs:181-224 | Up to 23 significant fraction digits always fit |
| `ByteSizeExact.LongFractionRefused` | crates/r9v-common/src/bytes.rs:186-215 | The limit is real: a 24-digit fraction that denotes a whole number of bytes far below 64 bits and is refused |
| `ByteSizeExact.LongFractionFamily` | crates/r9v-common/src/bytes.rs:186-215 | Every 24-digit fraction ending in 5 that denotes whole bytes and overflows 128 bits on the way is refused |
| `ByteSizeExact.FormatParses` | crates/r9v-common/src/bytes.rs:291-315 | Whatever the printer writes without rounding is read back as the same number |
| `Quantizer.EncodeRow` | crates/r9v-format/src/encode.rs:36-62 | A row is refused when empty, or when some value is 127 times the largest storable scale or more; otherwise its scale is the least whose codes reach every value |
| `Quantizer.RowError` | crates/r9v-format/src/encode.rs:36-62 | Codes stay within 127, zero is exact, and every value decodes within half the scale |
| `Quantizer.ElementNearest` | crates/r9v-format/src/encode.rs:36-62 | No other code decodes nearer |
| `Quantizer.SomeCodeIsFull` | crates/r9v-format/src/encode.rs:36-62 | In a nonzero row some code is 127 or -127 and decodes exactly |
| `Quantizer.RoundTies` | crates/r9v-format/src/encode.rs:36-62 | Halves round away from zero |
| `QuantizerBlocks.EncodeBlocks` | crates/r9v-format/src/encode.rs:66-98 | Lengths that are not a positive multiple of 128 are refused, and so is any value of 127 times the largest storable scale; otherwise each block is encoded like a row of its own |
| `QuantizerBlocks.BlocksError` | crates/r9v-format/src/encode.rs:66-98 | Every value decodes within half of its own block's scale |
| `QuantizerBlocks.EncodeSuperblock` | crates/r9v-format/src/encode.rs:106-182 | Grids, super-scales, six-bit fields and nibbles of a superblock, refused exactly when a value is too far below zero, above it, or above another of its block |
| `QuantizerBlocks.SuperblockError` | crates/r9v-format/src/encode.rs:106-182 | Codes fit in four bits and fields in six, and every element decodes within max(D/2, 7.5 d + dmin/2), clamped codes and zero steps included |
| `QuantizerBlocks.SuperblockNearest` | crates/r9v-format/src/decode.rs:169-180 | No other nibble under the same header decodes nearer |
| `QuantizerBlocks.HeaderNear` | crates/r9v-format/src/encode.rs:132-163 | Decoded step and floor of every block are within half a super-scale of the exact ones |
| `QuantizerBlocks.GridCovers` | crates/r9v-format/src/encode.rs:110-131 | Every value of a block lies between the negated floor and fifteen steps above it |
| `QuantizerBlocks.GridIsLeast` | crates/r9v-format/src/encode.rs:110-131 | A block's grid has the least floor that reaches it, and the least step under that floor |
| `QuantizerBlocks.HeaderIsTight` | crates/r9v-format/src/encode.rs:132-163 | A nonzero super-scale has a six-bit field of 63 that decodes its block exactly |
| `QuantizerBlocks.BlocksScale` | crates/r9v-format/src/encode.rs:66-98 | Every block of 128 has the least scale whose codes reach it |
| `RankedExperts.TopIsBest` | tools/rank_experts.py:76-79 | For every k, the first k ids of a ranked row have the largest total training count of any k distinct experts |
| `RankedExperts.TopExpertsIsPrefix` | tools/pin_sim/make_pins.py:19-22 | The stable sort on negated counts picks exactly the prefix of the ranked row |
| `RankedExperts.PinsHitMost` | tools/pin_sim/make_pins.py:19-22 | Pinning the top experts of a trace hits at least as many of its positions as any other pins of that number |
| `RankedExperts.RankedIsPermutation` | tools/rank_experts.py:76-79 | A ranked row lists every expert once, in order |
| `RankedExperts.ExtendedIsPermutation` | tools/rank_experts.py:80-90 | With a preserved prefix the row still lists every expert once, starts with the prefix, and ranks the rest |
| `RankedExperts.TotalIsHits` | tools/pin_sim/make_pins.py:21 | The counted total of pins is the number of routed positions they hit |
| `RankedCatalog.RankCatalog` | tools/rank_experts.py:61-153 | Accepted exactly for a valid placement and well-formed captures; rows, the four comparisons and the verdict as specified, and preserved prefixes never regress |
| `RankedCatalog.CatalogRow` | tools/rank_experts.py:76-90 | Every catalog row lists each expert once, after its source prefix where prefixes are preserved |
| `RankedCatalog.PreservedNeverRegress` | tools/rank_experts.py:102-130 | With preserved prefixes the held-out hits are those of the source, in every phase |
| `RankedCatalog.TrainingNeverRegresses` | tools/rank_experts.py:76-90 | Reranked rows never do worse than the source on the counts they were ranked by |
| `RankedCatalog.NeverWorseIff` | tools/rank_experts.py:76-130 | Reranking a rank loses no hits on any held-out phase exactly when each source row already holds the experts the training counts would pick, in whatever order |
| `RankedCatalog.VerdictIff` | tools/rank_experts.py:102-153 | The verdict of a reranked catalog holds on every held-out capture exactly when both ranks of the source are like that |
| `RankedCatalog.RerankedMayRegress` | tools/rank_experts.py:102-130 | One phase that regresses: expert 0 led in training, and expert 1, which the source kept, leads in the held-out counts |
| `CatalogMeaning.CatalogOrder` | tools/rank_experts.py:33-90 | Every catalog row lists all experts once, after a kept prefix, by the routes of both training phases together, the lower id among equals |
| `CatalogMeaning.CatalogKeepsMost` | tools/rank_experts.py:33-90 | No choice of as many experts, outside a kept prefix, was routed to more often in decode and prefill together than those the row lists first |
| `CatalogMeaning.OneMoreRoute` | tools/rank_experts.py:104-117 | One more route of a phase adds one to its total, and to the hits exactly when that layer keeps the expert |
| `CatalogMeaning.ComparisonSays` | tools/rank_experts.py:102-130 | The four comparisons: hits of as many leading catalog ids against those of the source, rank by rank, decode before prefill, over all routes of the phase |
| `Placement.Validate` | tools/expert_budget.py:183-227 | Accepted exactly when both ranks have every layer nonempty, in range and without duplicates and agree with declared totals; returns the counts |
| `Placement.ExpertMemory` | tools/expert_budget.py:230-271 | Accepted exactly when the placement and cache are acceptable and declared bytes are right; returns the accounting of both ranks, with no cache bytes on a rank without a cache, else one expert per layer for every slot and one more of each when it loads in the background |
| `Placement.UniformWeight` | tools/expert_budget.py:248 | The static bytes of a uniform placement are its count times one expert in every layer |
| `Placement.OneMoreExpert` | tools/expert_budget.py:248 | One more expert in a layer adds that layer's cost to the weight |
| `Placement.EntryAccepted` | tools/expert_budget.py:183-227 | A rank is acceptable exactly when every layer has a nonempty row of distinct ids within range and declared totals are its own |
| `Placement.CachesAccepted` | tools/expert_budget.py:243-246 | Up to 128 slots in either mode, and 160 or 192 synchronous ones, on the two ranks, within the limit of the runtime |
| `Placement.HotAndColdAreAll` | tools/expert_budget.py:248-267 | Static and cold bytes together are the full master bytes |
| `Placement.ReleasedIsAdded` | tools/trim_experts.py:43-56 | Between two placements, GPU bytes released are host bytes added |
| `TrimmedPlacement.Trim` | tools/trim_experts.py:19-66 | Accepted exactly for an accountable source and two positive counts within its shortest rows; the result is both ranks cut, with totals and released bytes |
| `TrimmedPlacement.TrimComposes` | tools/trim_experts.py:34-56 | A cut placement is acceptable and can be cut again, and cutting to a and then to b gives what cutting to b gives |
| `TrimmedPlacement.CutReleases` | tools/trim_experts.py:43-56 | A cut weighs its count times one expert, releases no negative amount, and adds to the host what it releases |
| `TrimmedPlacement.CutKeepsBest` | tools/trim_experts.py:34-41 | Cutting a ranked row keeps in every layer experts that no others of that number beat on the training counts |
| `MemoryEnvelope.Calibrate` | tools/calibrate_memory.py:177-247 | Accepted exactly for steady telemetry and possible readings. The peak of each rank covers what every reading leaves unexplained and is zero or just what one of them does; the start-up need is the largest fall of host memory below the first sample |
| `MemoryEnvelope.PeakExplainsReadings` | tools/calibrate_memory.py:185-198 | The measured peak is the least that explains every reading down to the lowest |
| `MemoryEnvelope.EstimateBelowMeasured` | tools/calibrate_memory.py:185-198 | The estimate for the measured placement is never above any reading minus 768 MiB, and equals the lowest minus 768 MiB when the peak is positive |
| `MemoryEnvelope.RaisedMeasures` | tools/calibrate_memory.py:228-239 | Raising the peak to the sampler's reading gives the envelope of the lower of both minima |
| `MemoryEnvelope.Localize` | tools/memory_seed.py:31-74 | Accepted exactly for a qualified seed of the same work and two plausible devices; only the contract, the qualification and the external allowances change |
| `ExpertPlan.LargestCountFits` | tools/plan_experts.py:221-228 | A count within the limit leaves the target free exactly when it is at most the chosen one |
| `ExpertPlan.ProblemIff` | tools/plan_experts.py:221-232 | A rank is a problem exactly when a positive shortfall is reported, that is when the target is above the reported maximum or nothing would be left free |
| `ExpertPlan.ClampHidesIff` | tools/plan_experts.py:221-232 | Comparing the target with the reported maximum misses a problem exactly when no headroom is asked and nothing would be left free |
| `ExpertPlan.ReportedMaximumMisleads` | tools/plan_experts.py:221-232 | Such a rank: one byte short, no headroom asked, maximum zero reported |
| `ExpertPlan.MeasuredCountFitsAgain` | tools/plan_experts.py:212-228 | The measured placement fits again only if its own lowest reading clears the target by 768 MiB, and whenever it does so under a positive peak |
| `ExpertPlan.TallyRanks` | tools/plan_experts.py:208-251 | The rank loop gathers the largest counts, their budgets and exactly the problems of the ranks that do not fit |
| `LaunchCheck.MakePlan` | tools/plan_experts.py:126-285 | A plan is made exactly when the envelope is allowed, the numbers are sane, one expert per layer fits on both ranks and the host can hold the rest; it says what was chosen, and otherwise the first reason that there is none, with the ranks that do not fit |
| `LaunchCheck.LaunchKeepsHeadroom` | tools/plan_experts.py:288-316 | Any launch that passes the check and needs no more than the measured peak besides experts keeps target plus transient margin free on both ranks, and the reserve on the host |
| `LaunchCheck.UnchangedPlanPasses` | tools/plan_experts.py:288-316 | Under otherwise unchanged conditions the check turns on the external allowances alone |
| `LaunchCheck.LocalizedPlanPasses` | tools/memory_seed.py:61-74 | A plan from a localized envelope passes exactly until other programs take more than 256 MiB beyond what they had |
| `LaunchCheck.PlanKeepsBest` | tools/plan_experts.py:252 | A plan over a ranked catalog keeps in every layer experts that no others of that number beat on the training counts |
| `PlanMeaning.PlanIsLargest` | tools/plan_experts.py:208-228 | A plan keeps on each rank the largest count that is within every row and any measured counts and leaves the target free of capacity, peak, allowances, cache slots and experts, in bytes |
| `PlanMeaning.PlanSays` | tools/plan_experts.py:228-285 | The plan keeps the leading experts of every row, and states the bytes left, the resident bytes and the cold bytes that follow |
| `PlanMeaning.PlanAsksOfHost` | tools/plan_experts.py:254-285 | The host has to offer the measured start-up, the reserve, and room for cold experts beyond the measured ones |
| `PlanMeaning.ReadyIff` | tools/plan_experts.py:126-207 | A plan can be attempted exactly for an allowed measurement, an acceptable source and cache, two targets, two envelopes and at least two devices |
| `PlanMeaning.AffordableIff` | tools/plan_experts.py:208-252 | It fits the devices exactly when no measured byte count is negative and one expert per layer leaves both targets free |
| `PlanMeaning.HostFitsIff` | tools/plan_experts.py:255-266 | It fits the host exactly when no byte count is negative and the host has what is asked |
| `PlanMeaning.AllowedIff` | tools/plan_experts.py:130-194 | Which measurements may be used: evidence, the same contract or a catalog reranked from it, and a passed workload, an allowed reference or an allowed baseline with its counts |
| `PlanMeaning.ProblemMeans` | tools/plan_experts.py:221-232 | A reported problem names the largest target under which one expert per layer would fit, none below zero, and how far the asked target is above it |
| `PlanMeaning.CheckPasses` | tools/plan_experts.py:288-316 | The check passes exactly when contract and contents are unchanged, the host still has what is asked, and other programs hold no more than allowed |
| `CaptureTrackers.StallIff` | tools/capture_runtime.py:414-473 | With times that never go back, a stall is reported exactly when an observation at least the patience earlier starts a stretch of eligible observations with identical progress and no replacement, up to now |
| `CaptureTrackers.RunTracks` | tools/capture_runtime.py:448-472 | The tracker always knows the last identity, the last progress and the start of the longest quiet stretch |
| `CaptureTrackers.ProgressTracker.Observe` | tools/capture_runtime.py:421-473 | The method takes the tracker to its successor state and returns all events in order |
| `CaptureTrackers.ResourceTracker.Observe` | tools/capture_runtime.py:482-509 | Reports the counters above their previous reading and remembers the new readings |
| `CaptureTrackers.IncreaseIff` | tools/capture_runtime.py:503-508 | Over any run a counter is reported exactly when it exceeds its last earlier reading |
| `CaptureMeaning.StallOfTwo` | tools/capture_runtime.py:421-473 | Of two observations the second reports a stall exactly when both show work, no token counter and no counted worker moved, the container is the same and the patience has passed |
| `CaptureMeaning.MovedIsNoStall` | tools/capture_runtime.py:441-472 | In any run, a moved token counter or worker step is no stall |
| `CaptureMeaning.AdvancingWorker` | tools/capture_runtime.py:450-454 | A worker whose step count changed has moved |
| `CaptureMeaning.IdleIsNoStall` | tools/capture_runtime.py:455-463 | Without a running container, readable metrics, a token count and requests in work or waiting there is no stall |
| `CaptureMeaning.NoticesMean` | tools/capture_runtime.py:432-440 | Ended states, memory kills and unavailable readings are reported exactly when observed |
| `CaptureMeaning.ReplacedMeans` | tools/capture_runtime.py:424-431 | A replacement is reported exactly when the container is known and differs in id, start or restarts from the last known one |
| `RemoteWatch.RunTracker.Observe` | tools/remote_watch.py:67-137 | A record takes its own run to the successor state and leaves every other run alone |
| `RemoteWatch.RunTracker.ObserveProgress` | tools/remote_watch.py:107-135 | Progress updates in place what the record's well-typed fields allow, in the order of the code |
| `RemoteWatch.RunTracker.ObserveKernel` | tools/remote_watch.py:37-65 | A fresh kernel fault marks every live run that has a container and no reason yet |
| `RemoteWatch.RunTracker.TakeDue` | tools/remote_watch.py:164-179 | Returns exactly the due captures, at most one per run, latches them and drops expired runs |
| `RemoteWatchRuns.CapturedOnce` | tools/remote_watch.py:164-179 | Within one life of a run a container is handed out at most once, and never after the deadline |
| `RemoteWatchRuns.ExpiredStaysExpired` | tools/remote_watch.py:93-102 | Past its deadline nothing revives a run: the deadline stays and no capture is handed out |
| `RemoteWatchRuns.LifeKeeps` | tools/remote_watch.py:79-102 | While a run lives, its captures are kept and its deadline is never shortened |
| `RemoteWatchRuns.RepeatedStartIsIdle` | tools/remote_watch.py:73-90 | Leaving a repeated start out of a stream changes neither the run at any later time nor what is captured |
| `RemoteWatchRuns.SilenceIsCaptured` | tools/remote_watch.py:170-178 | A due check within the deadline hands out an uncaptured container exactly when the last progress or start is longer ago than the silence or a reason is on record |
| `RemoteWatchRuns.CapturedWasHandedOut` | tools/remote_watch.py:176-178 | Whatever is latched was handed out earlier in the same life |
| `RemoteWatchRuns.RunsAreIndependent` | tools/remote_watch.py:67-179 | Over any interleaving each run follows its own steps |
| `RemoteWatchMeaning.StuckIsCaptured` | tools/remote_watch.py:107-133 | A minute of unchanged progress in a phase of work is captured at the next due check, as a lack of progress |
| `RemoteWatchMeaning.DriverIsCaptured` | tools/remote_watch.py:134-135 | So is a driver that failed or stalled |
| `RemoteWatchMeaning.NewContainerIsNotCaptured` | tools/remote_watch.py:112-116 | Right after a new container appears, no reason of the old one captures it |
| `RemoteWatchMeaning.UnchangedProgress` | tools/remote_watch.py:107-135 | Unchanged progress sets that reason exactly when workers are listed, the phase is one of work and a minute has passed |
| `RemoteWatchMeaning.ChangedProgress` | tools/remote_watch.py:120-127 | Changed progress starts the minute anew and sets no reason |
| `RemoteWatchMeaning.NewContainer` | tools/remote_watch.py:112-127 | A new container drops the reason and starts its minute anew |
| `RemoteWatchMeaning.StartMeans` | tools/remote_watch.py:73-90 | Starts of one second to 45 minutes create a run with a minute more to its deadline; others do not |
| `RemoteWatchMeaning.LeaseMeans` | tools/remote_watch.py:93-102 | A lease of up to 15 minutes for the run's own container, in time, moves the deadline to a minute after it, never back |
| `RemoteWatchMeaning.ContainerNames` | tools/remote_watch.py:111 | A container name is the prefix and one to a hundred letters, digits, underscores, points or dashes |
| `RemoteWatchMeaning.SuspectMeans` | tools/remote_watch.py:136-137 | A request for evidence is heeded only for the run's own container |
| `RemoteWatchMeaning.FaultMeans` | tools/remote_watch.py:37-65 | A kernel fault of the last ten seconds, or a stalled recorder, marks a live run with a container and keeps the reason it has |
| `RemoteWatchMeaning.DueMeans` | tools/remote_watch.py:164-179 | A due check drops expired runs, gives silence before any other reason, and latches what it hands out |
| `LineStream.Copy` | diagnostics/gpu-attribution/line_stream.py:4-29 | For any reads and any write sizes, the output consists of pieces that are each pipe's own lines in order; a finished copy has delivered all of them, and whole tells exactly whether every ended pipe's rest went out whole, as it does when every write takes more than the longest line; it stops as oversized only on an unfinished line of more than 1048576 bytes, and goes on only while there was none |
| `LineStream.FinishedCopy` | diagnostics/gpu-attribution/line_stream.py:12-26 | With whole last writes, each pipe's pieces are exactly its lines, an unterminated rest given one newline, and no other byte is added or lost |
| `LineStream.LinesAreTheStream` | diagnostics/gpu-attribution/line_stream.py:19-20 | Lines and tail concatenate to the stream, every line ends in its only newline and the tail has none |
| `LineStream.LinesAreUnique` | diagnostics/gpu-attribution/line_stream.py:19-20 | There is no other way to cut a stream into lines and tail |
| `LineStream.LinesEndInTen` | diagnostics/gpu-attribution/line_stream.py:19-20 | Every line ends in the byte 10 and has it nowhere else, and the tail has none |
| `LineStream.LinesGrow` | diagnostics/gpu-attribution/line_stream.py:18-20 | A new chunk only continues the tail, so chunking does not matter |
| `LineStream.Drain` | diagnostics/gpu-attribution/line_stream.py:19-24 | The inner loop writes every complete line of the buffer and keeps the rest |
| `LineStream.WriteAll` | diagnostics/gpu-attribution/line_stream.py:21-24 | Short writes are continued until everything is written or a write fails |
| `LineStream.TakeEnd` | diagnostics/gpu-attribution/line_stream.py:15-17 | At its end a pipe's rest and a newline go out in a single write, whole only if the output takes it whole |
| `GpuTrace.LiveTrace.Feed` | diagnostics/gpu-attribution/live_trace.py:17-47 | A line takes the live reader to its successor state, errors capped at twenty |
| `GpuTrace.TraceCheck.Feed` | diagnostics/gpu-attribution/trace_check.py:16-40 | A line takes the checking reader to its successor state |
| `GpuTraceRuns.LiveIsContiguous` | diagnostics/gpu-attribution/live_trace.py:23-27 | Without recorded errors every process's records are numbered 1, 2, 3, ... and the last number is their count |
| `GpuTraceRuns.RecordsAreTheSum` | diagnostics/gpu-attribution/live_trace.py:24-28 | Without recorded errors the record count is the sum of the last numbers |
| `GpuTraceRuns.GapsIff` | diagnostics/gpu-attribution/trace_check.py:27-30 | Without errors the checking reader reports no gap exactly when every process is numbered without one |
| `GpuTraceRuns.PendingIsInFlight` | diagnostics/gpu-attribution/live_trace.py:33-44 | Without errors a dispatch is pending exactly when it was enqueued and not completed since, with its last enqueue record |
| `GpuTraceRuns.UnfinishedAgreement` | diagnostics/gpu-attribution/trace_check.py:42-46 | What the checking reader calls unfinished is pending for the live one, and what is pending beyond that was enqueued again after a completion |
| `GpuTraceRuns.AgreeIff` | diagnostics/gpu-attribution/trace_check.py:42-46 | The two readers agree exactly when no dispatch is open again after a completion |
| `GpuTraceRuns.ReuseDisagrees` | diagnostics/gpu-attribution/trace_check.py:42-46 | A stream neither reader finds fault with, on which they differ: a completed dispatch number is used again |
| `GpuTraceRuns.OrderlyStreamsAgree` | diagnostics/gpu-attribution/trace_check.py:42-46 | They agree on every stream with unique dispatch numbers and completions after their enqueue |
| `GpuTraceRuns.SmokeMeansIdle` | diagnostics/gpu-attribution/trace_check.py:48-54 | On such streams a passing preflight leaves nothing pending for either reader, and no gap |
| `GpuTraceMeaning.LiveCountsRecord` | diagnostics/gpu-attribution/live_trace.py:23-45 | Every record is counted and its number noted; completions and code objects come from records without an error of their own |
| `GpuTraceMeaning.LiveNames` | diagnostics/gpu-attribution/live_trace.py:35-37 | A process is named once it enqueues a named kernel of a known code object |
| `GpuTraceMeaning.LiveTracks` | diagnostics/gpu-attribution/live_trace.py:33-44 | A dispatch is tracked when its code object is known and fewer than 20000 are in flight, until it completes |
| `GpuTraceMeaning.LiveNotes` | diagnostics/gpu-attribution/live_trace.py:25-47 | A gap in the numbers is noted before what else is wrong: a reported error, an unknown code object or an exhausted budget |
| `GpuTraceMeaning.CheckTakes` | diagnostics/gpu-attribution/trace_check.py:20-40 | The checking reader stops at a record with an error field, and otherwise gathers ready processes, names, dispatches and completions |
| `GpuTraceMeaning.PassesIff` | diagnostics/gpu-attribution/trace_check.py:48-54 | The preflight passes exactly without errors and gaps, with two processes ready, a named kernel, twenty dispatches and completions of just these |

## Left out

- Containers, remote shells, services, HTTP, process supervision, reading of system files, hashing, JSON and TOML
  parsing: their outcomes are parameters, digests are identities, parsed documents are datatypes.
- Argument parsing, printing, benchmarks, kernel probes, upload scripts and the user interface extension.
- The cache's diagnostic counters, scratch lists of admitted and evicted ids, map publication and the byte layout of
  the arena; `PinnedCacheDevice.Arena.PinnedPlanner` takes the event number to be below the 64-bit maximum.
- 32-bit and 16-bit float rounding of inputs and stored scales, non-finite inputs, and the 8-bit float encoder: the
  quantizers work on exact reals, and a scale is refused from 65520 on.
- The two-decimal branches of the byte-size printer, which round.
- Catalog and manifest schema fields that only identify (version, model package, hashes, partitions); costs are taken
  to be valid positive integers, and held-out fractions are exact quotients.
- `ExpertPlan.TallyRanks`: the wording of the error and its three-decimal figures.
- `LaunchCheck.MakePlan`: the contract between cost catalog and runtime settings, and the four comparisons of a
  capture binding, which are one truth value.
- `MemoryEnvelope.Calibrate`: the selection of telemetry phases and the evidence files.
- `MemoryEnvelope.Localize`: which setting names vary by installation; settings come already split.
- The library's readers of numbers and TOML fragments, line numbers of keys, trimming of texts, and which paths exist:
  parameters of the configuration model.
- `EffectiveConfiguration.EffectiveConfig.Commit`: a single problem and a list of one are not told apart.
- `FaultWindow.Window.Append`: the empty log name, which the program's basename test lets through and which then names
  the directory itself; syncing to disk and its clock; file systems that fail half way.
- Order of `RemoteWatch.RunTracker.TakeDue` results, which follows the insertion order of runs; the choice of worker
  record owners; the pattern of kernel faults and the trace gate, which are truth values.
- `LineStream.Copy`: waiting, timeouts and exit codes; after a failed or oversized stop only the lines already
  written are described.
- `GpuTrace.LiveTrace.Feed`: records that lack a required field, which the live reader notes as an error and the
  checking reader raises on; times of completions; snapshots.
- `GpuTrace.TraceCheck.Feed`: the same records.
- Metrics of `CaptureTrackers.ProgressTracker.Observe` are integers, and counters arrive already extracted from the
  record.
- Interval times are integer ticks in `IntervalUnion.UnionLength`; the rest of the profile report is left out.
