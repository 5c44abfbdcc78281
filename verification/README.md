# mujina-miner: a Dafny model

This project models the core of a Bitcoin miner and proves properties of it:

- the job scheduler and its start-up gate, with the backplane that feeds it (`Scheduler*.dfy`,
  `Backplane.dfy`);
- the Stratum v1 job source: its connections, the jobs it passes on, its difficulty
  suggestions and its reconnection delays (`Stratum.dfy`, `StratumThrottle.dfy`);
- extranonces, the ranges that are split among hash threads, their iterator and how they
  print (`Extranonce*.dfy`), and the merkle root a rolled extranonce gives (`Merkle.dfy`);
- the framing of the serial link to BM13xx chips, with its two CRCs (`Codec.dfy`, `Crc.dfy`,
  over the general theory in `Lfsr.dfy`);
- division of 256-bit integers by floats, the difficulties and the share targets built on it
  (`Powers.dfy`, `Wide.dfy`, `Difficulty.dfy`, `ShareRate.dfy`);
- the windowed hashrate estimator (`Estimator.dfy`) and the search for PLL dividers (`Pll.dfy`).

How the model is built:

- Objects whose methods update their fields are classes (`Scheduler`, `StartupGate`,
  `Backplane`, `StratumV1Source`, `Suggester`, `ExponentialBackoff`, `ExtranonceIter`,
  `FrameCodec`, `ByteBuffer`, `HashrateEstimator`). Each method is proved against a function
  of the old state, and the results below are about those functions.
- The scheduler is a state machine: one transition for each arm of its `select!`, taken in
  any order, and one for each thing that may happen around it (a share arrives, a channel or
  stream ends, a source hangs up, time passes). A run is any list of these events. Each
  handler is one atomic step. Channels are sequences; for every source the state keeps the
  transcript of both its channels, and the results are about transcripts.
- The order in which a slot map iterates, and whether a thread accepts a task, are parameters
  of an event. Ids are never reused, as slot map keys are versioned.
- Integers are unbounded in Dafny, so 64-bit sums that wrap, casts, saturation and 256-bit
  wrap-around are written out. Floats taken apart into mantissa and exponent are exact; where
  a float is the result of rounding, the model takes any rounding that keeps the order.

## Where the code and its documentation differ

- `SourceEvent::ReplaceJob` is documented to invalidate all earlier work. A header-only
  ReplaceJob is refused before anything is removed, so earlier work stays: a run that submits
  such a share is in `StaleShareAfterHeaderOnly`, and `ReplaceInvalidatesExactly` says exactly
  when the documentation holds. `NoStaleWork` is therefore about accepted replacements.
- `calculate_pll` is documented to fail only when no divider reaches the frequency. On both
  chips that is so, at every frequency of the chip's range (`NoneMeansUnreachable`). It rests on
  where the ranges begin, which is 56.25 MHz: within the chips' divider bounds a frequency that
  can be reached is found if and only if it is at least about 40.69 MHz on the BM1370 or 40.56
  on the BM1362 (`ReachableFoundExactlyWhen`). A chip with the BM1370's bounds and a range from
  40 MHz would miss reachable frequencies (`ReachedButNotFound`).
- On a clock younger than its window the estimator prunes everything older than the present
  instant; `PruneKeepsWindow` says exactly when a call keeps its window. This happens only
  where an `Instant` cannot lie before the clock's start: `checked_sub` fails there. On Linux
  an `Instant` holds signed seconds, the subtraction succeeds, and no clock is young.
- The estimator is documented to be settled once enough samples lie in the current window, but
  it counts those it holds before pruning. A settled estimator has enough in its window if and
  only if the oldest of its `min_samples` newest samples is in it (`SettledExactlyWhen`); in
  `SettledOnTwoShares` five shares settle it, and it is still settled when two are left.
- A float difficulty that is not positive and finite stands for difficulty one. So nought is
  harder than any difficulty below one, and infinity easier than any above one (`OrderBroken`);
  for all other floats the constructor keeps their order (`OrderKeptExactlyWhen`).
- `assign_job_to_threads` panics in two places. The check for hard jobs turns the expected time
  to a share into a `Duration`, which panics from 2^64 seconds on: with one thread a pool gets
  there by setting a difficulty between 2^96 and about 2^224, from where the target is nought
  (`PanicOnHardJob`). And the split panics when more threads are eligible than a job has
  extranonces, as with 257 threads and a slot of one byte (`PanicOn257Threads`). A run of the
  model has panicked if and only if one of its events met one of these two conditions
  (`RunPanicsExactly`), and never does while jobs stay below difficulty 2^32 and have an
  extranonce for every thread that joins (`EasyRunsNeverPanic`). After a panic nothing happens
  any more, and the books and share channels are gone.
- The start-up gate is documented to hold the first broadcast until start-up is complete. It
  does so in a run in which no stream ends (`SilentWhileHolding`), but a disconnection is
  broadcast even while it holds (`ToldWhileHolding`), and nothing else is
  (`HoldingTellsExactlyWhen`).
- Disconnections are noticed by a change in the number of streams, and a registration re-bases
  that number. A thread that ends just before another joins stays listed, with its rate
  (`ThreadLingers`); without such a coincidence none does (`NoThreadLingers`).
- A command frame carries its five-bit CRC in a whole byte, so it passes the check made for
  responses only when that CRC is nought (`PaddedCrcCheck`).

## Model

| member | source | states |
|---|---|---|
| SchedulerSafety.NoStaleWork | mujina-miner/src/scheduler.rs:332-348 | over every run, each share sent to a source belongs to a job the source delivered at or after its latest ClearJobs or accepted ReplaceJob; every share channel names a task on the books, and every task a registered source, a present thread and a job still valid |
| SchedulerShares.SharesComeFromLiveTasks | mujina-miner/src/scheduler.rs:536-600 | over every run, each share sent to a source was taken from the channel of a task then on its books, met that task's target, and that task's own job was delivered at or after the latest ClearJobs or accepted ReplaceJob before it |
| SchedulerShares.OthersAreQuiet | mujina-miner/src/scheduler.rs:862-982 | no other arm or outside event sends any source a share |
| SchedulerHistory.SharesOnceInOrder | mujina-miner/src/scheduler.rs:910-913 | over every run, the shares taken from a task's channel are the first that arrived on it, each once and in order, and the others still wait |
| SchedulerSafety.RunKeeps | mujina-miner/src/scheduler.rs:836-990 | every reachable state satisfies the invariant that ties tasks, share channels, sources and cached jobs together |
| SchedulerSafety.AssignKeeps | mujina-miner/src/scheduler.rs:385-515 | handling a job keeps the invariant, including on the early returns for header-only jobs and without threads, and on a panic |
| SchedulerSafety.ClearKeeps | mujina-miner/src/scheduler.rs:518-533 | clearing a source's jobs leaves no task whose job is no longer valid |
| SchedulerSafety.ShareKeeps | mujina-miner/src/scheduler.rs:536-600 | a share is forwarded only for a job valid at that moment, which keeps the invariant |
| SchedulerSafety.ReportKeeps | mujina-miner/src/scheduler.rs:714-777 | a first report hands out cached jobs that are all still valid |
| SchedulerSafety.SettleKeeps | mujina-miner/src/scheduler.rs:780-808 | the disconnection check keeps the invariant: no task names a thread that is no longer listed |
| SchedulerTurns.DisconnectionsCleared | mujina-miner/src/scheduler.rs:780-808 | after every turn that does not panic the count is that of the streams; where the arm had left it different, exactly the threads with a stream and their tasks and channels are left, each as it was, and each source that listens is told their rate, once; where not, nothing more happens |
| SchedulerTurns.NoThreadLingers | mujina-miner/src/scheduler.rs:780-808 | in a run that takes no registration while a stream has ended unnoticed, every turn leaves exactly the threads whose streams have not ended |
| SchedulerTurns.RegistrationRebases | mujina-miner/src/scheduler.rs:677-707 | a registration adds one thread, without a rate, with one stream, and re-bases the count, so no disconnection is noticed after it |
| SchedulerTurns.ThreadLingers | mujina-miner/src/scheduler.rs:704-706 | a run in which a thread ends while another joins, and stays listed with its rate |
| SchedulerSafety.NoThreadsNoTasks | mujina-miner/src/scheduler.rs:419-423 | without threads there are no tasks, which is why the early return leaves nothing stale |
| SchedulerRuns.StaleShareAfterHeaderOnly | mujina-miner/src/scheduler.rs:399-405 | a run without a panic, on jobs of difficulty one, in which a source is sent a share of a job it had replaced by a header-only one |
| SchedulerWork.ReplaceInvalidatesExactly | mujina-miner/src/job_source/messages.rs:129-134 | a ReplaceJob leaves no earlier task of its source if and only if the new job is not header-only or there was none |
| SchedulerWork.LateShareStillSubmitted | mujina-miner/src/job_source/messages.rs:121-127 | in every reachable state, over a whole turn that takes an UpdateJob and does not panic, earlier tasks of threads that are still there stay, and a late share that meets its own target is still submitted |
| SchedulerWork.NoThreadPassedOver | mujina-miner/src/scheduler.rs:442-515 | in every reachable state each thread that has reported was last offered, by each source, the job that source has out, and unless it refused that task is on the books, short of a panic |
| SchedulerWork.RoundShape | mujina-miner/src/scheduler.rs:459-514 | one assignment offers each eligible thread, in its mode, its own part of an exact split of the job's range, and books it unless refused |
| SchedulerOffers.RoundReachesEachOnce | mujina-miner/src/scheduler.rs:459-514 | one assignment makes exactly one offer to every thread that has reported, and none to any other |
| SchedulerOffers.LateThreadGetsAll | mujina-miner/src/scheduler.rs:714-777 | in every reachable state a thread's first report gets it one offer for each source with a job out, of that job with all its extranonces, and a later report changes nothing about the work |
| SchedulerOffers.EventsSpareOtherSources | mujina-miner/src/scheduler.rs:385-533 | in every reachable state an event of one source leaves the tasks and channels of every other as they were, short of a panic |
| SchedulerOffers.HeaderOnlyIgnored | mujina-miner/src/scheduler.rs:398-405 | a header-only job changes nothing but the transcript |
| SchedulerWork.RoundDisjoint | mujina-miner/src/scheduler.rs:459-514 | two offers of one assignment can never build the same coinbase, whatever extranonces are rolled |
| SchedulerWork.RoundComplete | mujina-miner/src/scheduler.rs:459-514 | every extranonce of the job is in some offer, and in a task on the books if its thread took it |
| SchedulerPanics.Assembled | mujina-miner/src/scheduler.rs:425-471 | for any job, any number of threads and any hashrate of each, a run without a panic leads to the arm that takes the job up, which panics if and only if the expected time is beyond a `Duration` or the threads outnumber the extranonces |
| SchedulerPanics.PanicOn257Threads | mujina-miner/src/scheduler.rs:469-471 | a slot of one byte and 257 threads of a terahash a second: the split panics on a job of difficulty one |
| SchedulerPanics.PanicOnHardJob | mujina-miner/src/types/mod.rs:50-61 | one thread of any hashrate, and any job of a difficulty of 2^96 or more whose target is not nought: the expected time panics |
| SchedulerPanics.StepPanicsExactly | mujina-miner/src/scheduler.rs:862-982 | of all arms and outside events, a step panics exactly when it takes up a job too hard for the expected hashrate or too narrow for the eligible threads |
| SchedulerPanics.RunPanicsExactly | mujina-miner/src/scheduler.rs:836-990 | a run has panicked if and only if some event of it, in the state it found, was such an arm |
| SchedulerPanics.EasyRunsNeverPanic | mujina-miner/src/scheduler.rs:836-990 | no run panics in which at most n threads join, and each job has n extranonces or more and a target of nought or above that of difficulty 2^32 |
| SchedulerPanics.PanicExactly | mujina-miner/src/scheduler.rs:417-471 | an assignment panics exactly when its job is worked on and either 2^32 times the expected hashrate times the target is at most the target of difficulty one, neither being nought, or the eligible threads outnumber the extranonces |
| Difficulties.BeyondDurationMeans | mujina-miner/src/types/mod.rs:50-61 | that condition holds exactly when the expected time to a share is 2^64 seconds or more |
| Difficulties.HardAtEveryRate | mujina-miner/src/types/mod.rs:50-61 | it holds at every hashrate for the target of any float difficulty of 2^96 or more that is not nought |
| SchedulerRates.BroadcastFreshness | mujina-miner/src/scheduler.rs:314-329 | in every reachable state with the gate open, the last rate sent to each listening source is the current aggregate |
| SchedulerRates.AggregateExact | mujina-miner/src/scheduler.rs:242-256 | the aggregate is the sum of the present threads' declared rates, exactly so if and only if that fits in 64 bits |
| SchedulerHistory.ToldIsReported | mujina-miner/src/scheduler.rs:314-329 | in every reachable state with the gate open, a source that listens was last told the sum, modulo 2^64, of what the present threads last reported in the run |
| SchedulerTurns.TranscriptsExact | mujina-miner/src/scheduler.rs:862-977 | in every reachable state an arm adds to each transcript the event it took, the share it submits, and the rate if it announces one and the gate is then open, and nothing else |
| SchedulerTurns.HoldingTellsExactlyWhen | mujina-miner/src/scheduler.rs:1088-1093 | in every reachable state a turn that leaves the gate holding tells a source a rate if and only if it notices a change in the number of streams |
| SchedulerTurns.SilentWhileHolding | mujina-miner/src/scheduler.rs:655-667 | in a run in which no stream ends, no source has been told any rate while the gate holds |
| SchedulerTurns.ToldWhileHolding | mujina-miner/src/scheduler.rs:780-808 | a run in which a source is told a rate while the gate waits for the marker |
| SchedulerStartup.OpensWhenAllReported | mujina-miner/src/scheduler.rs:1088-1135 | a step that opens the gate other than by timeout finds that the marker arrived and every thread registered so far has reported |
| SchedulerStartup.HoldsForAReason | mujina-miner/src/scheduler.rs:1110-1135 | a gate that still holds after the marker waits for a registered thread that has not reported |
| SchedulerStartup.GateIsOneShot | mujina-miner/src/scheduler.rs:938-950 | an open gate never closes, and the timeout opens it only after the deadline |
| SchedulerHistory.GateOpensInTime | mujina-miner/src/scheduler.rs:926-950 | over every run, while the gate holds, the fallback is ready exactly from ten seconds after the latest marker on, and taking it opens the gate |
| SchedulerStartup.StartersReportBeforeOpening | mujina-miner/src/backplane.rs:82-118 | end to end: if the gate is open and was not forced, every thread of every device announced before its transport's scan completed has registered and reported |
| SchedulerStartup.RecordedIsTaken | mujina-miner/src/scheduler.rs:921-936 | the registrations on record are those taken from the channel, in order |
| SchedulerStartup.EveryThreadJoins | mujina-miner/src/backplane.rs:161-174 | end to end: the threads the scheduler has registered are the first of those of all devices announced, hotplugged ones too, in order, and all of them once it has taken all that was sent |
| Backplane.MarkerOnceWhenAllScanned | mujina-miner/src/backplane.rs:82-118 | the completion marker is sent at most once, and has been sent exactly when every transport has reported its scan |
| Backplane.StartersPrecedeMarker | mujina-miner/src/backplane.rs:137-191 | every thread of a starting device stands on the channel in front of the marker |
| Backplane.OutputGrows | mujina-miner/src/backplane.rs:82-118 | what is on the channel stays in front of what follows |
| Backplane.EveryThreadRegistered | mujina-miner/src/backplane.rs:161-174 | the tokens on the channel are, in order, the threads of every device announced, before its transport's scan or after |
| Backplane.Backplane.Run | mujina-miner/src/backplane.rs:82-118 | the event loop puts exactly the specified registrations and marker on the channel |
| Backplane.Backplane.StartBoard | mujina-miner/src/backplane.rs:137-179 | a board's threads are put on the channel in order |
| Scheduler.StartupGate.RecordReported | mujina-miner/src/scheduler.rs:1110-1115 | counts a report while holding and opens when nothing is left to wait for |
| Scheduler.StartupGate.RecordEnumerationComplete | mujina-miner/src/scheduler.rs:1118-1123 | notes completion while holding and opens when every registered thread has reported |
| Scheduler.Scheduler.RunLoop | mujina-miner/src/scheduler.rs:836-990 | the event loop over any choices ends in the state the transition functions give |
| Scheduler.Scheduler.Turn | mujina-miner/src/scheduler.rs:862-982 | one turn is the arm's transition followed by the disconnection check |
| Scheduler.Scheduler.AssignJobToThreads | mujina-miner/src/scheduler.rs:385-515 | the handler leaves the sources, the books and the panic, if any, of the assignment function, with the check for hard jobs between the cache and the removal |
| Scheduler.Scheduler.DifficultyCheckPanics | mujina-miner/src/scheduler.rs:426-428 | the check for hard jobs panics on a registered source whose job is too hard for the expected hashrate |
| Scheduler.Scheduler.DropTasksWhere | mujina-miner/src/scheduler.rs:332-348 | the selected tasks go, and their share channels with them |
| Scheduler.Scheduler.TakeShare | mujina-miner/src/scheduler.rs:536-600 | a share of a known task that meets its target goes to the task's source, any other goes nowhere |
| Scheduler.Scheduler.HandleExpectedHashRate | mujina-miner/src/scheduler.rs:639-667 | a report is recorded, the first one hands out cached jobs and counts at the gate, and the sum is broadcast once the gate is open |
| Scheduler.Scheduler.HandleNewThread | mujina-miner/src/scheduler.rs:677-707 | a thread is registered without a rate and the thread count is re-based |
| Scheduler.Scheduler.HandleThreadDisconnections | mujina-miner/src/scheduler.rs:780-808 | when the number of streams changed, threads without a stream and their tasks go and the sum is broadcast |
| Scheduler.Scheduler.GetExpectedHashrate | mujina-miner/src/scheduler.rs:242-256 | a loop over the threads computes the aggregate |
| Scheduler.Scheduler.AssignCachedJobsToThread | mujina-miner/src/scheduler.rs:714-777 | the newly eligible thread is offered every cached job with its whole range |
| Extranonces.DecodeEncode | mujina-miner/src/job_source/extranonce.rs:64-78 | decoding what an extranonce writes gives it back at every width |
| Extranonces.BytesAre | mujina-miner/src/job_source/extranonce.rs:113-118 | byte i from the right is the counter divided by 256^i, modulo 256 |
| Extranonces.EncodeDecode | mujina-miner/src/job_source/extranonce.rs:64-78 | decoding succeeds exactly on 1 to 32 bytes with only zeros left of the last eight, and encoding the result gives the same bytes |
| Extranonces.BytesInjective | mujina-miner/src/job_source/extranonce.rs:113-118 | valid extranonces that write the same bytes are the same |
| Extranonces.Full | mujina-miner/src/job_source/extranonce.rs:166-173 | succeeds exactly for widths 1 to 32 and then holds every extranonce of that width |
| Extranonces.StartingAt | mujina-miner/src/job_source/extranonce.rs:176-182 | holds exactly the extranonces of that width from the first on |
| Extranonces.Split | mujina-miner/src/job_source/extranonce.rs:202-227 | the loop gives the specified parts or None; casts are lossless and the successor wraps only after the last part |
| Extranonces.SplitPartition | mujina-miner/src/job_source/extranonce.rs:193-227 | the parts are non-empty, contiguous, in order, from the first to the last value, lengths differ by at most one and longer parts come first |
| Extranonces.SplitCoversOnce | mujina-miner/src/job_source/extranonce.rs:193-227 | every extranonce of the range is in exactly one part and the parts hold no others |
| ExtranonceIteration.Drive | mujina-miner/src/job_source/extranonce.rs:308-380 | under any interleaving of next, nth, next_back and nth_back, answers and remaining values are those of the finite sequence |
| ExtranonceIteration.ExtranonceIter.Nth | mujina-miner/src/job_source/extranonce.rs:322-334 | the jump from the bounds equals skipping and taking on the sequence, also past the end and without overflow |
| ExtranonceIteration.ExtranonceIter.NthBack | mujina-miner/src/job_source/extranonce.rs:369-381 | the same from the back |
| ExtranonceIteration.ExtranonceIter.Remaining | mujina-miner/src/job_source/extranonce.rs:284-286 | the number of values left, up to 2^64 |
| ExtranonceIteration.ExtranonceIter.GetSizeHint | mujina-miner/src/job_source/extranonce.rs:317-320 | exact unless all 2^64 values are left |
| ExtranonceIteration.ExtranonceIter.Count | mujina-miner/src/job_source/extranonce.rs:348-350 | exact, and panics only on all 2^64 values |
| ExtranonceIteration.EachValueOnce | mujina-miner/src/job_source/extranonce.rs:308-367 | stepping from both ends yields every value exactly once |
| ExtranonceIteration.Fused | mujina-miner/src/job_source/extranonce.rs:384 | once empty the iterator stays empty |
| ExtranonceText.WriteCompressed | mujina-miner/src/job_source/extranonce.rs:427-447 | elides exactly the leftmost longest run of zero bytes, when it has at least two (sections 4.2.2 and 4.2.3 of RFC 5952) |
| ExtranonceText.Display | mujina-miner/src/job_source/extranonce.rs:130-140 | prints plain hex up to eight bytes, and the compressed form with the width beyond |
| ExtranonceText.PrintedOnce | mujina-miner/src/job_source/extranonce.rs:113-140 | two different extranonces, in counter or width, never print alike |
| ExtranonceText.PrintsOneWay | mujina-miner/src/job_source/extranonce.rs:427-447 | an extranonce prints in one way only |
| ExtranonceText.PrintsReadably | mujina-miner/src/job_source/extranonce.rs:130-140 | the text reads back: two lower-case hex digits to a byte in wire order, a double colon for two or more zero bytes, and a wide slot's width in decimal |
| ExtranonceText.WideSlotsElide | mujina-miner/src/job_source/extranonce.rs:427-447 | slots of ten bytes or more always elide, and print no more digits than the counter has |
| Merkle.ComputeMerkleRoot | mujina-miner/src/job_source/merkle.rs:77-101 | the loop climbs from the id of the assembled coinbase through the branches, or fails when the coinbase does not parse |
| Merkle.CoinbaseLayout | mujina-miner/src/job_source/merkle.rs:69-85 | prefix, extranonce prefix, the extranonce in its width, and suffix follow one another |
| Merkle.ClimbReachesRoot | mujina-miner/src/job_source/merkle.rs:90-99 | climbing through the siblings of leaf nought gives the root of the whole tree with that coinbase, and the siblings do not depend on the coinbase |
| Merkle.CoinbaseInjective | mujina-miner/src/job_source/merkle.rs:77-83 | different extranonces of one slot never build the same coinbase |
| Lfsr.RegisterIsRemainder | mujina-miner/src/asic/bm13xx/crc.rs:11-21 | the shift register computes the remainder of polynomial long division, for messages of any length and generators of any degree |
| Lfsr.LastBitsAreRegister | mujina-miner/src/asic/bm13xx/crc.rs:23-31 | the check is zero exactly when the last bits are the register after those in front |
| Lfsr.BurstCaught | mujina-miner/src/asic/bm13xx/crc.rs:23-31 | every single wrong bit and every burst no longer than the register is rejected |
| Lfsr.FeedWord | mujina-miner/src/asic/bm13xx/crc.rs:40-53 | adding a word to the register and clocking it out feeds the bits of the word |
| Crc.Crc5 | mujina-miner/src/asic/bm13xx/crc.rs:11-21 | the nested loops compute the register after all bits of the data |
| Crc.Crc5IsValid | mujina-miner/src/asic/bm13xx/crc.rs:29-31 | accepts exactly the data that leave the register at zero |
| Crc.ValidFrame | mujina-miner/src/asic/bm13xx/crc.rs:23-31 | the check passes exactly when the generator divides the data, and exactly when the last five bits are the CRC of the others |
| Crc.FiveBitBurstRejected | mujina-miner/src/asic/bm13xx/crc.rs:29-31 | a valid frame with any single bit or any burst of at most five bits flipped is rejected |
| Crc.PairCaughtUnlessPeriodic | mujina-miner/src/asic/bm13xx/crc.rs:11-31 | two wrong bits go unnoticed exactly when they are a multiple of 31 bits apart |
| Crc.PaddedCrcCheck | mujina-miner/src/asic/bm13xx/codec.rs:31-39 | a command's CRC byte passes the response check exactly when it is zero |
| Crc.Crc16 | mujina-miner/src/asic/bm13xx/crc.rs:40-53 | the byte-wise loop equals the bit-serial register |
| Crc.OddOrBurstRejected | mujina-miner/src/asic/bm13xx/crc.rs:32-53 | every odd number of wrong bits and every burst within sixteen bits is rejected |
| Crc.GeneratorTerms | mujina-miner/src/asic/bm13xx/crc.rs:3-7 | the generators are x^5 + x^2 + 1 and x^16 + x^12 + x^5 + 1 |
| Crc.SilentLineRejected | mujina-miner/src/asic/bm13xx/crc.rs:3-7 | a line that only carries zeros passes neither check, because both registers start from ones |
| Crc.AllBitsAt | mujina-miner/src/asic/bm13xx/crc.rs:12-22 | bytes are fed in order, from their highest bit on |
| Crc.BigEndianCrcCheck | mujina-miner/src/asic/bm13xx/codec.rs:51-63 | a frame checks to zero exactly when its last two bytes are the CRC, high byte first |
| Codec.FrameCodec.Decode | mujina-miner/src/asic/bm13xx/codec.rs:78-150 | one call returns the response of a well-formed frame at the front and consumes it, or consumes one byte, or nothing below eleven bytes |
| Codec.FrameCodec.EncodeRegister | mujina-miner/src/asic/bm13xx/codec.rs:31-48 | appends preamble, command and CRC byte to whatever the buffer holds |
| Codec.FrameCodec.EncodeJob | mujina-miner/src/asic/bm13xx/codec.rs:51-70 | appends preamble, command and big-endian CRC-16 |
| Codec.FramesCheck | mujina-miner/src/asic/bm13xx/codec.rs:31-70 | a frame is the preamble 55 AA, the body and the CRC; a command followed by the five low bits of its last byte, the other three being zero, leaves the register at zero, and a job frame does so with all its bytes |
| Codec.ScanIsSelection | mujina-miner/src/asic/bm13xx/codec.rs:78-150 | the scan finds the one selection of non-overlapping frames that leaves out only frames starting inside a chosen one |
| Codec.ChunkIndependence | mujina-miner/src/asic/bm13xx/codec.rs:78-150 | however the stream is cut and however often the decoder is called, responses out plus those still in the buffer are those of the whole stream, for any future bytes |
| Codec.EmittedArePrefix | mujina-miner/src/asic/bm13xx/codec.rs:78-150 | the responses out are always a prefix of the stream's, and all of them once fewer than eleven bytes wait |
| Codec.BufferIsSuffix | mujina-miner/src/asic/bm13xx/codec.rs:78-150 | bytes consumed plus buffer are the input |
| Codec.DrainCompletes | mujina-miner/src/asic/bm13xx/codec.rs:79-96 | calling as often as there are bytes waiting emits every response |
| Codec.CallsShrink | mujina-miner/src/asic/bm13xx/codec.rs:79-96 | each call on eleven bytes or more shrinks the buffer |
| Codec.FrameFound | mujina-miner/src/asic/bm13xx/codec.rs:101-118 | a well-formed frame is found in any garbage unless another starts in the ten bytes before it |
| Codec.FramesRoundTrip | mujina-miner/src/asic/bm13xx/codec.rs:120-150 | frames sent back to back come out as sent, with a cut-off frame after them |
| Wide.ShiftedDiv | mujina-miner/src/u256.rs:85-110 | the quotient of the shifted value, saturated exactly when it needs more than 256 bits; the early exit is sound and no shift loses bits |
| Wide.DivF64 | mujina-miner/src/u256.rs:136-170 | the saturated integer quotient for every positive finite divisor, and a panic for any other |
| Wide.QuotientIsFloor | mujina-miner/src/u256.rs:136-170 | that quotient is the floor of the exact ratio of the dividend to the float |
| Wide.QuotientAntitone | mujina-miner/src/u256.rs:136-170 | a greater divisor never gives a greater quotient |
| Difficulties.ConstructorsAgree | mujina-miner/src/types/difficulty.rs:148-158 | from_f64 and From<u64> agree on every positive integer a float can hold |
| Difficulties.IntegersExact | mujina-miner/src/types/difficulty.rs:43-49 | every integer from 1 to 2^53 is such a float |
| Difficulties.FromF64 | mujina-miner/src/types/difficulty.rs:50-55 | the target of a positive finite value, and that of difficulty one for any other |
| Difficulties.TargetIsRatio | mujina-miner/src/types/difficulty.rs:50-55 | the target of a positive float is the floor of the target of difficulty one over its value, saturated at 256 bits |
| Difficulties.IntegerTargetIsRatio | mujina-miner/src/types/difficulty.rs:148-158 | that of an integer is the floor of the ratio, and nought stands for one |
| Difficulties.OrderIsAcceptance | mujina-miner/src/types/difficulty.rs:174-180 | in the inverted order, not less means that every hash accepted is accepted by the other |
| Difficulties.FromU64Ordered | mujina-miner/src/types/difficulty.rs:148-158 | greater integers are never lower difficulties |
| Difficulties.FromF64Ordered | mujina-miner/src/types/difficulty.rs:50-55 | greater positive floats are never lower difficulties |
| Difficulties.OrderKeptExactlyWhen | mujina-miner/src/types/difficulty.rs:50-55 | for any two floats in order, infinities included, the difficulties are in order unless the lesser is not positive and the greater below one, or the greater is infinite and the lesser above one |
| Difficulties.OrderBroken | mujina-miner/src/types/difficulty.rs:50-55 | both exceptions occur: nought against a half, and two against infinity |
| Difficulties.NoughtAgainst | mujina-miner/src/types/difficulty.rs:50-55 | a value that is not positive and finite stands for difficulty one, and is ordered above a positive value exactly when that one is below one |
| Difficulties.InfinityAgainst | mujina-miner/src/types/difficulty.rs:50-55 | and below a positive value exactly when that one is above one |
| ShareRates.TargetAntitone | mujina-miner/src/types/share_rate.rs:78-85 | more hashes to a share never give a greater target |
| ShareRates.ToTarget | mujina-miner/src/types/share_rate.rs:78-85 | never panics; if rounding is exact the target is the floor of 2^256-1 over the hashes in the interval, or 2^256-1 for one hash or less, and if rounding is off by eps it is that of a number of hashes within three such errors |
| ShareRates.BoundsInOrder | mujina-miner/src/scheduler.rs:304-307 | of any two intervals a `Duration` holds the longer never gives a greater target, for any rounding that keeps the order |
| ShareRates.ComputeSchedulerTarget | mujina-miner/src/scheduler.rs:299-308 | never panics; the result is the number nearest to the source's target between two bounds that are, as accurately as rounding allows, the targets for the hashes of a second and of a tenth |
| StratumSource.StratumV1Source.HandleClientEvent | mujina-miner/src/job_source/stratum_v1.rs:264-380 | one client event changes the protocol state and the events passed on as specified |
| StratumSource.StratumV1Source.Run | mujina-miner/src/job_source/stratum_v1.rs:539-575 | the reconnection loop passes on the jobs of each attempt, a ClearJobs after each disconnection, and waits a jittered delay that doubles over attempts that were not stable |
| StratumSource.ClearedPerDisconnection | mujina-miner/src/job_source/stratum_v1.rs:552-556 | jobs are cleared once for every disconnection and for nothing else |
| StratumSource.FlapsCount | mujina-miner/src/job_source/stratum_v1.rs:557-560 | the doublings before a wait count the attempts since the latest one that lasted a minute, or since the first |
| StratumSource.EmittedAreNotifications | mujina-miner/src/job_source/stratum_v1.rs:316-328 | over a whole connection the events passed on are, in order and one for one, the notifications that could be worked on when they arrived, each with the subscription, difficulty and mask then in force |
| StratumSource.StateIsHistory | mujina-miner/src/job_source/stratum_v1.rs:264-343 | the protocol state is the latest subscription, difficulty and mask of the connection, of those that count |
| StratumSource.TemplateCarriesSubscription | mujina-miner/src/job_source/stratum_v1.rs:224-261 | a job is passed on exactly when its connection's latest subscription gives 1 to 32 bytes and the version leaves the rollable bits clear; its template has that prefix and all extranonces of that width |
| StratumSource.TemplateCarriesDifficulty | mujina-miner/src/job_source/stratum_v1.rs:235-244 | its share target and rollable bits are those last set on the connection; what arrives before the handshake is answered is lost |
| StratumSource.GeneralPurposeBitsAre | mujina-miner/src/job_source/stratum_v1.rs:224-229 | bit i of the rollable bits is bit i + 13 of the mask, for sixteen bits |
| StratumEpochs.ConnectionsSeparated | mujina-miner/src/job_source/stratum_v1.rs:542-575 | between a job of one connection and anything of a later one there is a ClearJobs |
| StratumEpochs.TasksOfOneConnection | mujina-miner/src/scheduler.rs:518-533 | in every reachable state all tasks held for a Stratum source are for jobs of one of its connections |
| ReconnectBackoff.ExponentialBackoff.NextDelay | mujina-miner/src/job_source/stratum_v1.rs:107-119 | the delay lies between half the nominal one and all of it, at the place the hash has among all hashes |
| ReconnectBackoff.NominalGrows | mujina-miner/src/job_source/stratum_v1.rs:92-119 | nominal delays start at the initial one, double up to the ceiling, and reach it |
| SuggestThrottle.SuggestionsArePaced | mujina-miner/src/job_source/stratum_v1.rs:441-504 | over any run of a connection two suggestions are five seconds apart for each step between them, and each is at least 1.5 times or at most 0.8 times the one before, the first against the connection's rate |
| SuggestThrottle.NoChangeLost | mujina-miner/src/job_source/stratum_v1.rs:454-478 | if the difficulty of the latest hashrate is that far from the last suggestion, a cooldown that ends within five seconds holds it and then sends it |
| SuggestThrottle.Suggester.MaybeSuggestDifficulty | mujina-miner/src/job_source/stratum_v1.rs:454-466 | a hashrate update sends a material change unless the cooldown holds it |
| SuggestThrottle.Suggester.FlushSuggest | mujina-miner/src/job_source/stratum_v1.rs:469-477 | at the end of the cooldown a change that is still material is sent, or else the throttle ends |
| Estimator.HashrateEstimator.RecordAt | mujina-miner/src/types/hashrate_estimator.rs:61-73 | the sample is added after pruning and within capacity, and the running total stays the sum |
| Estimator.HashrateEstimator.HashrateAt | mujina-miner/src/types/hashrate_estimator.rs:85-97 | the rate of the samples left after pruning |
| Estimator.HashrateEstimator.SettledHashrate | mujina-miner/src/types/hashrate_estimator.rs:109-121 | present exactly when enough samples are held before pruning |
| Estimator.SamplesAreHistory | mujina-miner/src/types/hashrate_estimator.rs:61-73 | for calls in time order the samples are the last maxSamples ever recorded that are no older than the latest cutoff |
| Estimator.SamplesAreWindow | mujina-miner/src/types/hashrate_estimator.rs:124-132 | on a clock older than the window that is the last maxSamples recorded within a window of the latest call |
| Estimator.EstimateIsHistory | mujina-miner/src/types/hashrate_estimator.rs:85-97 | a query's estimate is that recomputed from the whole history, on any clock: the last maxSamples recorded since the latest cutoff |
| Estimator.WrappedIsSum | mujina-miner/src/types/hashrate_estimator.rs:61-73 | while the true sum fits in 256 bits the running total is that sum, and taking off the oldest sample does not underflow |
| Estimator.SumAdds | mujina-miner/src/types/hashrate_estimator.rs:61-73 | every sample counts once, with its own work |
| Estimator.RateIsFloor | mujina-miner/src/types/hashrate_estimator.rs:88-96 | the rate is the floor of work over whole seconds since the oldest sample, saturated at 64 bits, and nought without a sample or within a second |
| Estimator.PruneKeepsWindow | mujina-miner/src/types/hashrate_estimator.rs:63 | one call keeps exactly the samples of its window if and only if the clock is older than the window or nothing older than now is held |
| Estimator.SettledExactlyWhen | mujina-miner/src/types/hashrate_estimator.rs:104-121 | the estimator counts as settled if and only if its capacity allows for minSamples and that many were recorded since the latest cutoff, and should if and only if that many were recorded within the window; so a settled one has them exactly when the oldest of its minSamples newest is in the window, and an unsettled one lacks them unless its capacity is too small or it over-pruned on a young clock |
| Estimator.SettledOnTwoShares | mujina-miner/src/types/hashrate_estimator.rs:115-121 | with the default limits, an estimator that is settled with two shares left in its window |
| Estimator.EnoughLeft | mujina-miner/src/types/hashrate_estimator.rs:124-132 | at least n samples are left after pruning exactly when the n-th newest is |
| Pll.CalculatePll | mujina-miner/src/asic/bm13xx/chip_config.rs:89-133 | the divider returned, as the chip decodes it, is supported, within the bounds, less than 1 MHz off and marked for the right VCO range; no rounded choice the chip allows is closer, or as close with a lower VCO; nothing is returned when none is less than 1 MHz off; ties go to the first in search order |
| Pll.AnswerMeans | mujina-miner/src/asic/bm13xx/register.rs:209 | the post dividers the chip reads from the byte, each one more than its half of it, are those of the search's choice |
| Pll.RoundedIsNearest | mujina-miner/src/asic/bm13xx/chip_config.rs:104-106 | for given dividers no feedback divider is closer than the rounded one |
| Pll.OptimumOfSquare | mujina-miner/src/asic/bm13xx/chip_config.rs:102-103 | searching only ordered post dividers loses nothing |
| Pll.NoneMeansUnreachable | mujina-miner/src/asic/bm13xx/chip_config.rs:87-88 | on both chips, at every frequency of the chip's range, nothing is found exactly when no divider reaches it |
| Pll.ReachableFoundExactlyWhen | mujina-miner/src/asic/bm13xx/chip_config.rs:154-186 | within the bounds of either chip, any frequency that some divider reaches is found if and only if it is no lower than the one at which the smallest feedback divider is just rounded to |
| Pll.FoundExactlyWhen | mujina-miner/src/asic/bm13xx/chip_config.rs:108-126 | for any bounds at all, what is found is no further off than any divider whose dividers survive rounding, and something is found as soon as one does |
| Pll.ReachedIffRoundedInBounds | mujina-miner/src/asic/bm13xx/chip_config.rs:108-119 | a choice that reaches the target is admissible if and only if its rounded feedback divider passes the guards |
| Pll.ReachedButNotFound | mujina-miner/src/asic/bm13xx/chip_config.rs:87-110 | with the BM1370's bounds and a range from 40 MHz, nothing is found at 40663265 Hz although a divider reaches it |
| Pll.RampIsExact | mujina-miner/src/asic/bm13xx/chip_config.rs:139-188 | on both chips every step of the bring-up ramp, 56.25 to 525 MHz by 6.25, is hit without error by the divider as the chip decodes it |

## Left out

- Share statistics, logging, telemetry, the API and the measured hashrate of threads: they do not feed back into the scheduling modelled here, and are not part of the scheduler's state.
- The debounced alarm for hard jobs: whether it warns is not modelled, only whether its check panics. The expected time is computed in exact numbers, so a job within the rounding error of 2^64 seconds may fall on the other side.
- The target put into each task: `ComputeSchedulerTarget` models how it is computed, but the task in the scheduler's state does not carry it, because it depends on the measured rate.
- Bounded channels: a send completes at once, and a send to a source that has hung up is dropped. Waiting on a full channel is not modelled.
- Calls into threads: `update_task`, `replace_task` and `configure` either succeed or fail; what the thread then does is not modelled, beyond the shares and reports it may send at any time.
- Disjointness of extranonces between one assignment and a thread that reports later: such a thread gets the whole range (`LateThreadGetsAll`), so only one round is disjoint.
- The backplane's board bookkeeping, hotplug failures and shutdown: a device comes up with some threads or none.
- JSON-RPC, sockets and the Stratum client: any order of client events can arrive. Turning shares into submit parameters is left out as plain copying.
- The job-gap timer of a connection, and the wait for a first hashrate before connecting: the one is one more way for an attempt to end, and the other puts off the first attempt.
- SHA-256, transaction parsing and the jitter hash: uninterpreted functions and parameters.
- Decoding of response bodies, registers and the BM13xx thread: a partial function of the nine data bytes; `asic/bm13xx/response.rs` is not part of this model.
- Rounding of 32-bit floats in the PLL search, and of hashrates and deadband products in the suggestions: exact numbers are used instead.
- `to_f64_approx`, `as_f64` and the display of difficulties: approximate by design.
- Byte conversions and the plain integer operators of the 256-bit type: they delegate to a library.
- Chip address assignment, voltage regulators, board patterns, USB, serial, GPIO, I2C, the CLI and the TUI.
