# Verification of the trading engine's kernels

Dafny models of the concurrent queues, the sorting, filtering and bucketing code,
the decision-tree compiler and the smaller kernels of the engine, with proofs of
what they are relied on for. `dafny verify dfyconfig.toml` checks everything.

## What is modelled

- **Disruptor ring with a worker pool** (`DisruptorProtocol`, `DisruptorInvariant`,
  `DisruptorSteps`, `DisruptorSafety`, `DisruptorProgress`). A transition system for any number of
  producers and workers and any ring size. One action is one atomic load, store or
  compare-and-set: `ProducerStep` follows `next`, `tryNext`, `hasAvailableCapacity`
  and `publish` (`3rd/Disruptor/include/Disruptor/MultiProducerSequencer.h:77-159`,
  `:232-264`), `WorkerStep` the loop of `run`
  (`3rd/Disruptor/include/Disruptor/WorkProcessor.h:133-174`) with the barrier and
  the scan, `ObserverStep` `hasBacklog`. The minimum over the gating sequences is
  sampled one sequence per action. `History` records what happened and is read by
  no action. `DisruptorSequencer` has the same sequencer's sequential code as a
  class over the flag array.
- **SPSC ring** (`SpscRing`). A transition system over one writer and one reader,
  with all five calls of `src/SPSC.h:34-213`. A load of the other side's index may
  return any value stored since the last one this side saw.
- **Radix sort** (`StableSort`, `RadixSort`). The three loops of the kernel and the
  ping-pong driver over flat arrays, proved against distribution by one digit.
- **Energy filter** (`IIRFilter`, `IIRObject`). The filter over the reals, as a value
  and as the object the engine updates in place.
- **Snapshot engine** (`Timestamp`, `SnapshotStream`, `StockModel`, `StockHistory`,
  `StockDecision`, `StockEngine`).
  The replay branch: 100 ms buckets with the lunch break cut out, resting sell
  orders, and the speculative computation that runs ahead in place and rolls back
  by swapping filter pointers. The factor and model code is an arbitrary function of
  the snapshots, the indicators and the opening trades.
- **Decision cache** (`WantCache`). The 16-slot ring with parity-encoded decisions.
- **Tree compiler** (`TreeCode`, `TreePasses`, `TreeEmitter`, `ConvertModel`). An
  instruction list has a meaning by jumps whatever its nesting. The two passes, the
  printer, an independent reader and evaluator of the printed C that refuses what is
  not C, and the whole conversion from trees to program.
- **Opening auction** (`OrderBook`), **packet buffers** (`PacketPool`), **base 64**
  (`Base64`). `Arith` holds the shared arithmetic, `Options` the optional value.

## What turned out not to hold

- `hasBacklog` answers false over a worker pool that no longer runs, whatever is
  left in the ring (`HaltedPoolHidesBacklog`); it can be trusted exactly when the
  pool was running as its sequences were listed (`NoBacklogIffListed`), and over an
  unlisted pool is right exactly when the work sequence has reached the cursor it
  read and no worker holds a sequence up to it (`UnlistedAnswerIsRightIff`).
- Starting the pool jumps its sequences over whatever was claimed before, which then
  is handled in no run (`ClaimedBeforeStartIsSkipped`); starting is sound exactly
  when nothing was claimed (`StartIsSoundIffNothingClaimed`).
- The two blocking calls of a one-slot ring block each other forever
  (`OneSlotDeadlocks`); with two or more slots they never do.
- The catch-up loop never ends for a time past 23:59:59.900, because the hours wrap
  (`CatchUpEnds`).
- `reimprove` changes the meaning of "NaN or at most c" when c is NaN
  (`NanThresholdChangesLeaf`); every other test keeps its meaning (`TestKeptIff`).
  The text patterns that produce such a test never produce NaN for c.
- `finish` prints a zeroing test with a declaration of `tmp`, so two of them in one
  statement list are not C (`TwoZeroingTests`), and neither is a NaN constant, printed
  as a call without an argument, or a sum of no trees. Everything else reads back
  (`FinishIsFaithful`); for lists without `ifn0cmpgt`, which the text patterns never
  produce, only NaN constants are left (`NoZeroingStays`).
- The band ratio of the long window has no upper bound (`LongBandRatioUnbounded`).
- Until the cache has filled, an empty slot reads as a refusal for 0:00:00.000, and
  when both a buy and a refusal for the same time are retained, the cache answers
  with the refusal even if the buy is newer (`RetainedTimeIsAnswered`).
- A receive ring of capacity 16 or less is left empty by `Init`. Below 16 it is never
  filled; at 16 it is filled by the first poll that returns any event
  (`RingFilledIff`, `NeverFilledIff`).

## Model

| member | source | states |
|---|---|---|
| `DisruptorSteps.StepKeepsInv` | 3rd/Disruptor/include/Disruptor/WorkProcessor.h:117-179 | every single atomic action of every producer, worker, pool halt and backlog check keeps the ring invariant (who owns which sequence, which flags are set, what has been handled) |
| `DisruptorSafety.ReachableInv` | 3rd/Disruptor/include/Disruptor/MultiProducerSequencer.h:77-117 | the invariant holds in every state that any interleaving of any number of producers and workers reaches from a fresh ring of any size |
| `DisruptorSafety.GatingIsSound` | 3rd/Disruptor/include/Disruptor/WorkProcessor.h:133-157 | every sequence at or below all gating sequences was published and has been handled, so freeing its slot is safe |
| `DisruptorSafety.WorkersClaimApart` | 3rd/Disruptor/include/Disruptor/WorkProcessor.h:138-145 | no sequence is held by two workers, and a held sequence has not been handled |
| `DisruptorSafety.HandledExactlyOnce` | 3rd/Disruptor/include/Disruptor/WorkProcessor.h:147-152 | no two handler calls have the same sequence; each is for a published sequence and gets the event last stored for it |
| `DisruptorSafety.ClaimedIsHandledOrHeld` | 3rd/Disruptor/include/Disruptor/WorkProcessor.h:140-152 | no sequence claimed from the work sequence is lost: it has been handled or some worker holds it |
| `DisruptorSafety.HandlerSeesItsEvent` | 3rd/Disruptor/include/Disruptor/WorkProcessor.h:147-156 | during a handler call the slot keeps the published event: trusting the cached bound is safe |
| `DisruptorSafety.ClaimsTileTheSequence` | 3rd/Disruptor/include/Disruptor/MultiProducerSequencer.h:87-117 | successful claims, by either entry point, are adjacent non-empty ranges ending at the cursor; the cursor never exceeds any gating sequence by more than the ring size, and the shared stale cache never exceeds any gating sequence |
| `DisruptorSafety.ClaimsFitTheRing` | 3rd/Disruptor/include/Disruptor/MultiProducerSequencer.h:87-117 | no successful claim is longer than the ring: a longer one never succeeds |
| `DisruptorSafety.StartIsSoundIffNothingClaimed` | 3rd/Disruptor/include/Disruptor/WorkerPool.h:95-112 | starting the pool, which moves its sequences to the cursor, keeps everything below the gating sequences handled exactly when nothing was claimed before the start; then it changes nothing |
| `DisruptorSafety.ClaimedBeforeStartIsSkipped` | 3rd/Disruptor/include/Disruptor/WorkerPool.h:95-112 | in no run after the start is anything handled that was claimed before it |
| `DisruptorSafety.TilesPartition` | 3rd/Disruptor/include/Disruptor/MultiProducerSequencer.h:136-159 | adjacent ranges are disjoint, increasing and cover exactly 0 to the cursor |
| `DisruptorSafety.SlotsAreExclusive` | 3rd/Disruptor/include/Disruptor/MultiProducerSequencer.h:93-112 | while a claimed sequence is unpublished, every other sequence ever claimed in its slot has been handled: no other producer owns one and no worker holds one, in a handler call or before |
| `DisruptorSafety.FlagsRefinePublished` | 3rd/Disruptor/include/Disruptor/MultiProducerSequencer.h:201-207 | for every claimed sequence above some gating sequence the cyclic flag test answers exactly whether it was published, with 32-bit lap numbers |
| `DisruptorSequencer.HighestPublishedIsTheRunEnd` | 3rd/Disruptor/src/ProcessingSequenceBarrier.cpp:30-40 | a bound computed at one moment is the end of the contiguous published run: all up to it are published, and the next one below the limit is not |
| `DisruptorSafety.ScanReadsExactly` | 3rd/Disruptor/include/Disruptor/MultiProducerSequencer.h:218-229 | a scan that reads one flag per action, while others publish, has passed only published sequences, and each flag it reads is exact at that moment |
| `DisruptorSafety.ScanFindsTheRunEnd` | 3rd/Disruptor/src/ProcessingSequenceBarrier.cpp:30-40 | the bound such a scan ends with is the end of the published run: all up to it published, the next one not when its flag was read |
| `DisruptorSafety.DrainedCheckIsSound` | 3rd/Disruptor/include/Disruptor/Disruptor.h:471-480 | a backlog check answering false over a running pool, reading one sequence at a time, means all up to the cursor it read has been handled |
| `DisruptorSafety.HaltedPoolHidesBacklog` | 3rd/Disruptor/include/Disruptor/ConsumerRepository.h:52-65 | over a pool that no longer runs the answer is false with an unhandled claimed event left |
| `DisruptorSafety.DrainedIff` | 3rd/Disruptor/include/Disruptor/Disruptor.h:471-480 | in any reachable state everything up to c has been handled exactly when the work sequence has reached c and no worker holds a sequence up to c |
| `DisruptorSafety.UnlistedAnswerIsRightIff` | 3rd/Disruptor/include/Disruptor/Disruptor.h:471-480 | over an unlisted pool the answer is always false, and right exactly under that condition on the pool |
| `DisruptorSafety.NoBacklogIffListed` | 3rd/Disruptor/include/Disruptor/Disruptor.h:349-362 | "no backlog" implies drained, over all reachable states, exactly when the pool was running as its sequences were listed |
| `DisruptorProgress.ClaimRefusedIff` | 3rd/Disruptor/include/Disruptor/MultiProducerSequencer.h:97-108 | for any interleaving a producer that samples the gating sequences is refused exactly when the claim is longer than the ring or one of them was below its wrap point when it was read: then `tryNext` throws and `next` spins, and otherwise `tryNext` goes on to its compare-and-set and `next` caches a minimum that lets the retry through |
| `DisruptorProgress.CachePassesIff` | 3rd/Disruptor/include/Disruptor/MultiProducerSequencer.h:234-237 | the gating sequences are sampled exactly when the cached minimum is below the wrap point or above the cursor |
| `DisruptorProgress.RoomIsGranted` | 3rd/Disruptor/include/Disruptor/MultiProducerSequencer.h:97-108 | if every gating sequence had reached the wrap point when the cache was read, the claim is not refused, whatever happens in between |
| `DisruptorProgress.ClaimAlone` | 3rd/Disruptor/include/Disruptor/MultiProducerSequencer.h:77-117 | left alone, either call claims exactly the next n sequences whenever there is room for them |
| `DisruptorProgress.BacklogIffSeen` | 3rd/Disruptor/include/Disruptor/Disruptor.h:471-480 | for any interleaving the check reports a backlog exactly when it has read a gating sequence below the cursor it read before |
| `DisruptorProgress.DrainedReportsNone` | 3rd/Disruptor/include/Disruptor/Disruptor.h:471-480 | a ring drained up to the cursor read never reports a backlog |
| `DisruptorProgress.HeldReachesHandler` | 3rd/Disruptor/include/Disruptor/WorkProcessor.h:147-156 | a worker that holds a published sequence reaches its handler with it by its own steps |
| `DisruptorProgress.WorkerHandlesNext` | 3rd/Disruptor/include/Disruptor/WorkProcessor.h:137-152 | a worker at the top of its loop, left alone, claims the next published sequence, handles it once with the event written for it, and is back at the top |
| `DisruptorSequencer.GetMinimumSequence` | 3rd/Disruptor/src/Util.cpp:40-49 | returns the least of the sequences and the given start value |
| `DisruptorSequencer.IsPowerOf2` | 3rd/Disruptor/src/Util.cpp:25-28 | the bit trick is true exactly of the powers of two |
| `DisruptorSequencer.Log2` | 3rd/Disruptor/src/Util.cpp:30-38 | the result r satisfies 2^r <= i < 2^(r+1), and is 0 for 0 |
| `DisruptorSequencer.MultiProducerSequencer.constructor` | 3rd/Disruptor/include/Disruptor/MultiProducerSequencer.h:23-30 | for a power-of-two size the mask and shift fit it and every flag is -1 |
| `DisruptorSequencer.MultiProducerSequencer.CalculateIndex` | 3rd/Disruptor/include/Disruptor/MultiProducerSequencer.h:276-279 | truncating to 32 bits and masking gives the sequence modulo the ring size |
| `DisruptorSequencer.MultiProducerSequencer.CalculateAvailabilityFlag` | 3rd/Disruptor/include/Disruptor/MultiProducerSequencer.h:271-274 | shifting and truncating gives the 32-bit lap number |
| `DisruptorSequencer.MultiProducerSequencer.PublishOne` | 3rd/Disruptor/include/Disruptor/MultiProducerSequencer.h:261-269 | sets exactly the flag of the sequence |
| `DisruptorSequencer.MultiProducerSequencer.PublishRange` | 3rd/Disruptor/include/Disruptor/MultiProducerSequencer.h:186-193 | sets the flag of every sequence of a range no longer than the ring and no other slot |
| `DisruptorSequencer.MultiProducerSequencer.GetHighestPublishedSequence` | 3rd/Disruptor/include/Disruptor/MultiProducerSequencer.h:218-229 | returns the end of the run of available sequences from the lower bound, or one below it |
| `SpscRing.ConsumedIsPrefix` | src/SPSC.h:34-114 | in every reachable state what was consumed is a prefix of what was accepted, with at most N-1 elements between |
| `SpscRing.RefinesBoundedFifo` | src/SPSC.h:34-213 | every step is a step of a FIFO of capacity N-1 (or leaves it alone), for any mix of calls and any stale index either side may load |
| `SpscRing.WriteReturnsTheRest` | src/SPSC.h:116-182 | a write call accepts a prefix of its input and hands back exactly the rest; a blocking write hands back nothing; a refused single write accepted nothing; giving up means full as last loaded |
| `SpscRing.ReadReturnsTheNext` | src/SPSC.h:184-213 | a read call delivers exactly the next accepted elements; a blocking read delivers all asked for; giving up means empty as last loaded |
| `SpscRing.WriteCallAccepts` | src/SPSC.h:116-182 | from the call to its return, whatever the reader does: what is accepted and what is handed back make up the argument of the call, and after the return the stored index counts all that was accepted |
| `SpscRing.ReadCallDelivers` | src/SPSC.h:184-213 | from the call to its return: what is delivered and what is still wanted make up the number asked for, and after the return the stored index counts all that was consumed |
| `SpscRing.IdleHasPublished` | src/SPSC.h:65-65 | between calls the last index stored by the writer counts everything accepted, that of the reader everything consumed |
| `SpscRing.FreshLoadDelivers` | src/SPSC.h:192-199 | a reader that loads the last index of an idle writer with anything unconsumed goes on to deliver the next element |
| `SpscRing.FreshLoadAccepts` | src/SPSC.h:129-136 | a writer that loads the last index of an idle reader with a slot to spare goes on to accept the next element |
| `SpscRing.ReadAlone` | src/SPSC.h:184-213 | with the writer idle, a read left alone delivers as many accepted elements as it asks for, or all there are |
| `SpscRing.NoSlotIsTouchedTwice` | src/SPSC.h:61-63 | a slot about to be written was seen released, a slot about to be read was seen filled, and the two are never the same |
| `SpscRing.DeadlockOnlyWithOneSlot` | src/SPSC.h:46-60 | a state with both sides blocked on the current index of the other is reachable exactly when N is 1 |
| `SpscRing.OneSlotDeadlocks` | src/SPSC.h:83-97 | the run that blocks both sides of a one-slot ring |
| `StableSort.PassExtendsOrder` | src/radixSort.h:37-58 | distributing records stably sorted modulo p by the next digit gives them stably sorted modulo p*n |
| `StableSort.StablySortedIsPermutation` | src/radixSort.h:53-57 | a stably sorted result is a permutation of the records |
| `RadixSort.CountDigits` | src/radixSort.h:40-45 | counter b holds the number of records with digit b |
| `RadixSort.SumCounts` | src/radixSort.h:47-51 | the counts become the bucket starts |
| `RadixSort.ScatterOne` | src/radixSort.h:56-56 | storing one record at its counter keeps every bucket intact and stays in bounds |
| `RadixSort.Scatter` | src/radixSort.h:53-57 | every bucket holds its records in input order and every counter is its bucket's end |
| `RadixSort.Pass` | src/radixSort.h:37-58 | one kernel call leaves the input's records distributed by one digit in the output; counters never exceed the record count |
| `RadixSort.Sort` | src/radixSort.h:60-63 | after all rounds the records stand in the input buffer, stably sorted modulo the covered weight |
| `RadixSort.FullySorted` | src/radixSort.h:60-63 | when the passes cover the key the result is sorted by the key, a permutation, and stable for equal keys |
| `RadixSort.SortWords` | src/radixSort.h:121-138 | the entry point sorts any number of records of any width and key offset by the unsigned key, stably, in place |
| `IIRFilter.FilteredDescribes` | src/IIRState.cpp:8-78 | after any stream the averages and energies equal their definitions on the whole stream, each window sum equals the energy of the last 100 or 500 samples, positions count modulo the width and the filled marks hold from 100 and 500 ticks on |
| `IIRFilter.WindowSlides` | src/IIRState.cpp:46-59 | overwriting one ring cell and adjusting the sum slides the window by one sample |
| `IIRFilter.CarriedEnergy` | src/IIRState.cpp:23-42 | for each average: what its samples add up to, plus what the last one still carries weighted by (1-a)/a, is at most what the inputs add up to |
| `IIRFilter.AverageEnergyBound` | src/IIRState.cpp:23-42 | the energy of either moving average never exceeds the energy of the input |
| `IIRFilter.BandIsAverage` | src/IIRState.cpp:28-33 | the band is itself a moving average, of the scaled distances of the inputs from the long average |
| `IIRFilter.ResidualEnergy` | src/IIRState.cpp:29-38 | those distances hold at most 1/(1-b) of the energy of the inputs |
| `IIRFilter.EnergyInequality` | src/IIRState.cpp:31-42 | after any volumes (every state describes its stream, FilteredDescribes) low-frequency energy is at most the input energy, and band energy at most 324900/359999 of it |
| `IIRFilter.WindowsNest` | src/IIRState.cpp:98-106 | the 100-sample window never exceeds the 500-sample one nor the low window the low energy, for any volumes |
| `IIRFilter.ReportInRange` | src/IIRState.cpp:80-107 | for any volumes the indicators are missing exactly before 10 or 500 ticks; three lie in [0,1), and the long band ratio is never negative |
| `IIRFilter.ReportedValues` | src/IIRState.cpp:90-106 | each indicator is the stated ratio of energies of the whole stream, with 1e-12 added below: band and the last 100 low samples over all input; band and the last 100 inputs over the last 500 |
| `IIRFilter.FirstVolumeIsIgnored` | src/IIRState.cpp:8-22 | the first volume of a stream has no effect on the filter, whatever it is |
| `IIRFilter.LongBandRatioUnbounded` | src/IIRState.cpp:98-101 | no bound holds of the long band ratio: one large volume and then 500 empty ticks exceed it |
| `IIRObject.IIRState.Push100` | src/IIRState.cpp:46-59 | slides the three 100-tick windows in place and wraps the position |
| `IIRObject.IIRState.Push500` | src/IIRState.cpp:61-73 | slides the 500-tick windows in place and wraps the position |
| `IIRObject.IIRState.AddVolumeTick` | src/IIRState.cpp:8-78 | the object after the call is the specified next state of the whole filter |
| `IIRObject.IIRState.FinalCompute` | src/IIRState.cpp:80-107 | returns the specified indicators; the energies it divides by are never negative (WindowsNest) |
| `IIRObject.IIRState.CopyFrom` | src/StockCompute.cpp:450-450 | structure assignment copies every field and ring cell and leaves the source alone |
| `Timestamp.DelinearLinear` | src/timestamp.h:6-26 | the linear form of a clock time determines it |
| `Timestamp.LinearDelinear` | src/timestamp.h:6-26 | the clock time of a linear time is valid and has that linear time |
| `Timestamp.OrderIsLinear` | src/timestamp.h:6-14 | clock times compare like their linear forms |
| `Timestamp.GridPoint` | src/timestamp.h:28-49 | the clock time of a trading time on the 100 ms grid maps back to it across the lunch break |
| `Timestamp.GridAdvances` | src/timestamp.h:56-59 | advancing by 100 ms goes from each grid point to the next |
| `Timestamp.GridIncreases` | src/timestamp.h:42-59 | grid times strictly increase within the day; after the last one comes midnight |
| `Timestamp.CatchUpEnds` | src/StockCompute.cpp:434-442 | catching up with a time from any grid point ends exactly when the time is not past 23:59:59.900 |
| `Timestamp.BucketMeaning` | src/timestamp.h:28-40 | bucket i is the trading times in (100(i-1), 100i] ms, and a time is past grid point i exactly when its bucket is |
| `Timestamp.LinearOfParts` | src/timestamp.h:6-14 | the linear form is the milliseconds of the hours, minutes, seconds and milliseconds |
| `Timestamp.TradingTime` | src/timestamp.h:28-40 | trading time is the milliseconds since 9:30 up to 11:30, two hours and 100 ms strictly inside the lunch break, and from 13:00 on that plus the milliseconds since 13:00 |
| `Timestamp.GridAroundLunch` | src/timestamp.h:42-59 | the grid points at 9:30, 11:30 and 13:00, and the step from 11:30 to 13:00 |
| `Timestamp.SessionBuckets` | src/timestamp.h:28-40 | the bucket of every clock time: none before 9:30, one per 100 ms begun in the morning, 72001 through the break and at 13:00, one more per 100 ms begun after it |
| `SnapshotStream.StepUntilCatchesUp` | src/StockCompute.cpp:434-442 | catching up closes the open snapshot, then empty ones carrying the price, up to the bucket of the time |
| `SnapshotStream.StreamingIsBucketing` | src/StockCompute.cpp:399-442 | for trades in time order the snapshots are exactly the offline ones: count, volume and amount of the trades of each bucket and the last price so far; as many as the last trade's bucket |
| `SnapshotStream.TotalsAreConserved` | src/StockCompute.cpp:399-408 | count, volume and amount over the snapshots and the open one equal those over all session trades, in any order of times |
| `SnapshotStream.StreamFeedsFilter` | src/StockCompute.cpp:463-470 | the filter is always the one fed with the volumes of exactly the closed snapshots |
| `SnapshotStream.DayIndicatorsInRange` | src/StockCompute.cpp:833-836 | the indicators of any day of trades lie in their ranges |
| `StockModel.LoadInAnyOrder` | src/StockCompute.cpp:415-420 | the count, volume and amount of the resting orders do not depend on the order of the visit |
| `StockModel.OrdersRest` | src/StockCompute.cpp:268-348 | after any events every resting order still has something to sell at a price near the limit |
| `StockModel.FillTakesQuantity` | src/StockCompute.cpp:329-335 | a trade lowers the resting volume by its quantity, or by all the hit order had left |
| `StockModel.SpeculatedExtends` | src/StockCompute.cpp:413-422 | the speculative stream strictly extends the real snapshots, with the filter that belongs to it |
| `StockModel.DecisionsOnlyAdded` | src/StockCompute.cpp:255-266 | over any events decisions are only ever added, each for a grid time |
| `StockModel.StreamIsOfTrades` | src/StockCompute.cpp:119-141 | the stream after any events is that of the trades taken while the stock was alive |
| `StockModel.DayIsBucketing` | src/StockCompute.cpp:326-348 | after any day of events the snapshots are the offline buckets of the trades taken, with their totals, and the filter is theirs |
| `StockHistory.RestingIff` | src/StockCompute.cpp:268-335 | which orders rest after any events: exactly those placed near the limit, not cancelled since and never sold out since, each with its price and what the trades have left of its quantity |
| `StockHistory.ApproachingIff` | src/StockCompute.cpp:337-348 | the stock approaches the limit exactly while its day goes on and some session trade at the approach price or above has come since the flag was last cleared |
| `StockHistory.OpeningOfTrades` | src/StockCompute.cpp:337-341 | the opening price is that of the last trade taken before 9:30, the opening volume what all of them traded |
| `StockDecision.LoadIsSum` | src/StockCompute.cpp:415-420 | the load counts every resting order once: how many, the sum of their quantities, the sum of price times quantity |
| `StockDecision.PushedDecision` | src/StockCompute.cpp:410-426 | the pushed decision is to buy exactly when the model accepts the real snapshots followed by the open one and empty ones up to the bucket of the future time, the last of them with the resting orders traded in it at the limit price; the indicators of a filter fed with their volumes; the opening price; and the opening volume |
| `StockDecision.ApproachPushes` | src/StockCompute.cpp:255-266 | a computation pushes nothing while the stock is not approaching, two such decisions for consecutive grid times when it is the first, otherwise one |
| `StockDecision.CheckThenApproach` | src/StockCompute.cpp:245-266 | after a check that finds the stock approaching, the next computation decides for the grid time of the open snapshot and the one after it |
| `StockDecision.DecisionsAreMadeInRun` | src/StockCompute.cpp:410-432 | every decision of a run was made by one of its computations, for a grid time, from the real market of that moment |
| `StockEngine.StockCompute.constructor` | src/StockCompute.cpp:47-78 | the engine starts alive at 9:30 with the previous close, no snapshots and fresh filters |
| `StockEngine.StockCompute.StepSnapshot` | src/StockCompute.cpp:463-470 | feeds the filter, closes the open snapshot and zeroes its counters, keeping the price |
| `StockEngine.StockCompute.StepSnapshotUntil` | src/StockCompute.cpp:434-442 | the in-place loop is the specified catch-up |
| `StockEngine.StockCompute.AddRealTrade` | src/StockCompute.cpp:399-408 | catches up and accounts the trade to the open snapshot |
| `StockEngine.StockCompute.FillUpSell` | src/StockCompute.cpp:329-335 | a trade takes its quantity from the resting order it hits and removes it when used up |
| `StockEngine.StockCompute.OnTrade` | src/StockCompute.cpp:326-348 | the market view after a trade: before the open only prices, afterwards snapshots and the approach flag |
| `StockEngine.StockCompute.OnTick` | src/StockCompute.cpp:119-141 | the market view after any tick is the specified one |
| `StockEngine.StockCompute.UpSellOrderAmount` | src/StockCompute.cpp:109-117 | returns the amount of the resting orders |
| `StockEngine.StockCompute.SaveSnapshot` | src/StockCompute.cpp:444-452 | the stream is unchanged and runs on the other filter object; the saved object holds the real filter |
| `StockEngine.StockCompute.RollBack` | src/StockCompute.cpp:454-461 | restoring after a speculation gives back exactly the saved stream on the original filter object |
| `StockEngine.StockCompute.TradeRestingOrders` | src/StockCompute.cpp:415-420 | adds every resting order once to the open snapshot |
| `StockEngine.StockCompute.Speculate` | src/StockCompute.cpp:410-424 | runs ahead on the copy and returns the decision of the model on the real stream with all resting orders traded; the saved parts hold the real state |
| `StockEngine.StockCompute.ComputeFutureWantBuy` | src/StockCompute.cpp:410-432 | pushes the decision that PushedDecision spells out, from the real market, and leaves the market view, both filter pointers and all flags as they were |
| `StockEngine.StockCompute.CheckApproach` | src/StockCompute.cpp:245-253 | restarts the future time at the open snapshot's grid time exactly while approaching, and then marks the next computation as the first |
| `StockEngine.StockCompute.OnApproach` | src/StockCompute.cpp:255-266 | while approaching pushes the decision for the future time and advances it, on the first computation twice, both from the same real market; otherwise nothing |
| `StockEngine.StockCompute.HandleAll` | src/MDD.cpp:190-247 | after any run of ticks and speculative calls the market view is the one the ticks alone give, although the speculation changes the same fields in place; and the decisions pushed are exactly those made from the real market at each speculative call |
| `WantCache.SlotsHoldTheLast16` | src/WantCache.h:41-50 | each slot holds the last decision pushed to it, one of the last 16 pushed, or zero |
| `WantCache.Cache.PushWantBuyTimestamp` | src/WantCache.h:41-50 | the slots are those of the list of pushes with the new decision appended |
| `WantCache.Cache.CheckWantBuyAtTimestamp` | src/WantCache.h:59-79 | a query from 90 ms before a retained time to 9 ms after it is answered by the decisions retained for that time; otherwise by the first of the nearest slots |
| `WantCache.RetainedTimeIsAnswered` | src/WantCache.h:59-79 | a query from 90 ms before a retained time to 9 ms after it is answered buy exactly when no retained decision for that time refuses and no empty slot reads as a refusal for time zero |
| `WantCache.RetainedDecisionIsFound` | src/WantCache.h:59-79 | with one retained decision for the time, such a query is answered by that decision (time zero needs a full ring) |
| `WantCache.WantBuyWasPushed` | src/WantCache.h:61-78 | a buy answer comes from a retained buy decision stored for between 411 ms before and 492 ms after the query |
| `WantCache.NotSureMeansOutOfTolerance` | src/WantCache.h:61-74 | the answer is NotSure exactly when every stored time is more than 402 ms from the grid time around the query |
| `TreeCode.RunBlock` | scripts/convert_model.py:142-248 | running the lines of a well-nested block by jumps does what the nested block does, whatever follows |
| `TreeCode.RunIsExec` | scripts/convert_model.py:142-248 | a well-nested list returns the leaf of its nested ifs |
| `TreePasses.SameEffectsRun` | scripts/convert_model.py:18-60 | lists whose lines have the same effects return the same leaf, nested or not |
| `TreePasses.NestingKept` | scripts/convert_model.py:60-60 | a pass that keeps the role of each line keeps the nesting |
| `TreePasses.Reimprove` | scripts/convert_model.py:18-60 | the loop is the line-by-line pass, stopping at the first failed assertion |
| `TreePasses.ReimproveSucceeds` | scripts/convert_model.py:33-56 | the pass succeeds exactly on lists whose NaN-aware tests are not negated and whose zeroing tests do not compare with NaN |
| `TreePasses.TestKeptIff` | scripts/convert_model.py:33-56 | a rewritten test holds of the same values, NaN and infinities included, exactly when it is not "NaN or at most" against a NaN constant |
| `TreePasses.ReimproveKeepsMeaning` | scripts/convert_model.py:18-60 | for every list without such a test, and every input, the rewritten list returns the same leaf |
| `TreePasses.NanThresholdChangesLeaf` | scripts/convert_model.py:44-47 | a list with such a test that returns 2 before the pass and 1 after it, on every number |
| `TreePasses.OnlyPlainTests` | scripts/convert_model.py:33-56 | after the pass every test is a plain comparison, or the one zeroing test the pass does not rewrite |
| `TreePasses.Revamp` | scripts/convert_model.py:120-139 | the loop is the line-by-line remapping, stopping at the first unknown index |
| `TreePasses.RevampSucceeds` | scripts/convert_model.py:135-137 | remapping succeeds exactly when every index other than -1 is mapped |
| `TreePasses.RevampKeepsMeaning` | scripts/convert_model.py:120-139 | remapped code on a re-indexed input returns what the code returns on the original input |
| `TreePasses.EveryInputReindexes` | scripts/convert_model.py:135-136 | every input can be re-indexed exactly when no two features share an index and none takes -1 |
| `TreeEmitter.Finish` | scripts/convert_model.py:142-256 | the loop prints the specified lines and indentation, or raises on an unknown operation |
| `TreeEmitter.ConditionHolds` | scripts/convert_model.py:180-226 | a printed C condition, evaluated as C after its declaration, holds exactly when the test does |
| `TreeEmitter.ParsePrinted` | scripts/convert_model.py:180-246 | a reader that allows one declaration of tmp in a statement list, tmp only where it is visible, and no NaN constant gets the same tree back exactly when no list holds two zeroing tests and no printed constant is NaN, and otherwise nothing |
| `TreeEmitter.CMeansBlock` | scripts/convert_model.py:180-246 | the C block, evaluated with the innermost tmp, returns what the block returns |
| `TreeEmitter.FinishIsFaithful` | scripts/convert_model.py:142-256 | a printed program of well-formed trees has balanced braces and each line at its depth; it reads as one C function per tree, summed last first, exactly when there is a tree, the blocks are printable and the numbers are distinct and not negative |
| `ConvertModel.Sorted` | scripts/convert_model.py:114-114 | the keys in ascending order |
| `ConvertModel.ScanBlock` | scripts/convert_model.py:192-202 | a scan of the lines, one flag per open list, passes exactly on the lines of printable blocks |
| `ConvertModel.ProcessedPrintable` | scripts/convert_model.py:18-60 | what both passes leave is printable exactly when the source list has no printed NaN and no statement list with two zeroing tests that the first pass leaves |
| `ConvertModel.NoZeroingStays` | scripts/convert_model.py:192-202 | without the zeroing test that the first pass leaves, only a printed NaN constant is in the way |
| `ConvertModel.TwoZeroingTests` | scripts/convert_model.py:198-202 | a list that both passes leave as it is and whose printed text declares tmp twice in one scope |
| `ConvertModel.ProcFile` | scripts/convert_model.py:99-117 | for well-nested trees the conversion succeeds exactly when both passes accept all of them; what it prints is C exactly when there is a tree and every tree last given for its number is printable; the program then has one function per tree number, ascending, each returning on the re-indexed input the leaf of that tree |
| `OrderBook.OpeningIsUnique` | src/L2/OrderBook.h:191-203 | the three criteria single out one price |
| `OrderBook.OpeningMaximises` | src/L2/OrderBook.h:191-203 | the price maximises the matched quantity over the band, then minimises the absolute imbalance, then is the highest up to the previous close or else the lowest above it |
| `OrderBook.MatchedIffCrossed` | src/L2/OrderBook.h:194-196 | for non-negative books something is matched exactly when a bid crosses an ask |
| `OrderBook.MatchedBounds` | src/L2/OrderBook.h:194-195 | for non-negative books the matched quantity is between zero and both totals |
| `OrderBook.Book.Accumulate` | src/L2/OrderBook.h:176-188 | the arrays hold supply and demand at every price, the sums the totals |
| `OrderBook.Book.Search` | src/L2/OrderBook.h:190-213 | for any books the result is the opening price with its quantity and imbalance, or the previous close when nothing matches |
| `OrderBook.Book.Auction` | src/L2/OrderBook.h:175-216 | the virtual opening is that result and what remains is total minus matched, never negative for non-negative books |
| `OrderBook.Book.SnapUpdate` | src/L2/OrderBook.h:156-231 | a snapshot before the opening trade: statistics since the last one, the matched quantity on both sides, and the surplus as a second bid when buyers are left, as a second ask when sellers are |
| `PacketPool.ChainKept` | src/ostmd/efvi_receive_base.cpp:91-95 | a free list does not notice links of other buffers |
| `PacketPool.Resources.constructor` | src/ostmd/efvi_receive_base.cpp:21-31 | as many separate buffers as the ring has capacity |
| `PacketPool.Resources.ReceiveSpace` | 3rd/OstMdAPI/include/etherfabric/ef_vi.h:1031-1035 | the ring space, from counters that wrap at 32 bits, is the capacity minus what is posted |
| `PacketPool.Resources.PktBufFree` | src/ostmd/efvi_receive_base.cpp:91-95 | pushes the buffer to the head of a list that stays acyclic with its counter as length |
| `PacketPool.Resources.RefillRxRing` | src/ostmd/efvi_receive_base.cpp:130-144 | exactly the first 16 free buffers move to the ring when both sides allow, otherwise nothing moves |
| `PacketPool.Resources.FillFreeList` | src/ostmd/efvi_receive_base.cpp:32-38 | every buffer is on the free list once |
| `PacketPool.Resources.Init` | src/ostmd/efvi_receive_base.cpp:32-50 | the fill loop ends, leaves at most 16 slots of the ring open, and leaves the ring empty exactly when its capacity is at most 16 |
| `PacketPool.Resources.HandleRx` | src/ostmd/efvi_receive_base.cpp:97-116 | a returned buffer is processed once and goes to the head of the free list |
| `PacketPool.Resources.EventqPoll` | src/ostmd/efvi_receive_base.cpp:163-163 | polling moves the returned buffers from the ring to the handler and the fill level falls by their number |
| `PacketPool.Resources.PollOnce` | src/ostmd/efvi_receive_base.cpp:161-186 | one turn processes every returned packet once in order, leaves the specified free list and ring, and keeps every buffer in exactly one place |
| `PacketPool.Resources.WorkThread` | src/ostmd/efvi_receive_base.cpp:156-187 | the same over any run of polls in which the adapter returns only posted buffers, each once |
| `PacketPool.ReceivedOrDiscarded` | src/ostmd/efvi_receive_base.cpp:118-128 | the packets processed and the buffers freed by a poll are exactly those received and those the adapter would discard |
| `PacketPool.ReceivedInOrder` | src/ostmd/efvi_receive_base.cpp:161-182 | packets are processed in the order of the events and their buffers end up on the free list last one first |
| `PacketPool.TurnKeepsWhole` | src/ostmd/efvi_receive_base.cpp:161-186 | a turn keeps every buffer in exactly one place, and with a capacity of at least 16 leaves the ring filled whenever there was an event |
| `PacketPool.RingFilledIff` | src/ostmd/efvi_receive_base.cpp:49-50 | after any run of turns the ring is filled exactly when its capacity is above 16, or is 16 and some poll has returned an event |
| `PacketPool.NeverFilledIff` | src/ostmd/efvi_receive_base.cpp:130-144 | the ring is never filled in any run exactly when its capacity is below 16 |
| `Base64.GroupValue` | 3rd/header-only/base64.cpp:134-141 | three bytes and their four digits are the same 24-bit number |
| `Base64.DigitOfAlphabet` | 3rd/header-only/base64.cpp:42-53 | the digit of a value is the character there in the standard or the URL alphabet |
| `Base64.AlphabetsAreRead` | 3rd/header-only/base64.cpp:55-71 | a character is read as its position in either alphabet, and refused exactly when it is in neither |
| `Base64.DigitRoundTrip` | 3rd/header-only/base64.cpp:55-71 | each digit of either alphabet reads back and is neither padding nor a line break |
| `Base64.Base64Encode` | 3rd/header-only/base64.cpp:111-160 | the loop is the specified encoding, of length 4 per started group of 3 |
| `Base64.Base64Decode` | 3rd/header-only/base64.cpp:163-241 | the loop is the specified decoding, with its two exceptions |
| `Base64.DecodeUndoesEncode` | 3rd/header-only/base64.cpp:111-241 | decoding gives back every byte string, in both alphabets |
| `Base64.UnpaddedDecodes` | 3rd/header-only/base64.cpp:214-235 | it does so without the padding too |
| `Base64.UnpaddedIsPrefix` | 3rd/header-only/base64.cpp:136-153 | what the unpadded form drops is exactly the padding |
| `Base64.InsertLinebreaks` | 3rd/header-only/base64.cpp:73-89 | the in-place insertion loop breaks the text into lines |
| `Base64.LinesAreShort` | 3rd/header-only/base64.cpp:81-86 | every line but the last has exactly the given length, the last at most |
| `Base64.BreaksRemoved` | 3rd/header-only/base64.cpp:171-177 | removing the line breaks gives the text back |
| `Base64.BrokenFormsDecode` | 3rd/header-only/base64.cpp:91-104 | for any line length, decoding with line-break removal undoes the broken form |
| `Base64.EncodePem` | 3rd/header-only/base64.cpp:96-99 | the result decodes to the input; without its line breaks it is the encoding, and its lines have exactly 64 characters, the last at most |
| `Base64.EncodeMime` | 3rd/header-only/base64.cpp:101-104 | the same with lines of 76 characters |

## Left out

- Disruptor memory ordering: actions interleave as sequentially consistent steps; the availability flags are a plain integer array in the source, not atomics.
- Disruptor 64-bit sequence overflow; the 32-bit truncation of lap numbers and indices is modelled.
- Disruptor restarts: the runs begin with a started pool on an empty ring (`StartIsSoundIffNothingClaimed` covers the start itself); restarting a worker, the event releaser, gating sets that change after the start, the single-producer sequencer, wait strategies, lifecycle and exception handlers are not modelled (a handler that throws counts as having handled its event; a timed-out or alerted wait is one that gives up).
- Disruptor fairness: what a producer or a worker gets done is proved for its own steps (`ClaimAlone`, `WorkerHandlesNext`) and for what others cannot refuse it (`RoomIsGranted`), not that every thread gets to run; a claim of more than the ring size spins forever in `next`.
- DisruptorSequencer.MultiProducerSequencer.constructor: a size that is not a power of two throws in the base class; here it is excluded.
- SPSC fairness: a read's progress is proved for its own steps (`ReadAlone`), not that both sides get to run; the iterator interface (elements are integers).
- RadixSort.SortWords: keys are unsigned words; the use on float keys is not modelled, no pass shifts by the full word width, which C++ leaves undefined, and the record count fits a word, since the counters are words.
- Floating-point rounding in the filter, which is modelled over the reals, and overflow of its tick counter and of 32- and 64-bit sums of prices and quantities.
- Snapshot engine: only the replay branch; the stock's upper approach price is a parameter, since its rounding is floating point; clock times are non-negative; recording of factors, logging and the factor computations themselves are abstract or absent; the choice of at most two approaching stocks is any pattern of calls.
- StockEngine.StockCompute.DecideWantBuy: the decision is an arbitrary function of snapshots, indicators, opening price and volume, so a factor kept from an earlier computation is not modelled.
- StockEngine.StockCompute.AddRealTrade: only times up to 23:59:59.900, after which the loop never ends (`CatchUpEnds`).
- WantCache.Cache.CheckWantBuyAtTimestamp: the slots are read by another thread one at a time with relaxed loads; the model reads them at one moment.
- Tree compiler: matching the generated C text (`improve`) and number formatting; lines are structured values instead of characters, the float suffix is not modelled, and the sum over the trees is the list of calls, since the order matters only to rounding.
- OrderBook.Book.SnapUpdate: only the branch before the opening trade; the price-level branch, order entry and 32-bit overflow of the sums are not modelled.
- PacketPool.Resources.EventqPoll: the adapter is assumed to return each posted buffer at most once; packet parsing, descriptor push and driver setup are not modelled.
- Base64.Base64Encode: the 32-bit loop position of the source, which cannot pass inputs of 4 GiB, is not modelled.
- Base64.InsertLinebreaks: a line length of zero, which never ends; only 64 and 76 are used.
- OrderRefLut, StockState, the AES tables, network and vendor code, configuration and thread affinity: no part of the above, or easy members only.
