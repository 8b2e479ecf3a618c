# Verified models of the xmSigma rings and checksums

This project models four components of xmSigma in Dafny and proves what they
promise:

* `MpscRtLogger`, the bounded multi-producer, single-consumer ring behind the
  real-time logger;
* `RtLogger`, its single-producer sibling;
* `RingBuffer<T, N>`, the mutex-guarded circular buffer that can overwrite;
* `crc16_xmodem`, `crc8_maxim` and the inverted-sum checksum.

`dafny verify dfyconfig.toml` checks everything.

## How the loggers are modelled

Each logger appears twice.

**As a transition system** (`MpscModel`, `SpscModel`). The state holds every
shared variable and, for each thread, which access it makes next. Every atomic
load, store and exchange is a step of its own, and so is every read or write of
a payload field, so that a torn record would show. Any finite sequence of
actions is a schedule; an action that its thread cannot take changes nothing.
The number of producers is unbounded, `compare_exchange_weak` may fail
spuriously, and `Flush` may make its two loads in either order, since C++ leaves
that open. History fields record the claims by position, the sink, the calls and
the drops. The invariants (`MpscInvariant`, `MpscHistory`, `SpscInvariant`) are
preserved by every step; the theorems hold in every reachable state.

**As a class** (`MpscLogger`, `SpscLogger`). The methods follow the code
statement by statement, on an array and fields updated in place. Between any two
accesses `Interfere` lets the other threads act, and its contract is all that the
method then knows. Ghost fields tie the object to a state of the transition
system: each access is proved to be exactly the step that the thread takes
there, so every theorem about runs holds of the object.

The capacity must be at least 2 for the multi-producer ring (see
`MpscLimits.SafeIffTwoCells`; the class carries it as part of `Valid()`, and its
constructor says when it holds) and may be any power of two for the other.

**Memory order.** Steps are sequentially consistent. What justifies this for the
payload fields is that each is written before a release store (of a cell's
`sequence`, rt_logger_mpsc.hpp:83 and rt_logger_mpsc.cpp:80; of `head_` and
`tail_`, rt_logger.hpp:117 and rt_logger.cpp:78) and touched by the other side
only after an acquire load of the same variable (rt_logger_mpsc.hpp:64,
rt_logger_mpsc.cpp:72; rt_logger.hpp:108, rt_logger.cpp:69). `ExclusiveAccess`
shows that nothing else touches them in between.

**Parameters.** The clock reading, the formatted text (or the fact that
formatting threw) and the initial level are parameters. The clock is read after
the claim in the code; as the value is arbitrary it belongs to the call here.
The sink is a sequence of records. `budget` and `patience` stand for how many
claims the others make and how often the exchange fails without cause during one
call: any finite numbers. `naps` says how many empty rounds pass before the
destructor clears the flag.

## The other components

`RingBuffer` is a class over an array with two 64-bit words as indices. Since
each method holds the lock throughout, each is one atomic operation, and its
contract says what it does to the sequence of contents; `RingSpec` proves what
that means over whole runs, and a ghost record of the operations ties every object
to such a run (`LifeConserves`). Two ghost counters give the true number of writes
and reads behind the words, so wrap-around and overwriting laps are covered.

The CRCs are methods with the nested loops of the code on `bv16` and `bv8`.
`Gf2` defines polynomials over GF(2), multiplication and remainder independently
of any register, and proves that the shift register divides; `WordBits` and
`Checksum` connect machine words to it. The parameters are those of
CRC-16/XMODEM and CRC-8/MAXIM-DOW in the catalogue of parametrised CRC
algorithms.

## Where the code and its documentation differ

* The header says a claim's retries are bounded by the number of producers
  (rt_logger_mpsc.hpp:40-42). No such bound holds in any ring of two cells or more
  (`RetriesExceedProducers`); those that hold allow for one retry per competing
  claim and one per spurious failure, and no others do (`RetryBoundIff`).
* The constructor rounds a request of 0 or 1 to capacity 1
  (rt_logger_mpsc.cpp:33-36), where "published" and "free again" are the same
  number. Records are then torn (`CapacityOneTorn`); two cells are exactly what
  is needed (`SafeIffTwoCells`).
* "Stopped + drained" (rt_logger.cpp:71) does not follow from the two tests
  before it: a record published between them is lost (`UnflushedLoss`).
  `ExitDrainsIff` says when it is true, and `FlushThenDestroy` gives the order of
  calls that makes it true.
* `FormatInto` promises the length written (rt_logger.hpp:40-41), but returns it
  as 16 bits: right exactly below `2^16` bytes, which includes every slot
  (`LengthLost` is the shortest exception).

## Model

| member | source | states |
|---|---|---|
| `Words.RoundUpCapacity` | src/rt_logger_mpsc.cpp:33-36 | The capacity is the least power of two that is at least the request, and it is 1 only for a request of 0 or 1. The request is at most `2^63`, because past that the loop never ends (next row). |
| `Words.RoundingTerminatesIff` | src/rt_logger.cpp:34-35 | Doubling a 64-bit counter from 1 ever reaches the request if and only if the request is at most `2^63`. |
| `Words.MaskIsSlot` | include/xmsigma/logging/rt_logger_mpsc.hpp:63 | `pos & mask_`, computed bit by bit, is the remainder of the position by the power-of-two capacity. |
| `Words.MaskOfWrapped` | src/rt_logger.cpp:75 | Masking an index that has wrapped at `2^64` selects the same slot as the true, unwrapped count. |
| `Words.WrappedDistance` | include/xmsigma/logging/rt_logger.hpp:108 | The wrapping difference of two 64-bit indices is the true distance of the counts behind them, for any distance below `2^64`. |
| `Words.WindowDistinct` | include/xmsigma/logging/rt_logger_mpsc.hpp:33-38 | In a window of one lap every position has a slot of its own. |
| `Words.WindowCovers` | include/xmsigma/logging/rt_logger_mpsc.hpp:33-38 | Every slot is met by a window of one lap, wherever the window starts. |
| `Words.SignedValue` | include/xmsigma/logging/rt_logger_mpsc.hpp:65-66 | The cast to a signed 64-bit integer gives the one value in range that agrees with the word modulo `2^64`. |
| `Records.FormatInto` | include/xmsigma/logging/rt_logger.hpp:42-60 | A completed formatting leaves the first `min(size, cap)` bytes of the output at the front of the buffer, one that threw the first 27 or fewer of the fixed diagnostic; nothing past `cap` is touched. The returned 16-bit length is that number modulo `2^16`, so it is right if and only if fewer than `2^16` bytes were written; the documentation (40-41) promises it always. |
| `Records.RenderedInSlot` | include/xmsigma/logging/rt_logger.hpp:91 | A slot of 256 bytes gets the output, cut off after 256 bytes, or the whole diagnostic. |
| `Records.LengthLost` | include/xmsigma/logging/rt_logger.hpp:50 | Any output of `2^16` bytes, in a buffer that holds it, is reported as 0 bytes. |
| `BoundedFifo.FifoSafe` | include/xmsigma/logging/rt_logger_mpsc.hpp:33-43 | In every run of the reference queue the delivered records are a prefix of the accepted ones and at most `cap` places are in use: what refinement of it buys. |
| `BoundedFifo.FifoDropsWhenFull` | include/xmsigma/logging/rt_logger_mpsc.hpp:40-43 | In every run of the reference queue a record is rejected only when `cap` places are in use, and accepted only when fewer are. |
| `MpscInvariant.InitInv` | src/rt_logger_mpsc.cpp:33-41 | The seeded state satisfies the invariant: cell `i` carries sequence `i`. |
| `MpscInvariant.LoadedSequence` | include/xmsigma/logging/rt_logger_mpsc.hpp:64-77 | What the signed difference says, for a position of any age: zero exactly if the cell is in the window and not published, negative exactly if the position is the current enqueue position and a whole lap is unfreed, positive only if the position is out of date. |
| `MpscInvariant.CellToRead` | src/rt_logger_mpsc.cpp:70-75 | The drain thread's test succeeds exactly if the record at `dequeue_pos_` has been published. |
| `MpscInvariant.ClaimTop` | include/xmsigma/logging/rt_logger_mpsc.hpp:69-71 | A successful exchange takes the position at the top of the window, keeps every other claim in the state it was in, and preserves the encoding and every other producer's facts. |
| `MpscInvariant.WritePayload` | include/xmsigma/logging/rt_logger_mpsc.hpp:79-82 | A payload store of an owner preserves the whole invariant, so it reaches no cell of anybody else. |
| `MpscInvariant.PublishInv` | include/xmsigma/logging/rt_logger_mpsc.hpp:83 | Publishing preserves the invariant: `pos + 1` in the cell is what marks the position as published. |
| `MpscInvariant.FreeInv` | src/rt_logger_mpsc.cpp:79-80 | Handing a cell back with `pos + mask_ + 1` preserves the invariant: the cell is free for the position one lap later, also while `dequeue_pos_` is one ahead of the freed cells. |
| `MpscInvariant.StepInv` | include/xmsigma/logging/rt_logger_mpsc.hpp:57-84 | Every access of every thread preserves the invariant, for any number of producers. |
| `MpscInvariant.ExecInv` | src/rt_logger_mpsc.cpp:68-87 | The invariant holds after every schedule. |
| `MpscHistory.StepHistory` | include/xmsigma/logging/rt_logger_mpsc.hpp:57-84 | Every access preserves the order facts: calls of one producer claim in the order in which they began, and none claims twice. |
| `MpscHistory.StepCount` | include/xmsigma/logging/rt_logger_mpsc.hpp:57-84 | Every access preserves the balance of calls: claimed, counted as dropped, or undecided. |
| `MpscTheorems.CellEncoding` | include/xmsigma/logging/rt_logger_mpsc.hpp:61-83 | In every reachable state `freed <= enqueue_pos_ <= freed + cap`, and the cell of each position in that lap carries `p + 1` if `p` is published and `p` otherwise. |
| `MpscTheorems.ExclusiveAccess` | include/xmsigma/logging/rt_logger_mpsc.hpp:63-83 | In every reachable state no two producers own the same cell and none owns the cell that the drain thread is reading. |
| `MpscTheorems.SinkInClaimOrder` | src/rt_logger_mpsc.cpp:68-87 | In every reachable state the sink is exactly the records of the first claims, in claim order: nothing torn, lost, repeated or reordered. |
| `MpscTheorems.PerProducerFifo` | include/xmsigma/logging/rt_logger_mpsc.hpp:36-38 | Of two accepted calls of one producer the one that began first is first in claim order, and conversely. |
| `MpscTheorems.AcceptedOnce` | include/xmsigma/logging/rt_logger_mpsc.hpp:57-84 | No call is accepted at two positions. |
| `MpscTheorems.RealTimeOrder` | include/xmsigma/logging/rt_logger_mpsc.hpp:35-38 | What is claimed at some moment precedes, in the sink order, every call that begins after that moment, across any schedule. |
| `MpscTheorems.DropIffFull` | include/xmsigma/logging/rt_logger_mpsc.hpp:64-74 | A call takes the drop branch if and only if, at that load of the sequence number, its position equals `enqueue_pos_` and exactly `cap` claimed cells are unfreed, however old the position is. |
| `MpscTheorems.Conservation` | include/xmsigma/logging/rt_logger_mpsc.hpp:57-84 | In every reachable state the calls past the filter are logged, claimed and not yet logged, counted as dropped, or undecided; `dropped_` is the drop count modulo `2^64`. |
| `MpscTheorems.FilteredCallsInvisible` | include/xmsigma/logging/rt_logger_mpsc.hpp:58-59 | Calls below the level touch nothing: leaving all of them out of any schedule leads to the same state, except for their count. |
| `MpscTheorems.EveryCallAccounted` | include/xmsigma/logging/rt_logger_mpsc.hpp:57-84 | In every run the calls begun are exactly those filtered, logged, claimed and not yet logged, counted as dropped, or undecided. |
| `MpscTheorems.LevelInForce` | include/xmsigma/logging/rt_logger_mpsc.hpp:86-90 | In every run the level in force is the one set last, and the initial one before any is set. |
| `MpscTheorems.RunsUntilStopped` | include/xmsigma/logging/rt_logger_mpsc.hpp:118 | In every run from construction the running flag is set exactly until the logger is first stopped. |
| `MpscTheorems.RetryAdvances` | include/xmsigma/logging/rt_logger_mpsc.hpp:62-78 | Each round of the claim loop strictly raises the local position unless the weak exchange failed spuriously. |
| `MpscTheorems.RetriesBounded` | include/xmsigma/logging/rt_logger_mpsc.hpp:40-42 | A call's retries never exceed the successful claims of other producers since it began plus its spurious failures. The header promises a bound in the number of producers, which is false; `MpscLimits.RetryBoundIff` says exactly which bounds hold. |
| `MpscTheorems.AcceptedRetriesBounded` | include/xmsigma/logging/rt_logger_mpsc.hpp:62-78 | The same for an accepted call, counting only claims before its own. |
| `MpscRefinement.ClaimRefines` | include/xmsigma/logging/rt_logger_mpsc.hpp:69-71 | The exchange appends exactly the caller's record to the queue, which is not full then, if the position is current and it does not fail spuriously; otherwise it changes nothing there. |
| `MpscRefinement.LoadSeqRefines` | include/xmsigma/logging/rt_logger_mpsc.hpp:64-74 | A load of the sequence number that leads to the drop branch is a rejection by a full queue; any other changes nothing there. |
| `MpscRefinement.DrainRefines` | src/rt_logger_mpsc.cpp:68-87 | The call of the sink delivers exactly the next accepted record, the freeing store releases exactly one place, and no other access of the drain thread changes the queue. |
| `MpscRefinement.StepRefines` | include/xmsigma/logging/rt_logger_mpsc.hpp:57-84 | Every access of every thread is a step of the bounded drop-on-full queue or invisible to it. |
| `MpscRefinement.RunRefines` | src/rt_logger_mpsc.cpp:68-87 | Every run of the ring, seen as a queue, is a run of that queue. |
| `MpscShutdown.IdlePublished` | include/xmsigma/logging/rt_logger_mpsc.hpp:96-98 | With no producer inside `Log`, every position in `[dequeue_pos_, enqueue_pos_)` is published. |
| `MpscShutdown.DrainDelivers` | src/rt_logger_mpsc.cpp:68-87 | Records published in sequence are in the sink, in claim order, after eight steps of the drain thread for each and one more, in every schedule that does not stop the logger, whatever the producers do meanwhile. |
| `MpscShutdown.DrainsUntilStopped` | src/rt_logger_mpsc.cpp:68-87 | In every run from construction the drain thread leaves its loop only if the logger has been stopped. |
| `MpscShutdown.DeliversFromConstruction` | src/rt_logger_mpsc.cpp:31-87 | From construction on, as long as the logger is not stopped, what is published in sequence at any moment is in the sink after eight drain steps per record and one more, whatever happens before and meanwhile. |
| `MpscShutdown.QuiescentDrain` | src/rt_logger_mpsc.cpp:68-87 | From every reachable state with no producer inside `Log`, in every schedule without a new call or a stop, eight steps of the drain thread per record and one more deliver every claimed record and leave the seeded cells rotated to the current position. |
| `MpscShutdown.ExitDrainsIff` | src/rt_logger_mpsc.cpp:63-87 | In every schedule without a new call a stopped drain thread leaves; it leaves with every accepted record delivered if and only if it was not already past its last look at the ring, with records in it, when the flag was cleared. |
| `MpscShutdown.FlushDelivers` | src/rt_logger_mpsc.cpp:89-97 | When `Flush` has returned, everything claimed before it was called is in the sink, in whichever order its two loads are made and whatever producers did meanwhile. |
| `MpscShutdown.FlushReturns` | src/rt_logger_mpsc.cpp:89-97 | A `Flush` under way returns: with no producer inside `Log` and the logger running, after the drain steps that remain, three more loads of its loop end it, in either order and whatever else happens in between. |
| `MpscShutdown.FlushCallReturns` | src/rt_logger_mpsc.cpp:89-97 | The same from the call itself, for the first time or again; and what it has waited for is all that was claimed when it was called. |
| `MpscShutdown.FlushThenDestroy` | src/rt_logger_mpsc.cpp:63-97 | If producers stop, `Flush` returns, for the first time or again, and the flag is cleared at any later moment, the sink is exactly the accepted records, and logged plus dropped equals produced. |
| `MpscShutdown.Accounting` | include/xmsigma/logging/rt_logger_mpsc.hpp:57-84 | With producers idle and everything delivered, logged plus dropped equals the calls past the filter. |
| `MpscShutdown.ShutdownLosesNothing` | src/rt_logger_mpsc.cpp:63-97 | An orderly shutdown from start to end: producers stopped, `Flush` called and given the steps it needs, flag cleared, three more drain steps. The drain thread has left, the sink is exactly the accepted records, and logged plus dropped equals produced. |
| `MpscLimits.CapacityOneRace` | src/rt_logger_mpsc.cpp:33-36 | A concrete run at capacity 1, which the constructor allows, in which a producer owns the cell that the drain thread is reading. |
| `MpscLimits.CapacityOneTorn` | include/xmsigma/logging/rt_logger_mpsc.hpp:83 | That run goes on to log the second record in the place of the first. |
| `MpscLimits.SafeIffTwoCells` | src/rt_logger_mpsc.cpp:33-36 | Exclusive access and claim-order delivery hold in every run of a ring of `cap` cells if and only if `cap >= 2`. |
| `MpscLimits.UnflushedLoss` | src/rt_logger_mpsc.cpp:75-82 | For every capacity and record there is a run without a flush after which, whatever happens next, the drain thread exits with that record unread. |
| `MpscLimits.RetriesExceedProducers` | include/xmsigma/logging/rt_logger_mpsc.hpp:40-42 | In every ring of at least two cells, for every `n` up to the limit on positions, there is a run with two producers in which one call has retried `n` times, none of them spuriously: no bound in the number of producers holds. |
| `MpscLimits.RetryBoundIff` | include/xmsigma/logging/rt_logger_mpsc.hpp:62-78 | A number bounds the retries of all calls that meet at most `others` competing claims and at most `spurious` spurious failures if and only if it is at least `others + spurious`. |
| `MpscLogger.MpscRtLogger.constructor` | src/rt_logger_mpsc.cpp:31-61 | The logger runs at the given level with empty sink and indices at 0, cell `i` carries sequence `i`, the drain thread is at the top of its loop, and the capacity is the least sufficient power of two, which is at least 2 exactly if the request is. |
| `MpscLogger.MpscRtLogger.Interfere` | include/xmsigma/logging/rt_logger_mpsc.hpp:55-57 | Between two accesses the other threads may take any steps; the thread keeps its own place, claims are only added, published stays published, and the running flag is only ever cleared. |
| `MpscLogger.OthersLeave` | include/xmsigma/logging/rt_logger_mpsc.hpp:55-57 | No schedule of the other threads disturbs what a producer, or the drain thread, relies on: the justification of `Interfere`. |
| `MpscLogger.MpscRtLogger.SetLevel` | include/xmsigma/logging/rt_logger_mpsc.hpp:87-89 | The level becomes the given one and nothing else changes. |
| `MpscLogger.MpscRtLogger.ClearRunning` | src/rt_logger_mpsc.cpp:63-64 | The running flag is cleared and nothing else changes. |
| `MpscLogger.MpscRtLogger.Enter` | include/xmsigma/logging/rt_logger_mpsc.hpp:59 | The filter lets exactly the calls at or above the level pass; a call that passes starts at the current enqueue position with its own record. |
| `MpscLogger.MpscRtLogger.LoadEnqueuePos` | include/xmsigma/logging/rt_logger_mpsc.hpp:61 | Reads the current number of claims; after a lost race that is strictly past the old position. |
| `MpscLogger.MpscRtLogger.LoadSequence` | include/xmsigma/logging/rt_logger_mpsc.hpp:63-66 | The sign of the difference of the words decides among claim, drop and reload as the transition system does. |
| `MpscLogger.MpscRtLogger.ExchangeNow` | include/xmsigma/logging/rt_logger_mpsc.hpp:69-71 | Success appends the caller's own claim at `pos`; failure reloads the position, which is larger unless the failure was spurious. |
| `MpscLogger.MpscRtLogger.DropNow` | include/xmsigma/logging/rt_logger_mpsc.hpp:73 | Exactly one more drop is counted and the call is over. |
| `MpscLogger.MpscRtLogger.ClaimLoop` | include/xmsigma/logging/rt_logger_mpsc.hpp:61-78 | Ends with a position of the call's own, claimed after everything claimed when it began, or with a counted drop and no claim; its rounds are bounded by the others' claims plus the spurious failures. |
| `MpscLogger.MpscRtLogger.StoreSequence` | include/xmsigma/logging/rt_logger_mpsc.hpp:83 | The publishing store ends the call and leaves its position published. |
| `MpscLogger.MpscRtLogger.Fill` | include/xmsigma/logging/rt_logger_mpsc.hpp:79-83 | The payload stores and the publish, with the other threads acting in between, complete the call without another claim by it. |
| `MpscLogger.MpscRtLogger.Log` | include/xmsigma/logging/rt_logger_mpsc.hpp:57-84 | Filtered exactly below the level; otherwise it publishes exactly its own record, whose text is the output cut off after 256 bytes or the diagnostic, at one position past all earlier claims, or counts a drop and claims nothing. |
| `MpscLogger.MpscRtLogger.LookNow` | src/rt_logger_mpsc.cpp:71-75 | Ready exactly if the position is published. |
| `MpscLogger.MpscRtLogger.SinkLog` | src/rt_logger_mpsc.cpp:76-78 | Appends exactly one record to the sink, assembled from the cell. |
| `MpscLogger.MpscRtLogger.StoreFree` | src/rt_logger_mpsc.cpp:80 | Hands the cell back; nothing is logged and what was published stays so. |
| `MpscLogger.MpscRtLogger.DrainRecord` | src/rt_logger_mpsc.cpp:75-80 | One record from its cell to the sink, and the cell handed back, while others act. |
| `MpscLogger.MpscRtLogger.DrainLoop` | src/rt_logger_mpsc.cpp:68-87 | Leaves only after the flag was cleared, with the sink extended in claim order by at least everything that was published in sequence when it began. |
| `SpscInvariant.StepInv` | include/xmsigma/logging/rt_logger.hpp:103-118 | Every access preserves the single-producer invariant, for every power-of-two capacity including 1 and across index wrap-around. |
| `SpscInvariant.Occupancy` | include/xmsigma/logging/rt_logger.hpp:107-108 | The occupancy either side computes from two wrapped words is exact. |
| `SpscTheorems.OccupancyBounded` | include/xmsigma/logging/rt_logger.hpp:106-117 | In every reachable state the difference of the words is the number of held records and is at most the capacity. |
| `SpscTheorems.ExclusiveAccess` | include/xmsigma/logging/rt_logger.hpp:112-116 | The producer never writes the slot that the drain thread is reading, even at capacity 1. |
| `SpscTheorems.SinkIsPrefix` | src/rt_logger.cpp:66-81 | In every reachable state the sink is a prefix of the published records. |
| `SpscTheorems.DropIffFull` | include/xmsigma/logging/rt_logger.hpp:107-111 | The drop branch is taken if and only if `cap` records are held at the load of the tail, however old the load of the head is. |
| `SpscTheorems.Conservation` | include/xmsigma/logging/rt_logger.hpp:103-118 | Calls past the filter are published, counted as dropped or under way; published ones are logged or in the ring. |
| `SpscTheorems.ProducerRefines` | include/xmsigma/logging/rt_logger.hpp:106-117 | The publish appends exactly the caller's record to a queue that is not full, the drop branch is a rejection by a full one, and no other access of the producer changes the queue. |
| `SpscTheorems.DrainRefines` | src/rt_logger.cpp:66-81 | The call of the sink delivers exactly the next published record, the store of the tail releases exactly one place, and nothing else changes the queue. |
| `SpscTheorems.StepRefines` | include/xmsigma/logging/rt_logger.hpp:103-118 | Every access is a step of the bounded drop-on-full queue or invisible to it. |
| `SpscTheorems.RunRefines` | src/rt_logger.cpp:66-81 | Every run of the ring, seen as a queue, is a run of that queue. |
| `SpscTheorems.DrainDelivers` | src/rt_logger.cpp:66-81 | From every reachable state of a running logger, seven drain steps per record in the ring and one more deliver them all, in every schedule that does not stop the logger, whatever the producer does meanwhile. |
| `SpscTheorems.DeliversFromConstruction` | src/rt_logger.cpp:31-81 | From construction on, as long as the logger is not stopped, what is published at any moment is in the sink after seven drain steps per record in the ring and one more. |
| `SpscTheorems.RunsUntilStopped` | include/xmsigma/logging/rt_logger.hpp:155 | In every run from construction the running flag is set exactly until the logger is first stopped. |
| `SpscTheorems.LevelInForce` | include/xmsigma/logging/rt_logger.hpp:120-125 | In every run the level in force is the one set last, and the initial one before any is set. |
| `SpscTheorems.ExitDrainsIff` | src/rt_logger.cpp:61-81 | In every schedule without a new call a stopped drain thread leaves; everything is delivered if and only if it was not already past its last look at a then empty ring when the flag was cleared. |
| `SpscTheorems.FlushDelivers` | src/rt_logger.cpp:83-90 | When `Flush` has returned, everything published before it was called is in the sink, in either order of its loads. |
| `SpscTheorems.FlushReturns` | src/rt_logger.cpp:83-90 | A `Flush` under way returns: with the producer idle and the logger running, after the drain steps that remain, three more loads of its loop end it, in either order and whatever else happens in between. |
| `SpscTheorems.FlushCallReturns` | src/rt_logger.cpp:83-90 | The same from the call itself, for the first time or again; and what it has waited for is all that was published when it was called. |
| `SpscTheorems.ShutdownLosesNothing` | src/rt_logger.cpp:61-90 | An orderly shutdown from start to end: producer stopped, `Flush` called and given the steps it needs, flag cleared, three more drain steps. The drain thread has left, the sink is exactly the published records, and logged plus dropped equals produced. |
| `SpscTheorems.FlushThenDestroy` | src/rt_logger.cpp:61-90 | If the producer stops, `Flush` returns, for the first time or again, and the flag is cleared later, the sink is exactly the published records. |
| `SpscTheorems.UnflushedLoss` | src/rt_logger.cpp:68-71 | For every capacity and record there is a run without a flush after which, whatever happens next, the drain thread exits with that record unread; the source's comment there says "stopped + drained". |
| `SpscLogger.RtLogger.constructor` | src/rt_logger.cpp:31-59 | The logger runs at the given level with empty sink and indices at 0, the drain thread is at the top of its loop, and the capacity is the least sufficient power of two. |
| `SpscLogger.RtLogger.Interfere` | include/xmsigma/logging/rt_logger.hpp:101-103 | Between two accesses the other threads may take any steps; the thread keeps its own place and the history only grows. |
| `SpscLogger.OthersLeave` | include/xmsigma/logging/rt_logger.hpp:101-103 | No schedule of the other threads disturbs what the producer, or the drain thread, relies on. |
| `SpscLogger.RtLogger.SeeRoom` | include/xmsigma/logging/rt_logger.hpp:107-108 | Room is denied exactly if the ring holds `cap` records at the load of the tail. |
| `SpscLogger.RtLogger.Log` | include/xmsigma/logging/rt_logger.hpp:103-118 | Filtered exactly below the level; otherwise it publishes exactly its own record, whose text is the output cut off after 256 bytes or the diagnostic, or counts exactly one drop, and it drops only if the ring was full when it began. It has no loop: wait-free. |
| `SpscLogger.RtLogger.Fill` | include/xmsigma/logging/rt_logger.hpp:112-117 | The payload stores and the publish append exactly this record. |
| `SpscLogger.RtLogger.SetLevel` | include/xmsigma/logging/rt_logger.hpp:122-124 | The level becomes the given one and nothing else changes. |
| `SpscLogger.RtLogger.ClearRunning` | src/rt_logger.cpp:61-62 | The running flag is cleared and nothing else changes. |
| `SpscLogger.RtLogger.SeeRecord` | src/rt_logger.cpp:68-70 | Ready exactly if some published record has not been logged. |
| `SpscLogger.RtLogger.SinkLog` | src/rt_logger.cpp:75-77 | Appends exactly one record to the sink, assembled from the slot. |
| `SpscLogger.RtLogger.DrainRecord` | src/rt_logger.cpp:75-78 | One record from its slot to the sink, and the slot handed back, while the producer acts. |
| `SpscLogger.RtLogger.DrainLoop` | src/rt_logger.cpp:66-81 | Leaves only after the flag was cleared, having logged a prefix of the published records that includes all those published when it began. |
| `RingSpec.PutAllIs` | include/xmsigma/container/ring_buffer.hpp:105-116 | Single writes one after another leave the last `N - 1` of the contents followed by everything written (overwriting), or by what still fits (not overwriting). |
| `RingSpec.TakeAllIs` | include/xmsigma/container/ring_buffer.hpp:82-91 | Single reads one after another split the contents at the number asked for, clamped. |
| `RingSpec.EveryRunConserves` | include/xmsigma/container/ring_buffer.hpp:82-143 | In every run of single reads and writes: accepted writes = read + overwritten + occupied; the values read are an in-order selection of the accepted writes, all older than the contents; the contents are the latest writes; without overwriting, read followed by contents is exactly what was written. `LifeConserves` states it of the objects. |
| `RingSpec.BurstIsWrites` | include/xmsigma/container/ring_buffer.hpp:105-116 | A burst write stopped at the first rejection leaves the same contents and the same accepted writes as all its single writes. |
| `RingSpec.BurstIsReads` | include/xmsigma/container/ring_buffer.hpp:82-91 | A burst read gives the same values and contents as its single reads. |
| `RingBuffers.StoreAppends` | include/xmsigma/container/ring_buffer.hpp:141 | Storing at the masked write index appends to the contents and disturbs no other element. |
| `RingBuffers.DropOldest` | include/xmsigma/container/ring_buffer.hpp:139 | Advancing the read index drops exactly the oldest element. |
| `RingBuffers.FullTest` | include/xmsigma/container/ring_buffer.hpp:61-64 | The comparison of the two masked words holds exactly if `N - 1` elements are held, for every index state including wrap-around. |
| `RingBuffers.DistanceTest` | include/xmsigma/container/ring_buffer.hpp:56-74 | The masked difference of the words is the number of elements, and the words are equal exactly if there is none. |
| `RingBuffers.IndexAfter` | include/xmsigma/container/ring_buffer.hpp:101 | The masked word sum addresses the slot of the element at that distance, also across `2^64`. |
| `RingBuffers.RingBuffer.constructor` | include/xmsigma/container/ring_buffer.hpp:39-47 | An empty buffer of the given power-of-two capacity. |
| `RingBuffers.RingBuffer.Reset` | include/xmsigma/container/ring_buffer.hpp:49-53 | The contents become empty. |
| `RingBuffers.RingBuffer.IsEmpty` | include/xmsigma/container/ring_buffer.hpp:56-59 | True exactly if there are no contents. |
| `RingBuffers.RingBuffer.IsFull` | include/xmsigma/container/ring_buffer.hpp:61-64 | True exactly if the contents number `N - 1`. |
| `RingBuffers.RingBuffer.GetFreeSize` | include/xmsigma/container/ring_buffer.hpp:66-69 | `N - 1` less the number of elements. |
| `RingBuffers.RingBuffer.GetOccupiedSize` | include/xmsigma/container/ring_buffer.hpp:71-74 | The number of elements. |
| `RingBuffers.RingBuffer.GetBuffer` | include/xmsigma/container/ring_buffer.hpp:76-79 | All `N` places; the contents lie in the copy from the masked read index on, in order, going round at the end. |
| `RingBuffers.RingBuffer.LifeConserves` | include/xmsigma/container/ring_buffer.hpp:82-143 | Over the life of a buffer since its last reset: accepted writes = read + overwritten + occupied; the values read are an in-order selection of the accepted writes; the contents are the latest of them; without overwriting, read followed by contents is exactly what was written. |
| `RingBuffers.RingBuffer.Write` | include/xmsigma/container/ring_buffer.hpp:135-143 | The new element is appended, the oldest being dropped if `N - 1` were held; or, full and not overwriting, nothing changes and 0 is returned. The history grows by exactly this write. |
| `RingBuffers.RingBuffer.Read` | include/xmsigma/container/ring_buffer.hpp:119-124 | Takes the oldest element, or reports 0 and changes nothing; the history grows by exactly this read. |
| `RingBuffers.RingBuffer.PeekAt` | include/xmsigma/container/ring_buffer.hpp:126-133 | The `n`-th oldest element if there is one, for every word `n`; nothing changes. |
| `RingBuffers.RingBuffer.ReadBurst` | include/xmsigma/container/ring_buffer.hpp:82-91 | Moves the longest prefix of the contents that was asked for and fits; the rest of the destination is untouched; the history grows by as many single reads. |
| `RingBuffers.RingBuffer.Peek` | include/xmsigma/container/ring_buffer.hpp:96-103 | Copies that prefix and leaves the contents. |
| `RingBuffers.RingBuffer.WriteBurst` | include/xmsigma/container/ring_buffer.hpp:105-116 | The clamped fold of single writes, in contents, in count and in the history: everything is stored when overwriting, else what fits, and the last `N - 1` elements remain. |
| `Gf2.ProductOfPower` | include/xmsigma/serialization/checksum.hpp:10-12 | Multiplying by a power of x shifts: with the next row this determines the product in terms of which a remainder is defined. |
| `Gf2.ProductOfSum` | include/xmsigma/serialization/checksum.hpp:10-12 | Multiplying a sum of polynomials adds the products. |
| `Gf2.Division` | include/xmsigma/serialization/checksum.hpp:37-46 | What the register holds while it takes a message is the running remainder, and the bits it feeds back are the quotient. |
| `Gf2.DivisionUnique` | include/xmsigma/serialization/checksum.hpp:37-46 | Quotient and remainder by a polynomial over GF(2) are unique. |
| `Gf2.CrcIsRemainder` | include/xmsigma/serialization/checksum.hpp:37-46 | For every message and divisor, the register ends with the remainder of the message times `x^n`, and nothing else is that remainder. |
| `Gf2.RunLinear` | include/xmsigma/serialization/checksum.hpp:25-46 | The register is linear in its contents and its input together. |
| `Gf2.RunAddsFirst` | include/xmsigma/serialization/checksum.hpp:40-43 | Adding a byte to the register and then stepping without input equals feeding the byte bit by bit: why the nested loops divide. |
| `Gf2.RunZerosInjective` | include/xmsigma/serialization/checksum.hpp:41-43 | Steps without input never merge two register contents. |
| `Gf2.BurstDetected` | include/xmsigma/serialization/checksum.hpp:25-46 | Messages of one length that differ only within as many consecutive bits as the register has share a remainder only if equal. |
| `Gf2.EndsAtZeroIff` | include/xmsigma/serialization/checksum.hpp:25-46 | The register ends at zero exactly if its last input repeats what it held. |
| `Gf2.OddOfOne` | include/xmsigma/serialization/checksum.hpp:25-46 | The parity of a single bit is the bit, and of none even; with the next row this determines the parity of a message. |
| `Gf2.OddAppend` | include/xmsigma/serialization/checksum.hpp:25-46 | The parity of two messages in sequence is the sum of their parities. |
| `Gf2.RunKeepsParity` | include/xmsigma/serialization/checksum.hpp:25-46 | With a divisor of an even number of terms the register keeps the parity of all it was fed. |
| `Checksum.MsbBitsAt` | include/xmsigma/serialization/checksum.hpp:25-46 | The message as a bit string holds bit `7 - j` of byte `i`, and for `crc8_maxim` bit `j`, at position `8 i + j`. |
| `WordBits.ByteBits` | include/xmsigma/serialization/checksum.hpp:29-43 | The bits of a byte are what its masks select. |
| `Checksum.Crc16Xmodem` | include/xmsigma/serialization/checksum.hpp:37-46 | The loops compute, for every length, the remainder of the message times `x^16` by `x^16 + x^12 + x^5 + 1`. |
| `Checksum.Crc8Maxim` | include/xmsigma/serialization/checksum.hpp:25-34 | The loops compute, bits taken least significant first, the remainder by `x^8 + x^5 + x^4 + 1`. |
| `Checksum.XmodemIsRemainder` | include/xmsigma/serialization/checksum.hpp:37-46 | A bit string is that remainder if and only if it is `crc16_xmodem` of the message. |
| `Checksum.MaximIsRemainder` | include/xmsigma/serialization/checksum.hpp:25-34 | The same for `crc8_maxim`. |
| `Checksum.XmodemDetectsBursts` | include/xmsigma/serialization/checksum.hpp:37-46 | Two messages of one length that differ only within 16 consecutive bits share a CRC if and only if they are equal. |
| `Checksum.MaximDetectsBursts` | include/xmsigma/serialization/checksum.hpp:25-34 | The same within 8 consecutive bits, least significant first. |
| `Checksum.LongBurstMissedByXmodem` | include/xmsigma/serialization/checksum.hpp:37-46 | 16 is the best possible: a difference within 17 consecutive bits that goes unnoticed. |
| `Checksum.LongBurstMissedByMaxim` | include/xmsigma/serialization/checksum.hpp:25-34 | 8 is the best possible: a difference within 9 consecutive bits that goes unnoticed. |
| `Checksum.XmodemLinear` | include/xmsigma/serialization/checksum.hpp:37-46 | The CRC of a bytewise exclusive or is the exclusive or of the CRCs. |
| `Checksum.MaximLinear` | include/xmsigma/serialization/checksum.hpp:25-34 | The same for `crc8_maxim`. |
| `Checksum.ParityKept` | include/xmsigma/serialization/checksum.hpp:25-46 | Either CRC has an odd number of set bits exactly if the message has. |
| `Checksum.OddErrorsDetected` | include/xmsigma/serialization/checksum.hpp:25-46 | Flipping any odd number of bits changes both CRCs. |
| `Checksum.XmodemFrame` | include/xmsigma/serialization/checksum.hpp:37-46 | A frame of data and two bytes has CRC zero if and only if the bytes are the big-endian store of the data's CRC. |
| `Checksum.MaximFrame` | include/xmsigma/serialization/checksum.hpp:25-34 | A frame of data and one byte has CRC zero if and only if the byte is the data's CRC. |
| `Checksum.MaximIsReflected` | include/xmsigma/serialization/checksum.hpp:25-34 | `crc8_maxim` is the bit reversal of the most-significant-bit-first CRC-8 with polynomial 0x31 over the bit-reversed bytes. |
| `Checksum.XmodemCheckValue` | include/xmsigma/serialization/checksum.hpp:36 | The check value of "123456789" is 0x31C3. |
| `Checksum.MaximCheckValue` | include/xmsigma/serialization/checksum.hpp:24 | The check value of "123456789" is 0xA1. |
| `Checksum.ChecksumInvertedSum` | include/xmsigma/serialization/checksum.hpp:49-54 | The byte values of the data, added as naturals, and the returned byte are 255 modulo 256; no other byte completes the one-byte sum to 0xFF. |
| `Checksum.SumIsTotal` | include/xmsigma/serialization/checksum.hpp:52 | The one-byte sum of the loop is the sum of the byte values modulo 256. |
| `Checksum.TotalAppend` | include/xmsigma/serialization/checksum.hpp:52 | The sum of the byte values of two messages in sequence is the sum of the two sums. |
| `Checksum.TotalOfOne` | include/xmsigma/serialization/checksum.hpp:52 | The sum of the byte values of a single byte is its value, and of none 0. |
| `WordBits.Bits16Shift` | include/xmsigma/serialization/checksum.hpp:42-43 | The shift and the test of the top bit on a 16-bit word are those of the bit-string register. |
| `WordBits.Lsb8Shift` | include/xmsigma/serialization/checksum.hpp:29-31 | The same for the byte register read from its least significant end. |
| `ByteOrder.StoreBe16` | include/xmsigma/serialization/byte_order.hpp:55-58 | Writes the two bytes that `load_be16` reads back as the value, and nothing else. |
| `ByteOrder.LoadStore` | include/xmsigma/serialization/byte_order.hpp:23-25 | Loading the high and low byte of a word gives the word. |
| `WordBits.BigEndianBits` | include/xmsigma/serialization/byte_order.hpp:23-25 | The first of the two bytes that are loaded holds the high bits of the word, the second the low ones. |
| `ByteOrder.StoreLoad` | include/xmsigma/serialization/byte_order.hpp:23-25 | The two bytes are determined by the word they load as. |

## Left out

- MpscTheorems.CellEncoding: positions stay below `2^63` (`Bounded`), as do those of every other statement about the multi-producer ring; past that the signed subtraction of the code no longer measures distance.
- MpscLogger.MpscRtLogger.Log: returns only if the others claim and the exchange fails spuriously finitely often during the call, which is what lock-freedom allows; the clock reading is an argument rather than taken between claim and stores.
- MpscLogger.MpscRtLogger.OthersAct: its body does nothing; callers use only its contract, which allows any steps of the other threads, and `OthersLeave` proves about all such steps what callers rely on. `SpscLogger.RtLogger.OthersAct` is the same.
- MpscLogger.MpscRtLogger.Sleep: an empty round of the drain loop either pauses or meets the cleared flag; the pause itself takes no time here.
- `Flush` as a method of the two classes: its polling loop of two loads is part of the transition systems only, where it may run beside any other threads (`FlushDelivers`, `FlushReturns`).
- RingBuffers.RingBuffer.PutOne: the element step that the single and the burst write repeat in the code is written once and called by both; `TakeOne` likewise for the reads.
- Checksum.XmodemDetectsBursts: detection of two separated bit errors up to the order of the polynomials is not stated.
- Weak memory: reorderings that the acquire and release pairs named above do not rule out for the relaxed counters.
- The thread start, join and sleep calls, latency, allocation and placement.
- The sinks, their flushing, patterns, file names, level conversion and the level read from the environment: wrappers over other libraries.
- The logging macros, `DefaultLogger`, `CtrlLogger`, `CsvLogger` and `EventLogger`: string and map plumbing without the rings' difficulty.
- The numeric types and their default values: aliases of another library's.
- The little-endian and 32-bit loads and stores: shifts like the two that the frame check needs.
- `GetLevel` and `dropped()`: each returns one field.
- The mutex of `RingBuffer`: each of its methods holds it from the first statement to the last.
