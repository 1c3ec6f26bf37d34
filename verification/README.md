# Verification model of the phone2 device tree

A Dafny model of the parts of this repository whose behaviour is hard to see by reading one function:
the sensors multi-HAL proxy, the one-shot touch sensors, the comparator that orders the list of
proprietary files, and the feature masks. `dafny verify dfyconfig.toml` checks everything.

## What is modelled

**The sensors proxy.** Sub-HALs post batches of events. A batch is filtered and stamped with the sub-HAL's
index, charged to a reference-counted OS wake lock, and written to a bounded queue shared with the
framework; what does not fit joins a backlog that a second thread writes out chunk by chunk, with the
mutex released while it blocks. The count goes down when scoped wake locks end, when the framework
acknowledges, when a write times out and when the whole lock times out.

- `Handles` is the 32-bit handle arithmetic, `SensorTable` the static sensor list, `Events` the filter,
  `DynamicSensors` the sensors that come and go.
- `WakeLock` has the locked sections of the wake lock as functions on a value, and runs of any such
  sections at any times. `EventQueue` has those of the event queue, with histories of what was posted,
  accepted, settled, written and received. `Drain` is the pending-writes loop on its own.
- `ProxyRuns` puts them together: a run is any sequence of enabled steps of all threads and of the
  framework, one step per critical section. A post is two steps, because its charge to the wake lock and
  its write to the queue are under different mutexes; a pending write is three, because the middle one is
  outside the mutex. `Holders` follows single scoped wake locks through those runs, `Conservation` says
  where every count of the wake lock comes from, and `Witnesses` has runs that show what goes wrong where
  the conditions of these results fail.
- `MultiHal` is the object itself: a class with the source's fields, and one method for each section, each
  proved equal to the function that the runs are made of.

**The one-shot sensors.** `OneShotRuns` has the run thread's polling loop as a program counter, against
activation and mode changes and the pipe that interrupts the poll; `OneShotSensors` is the class. The
fingerprint and single-tap sensors differ only in what they read from the device.

**The library list.** `LibraryOrder` is the comparator, `SectionSort` the sorted sections,
`Lexicographic` the order of keys they rest on.

**The feature masks.** `Features` has the bit loops over a class with the set of features.

**Operation modes.** `OperationModes` has the proxy's switch of every sub-HAL's mode, with its undo.

`Sequences` holds order-preserving subsequences, defined greedily and shown to be what the word says by
`Sequences.SubsequenceIffEmbedded`; `Wrappers` has the option type and the smaller and larger of two numbers.
Methods without a row of their own, such as `ResetSharedWakelock`, `BeginPendingWrite` and `InterruptPoll`,
are only the links between the objects and the functions that the runs are made of.

### What the model takes as given

`HalProxy.h` and the scoped wake-lock class are not part of this repository. The top byte of a handle is
its sub-HAL index, as the handle helpers imply; a lookup of an unknown sensor sees zero flags; a locked
scoped wake lock increments by one when created and gives one back, with its creation time, when it ends;
the maximum backlog and the timeout are parameters; the framework keeps, for each dynamic sensor's handle,
what it was last told of it. Queue writes are all-or-nothing, and whether one succeeds, what the device
file reads, and the clock are inputs of the steps. Flag words are the sets of their one bits, with the bit
positions of the sensors HAL 1.0 types. Runs allow more interleavings than the code does: an
acknowledgement may be taken at any time, and in `WakeLock` the running flag may be read differently by
every section.

### Where the obvious claim is false

- A write timeout may take more off the count than the lost chunk had put there, because an entry keeps
  the count of the batch it was cut from. `Conservation.FailureExactIff` says exactly when it does, for the
  count as it is after clamping; `Conservation.QueuedCountIsOwnIff` and `Conservation.RestCountIsOwnIff` say
  when an entry's stored count is stale; and `Witnesses.TimeoutLosesLock` is a run in which the lock is lost
  with an unread wake-up event in the queue.
- The conservation law does not survive every step: an acknowledgement of more than was read, a timeout of
  the whole lock with events outstanding, and a few others break it, and `Conservation.DisciplineExactIff`
  says exactly which. A new initialisation starts it afresh: `Conservation.RestartIsBalanced`.
- Wake-up events dropped by an overflowing backlog keep their count for good:
  `Conservation.DroppedWakeupsKeepLock`, `Witnesses.DroppedWakeupHoldsLock`.
- A reset while the threads are stopped does not clear the count, and the next initialisation resets only
  then: `WakeLock.ResetWhileStoppedKeepsCount`. What survives is there until the lock times out:
  `Conservation.ConservationSinceRestart`, `Witnesses.SurvivorHoldsLock`.
- An increment by zero on a count of zero acquires the lock and leaves nobody to release it:
  `ProxyRuns.LockExactIff` has the exact condition over runs, `ProxyRuns.LeakedLockStays` says that it lasts,
  and `Witnesses.ZeroChargeLeaksLock` is a run. Charges of zero are ordinary: a wake-up pick-up sensor's
  event is posted under its lock and then filtered out unless its scalar is one
  (`Events.ProcessedEmptyIff`, `Witnesses.FilteredPickUpChargesNothing`), to which the callback only objects
  with an assertion. One leaks when the scoped lock's own count has already been given back.
- A scoped wake lock from before a reset is always recognised as stale after a timeout of the whole lock,
  even with a clock that only does not go back, but after an initialisation only if the clock has moved:
  `Holders.LifeOfHolder` has the exact condition, and `Witnesses.SameTickRestartLosesLock` is a run in which
  an old holder takes a new one's count.
- A one-shot sensor may post after it was deactivated: `OneShotRuns.LatePostIff` says exactly from which
  states, and `OneShotRuns.DeactivationCanLoseRace` is a run.
- The framework's view of dynamic sensors may disagree with the table for good when one sub-HAL overlaps its
  own calls: `DynamicSensors.SettledAgreeIff` says exactly in which runs the two agree,
  `DynamicSensors.CrossingIff` which two notices may cross, and `DynamicSensors.OverlappingCallsDiverge` is
  a run that ends in disagreement.
- The comparator is not transitive on every section: `LibraryOrder.OrderIffNoClash` says exactly on which
  it is, and `LibraryOrder.CyclicSection` shows one on which it is not.
- Handles route back only for the first 128 sub-HALs: `Handles.ExtractUndoesSet`.
- The feature loops end only for masks that are not negative: `Features.LoopEndsIffNotNegative`.

## Model

| member | source | states |
|---|---|---|
| Handles.SetOnClear | sensors/HalProxy.cpp:57-59 | stamping a clear handle makes the index its top byte and keeps the other bits, so clearing undoes it |
| Handles.ExtractUndoesSet | sensors/HalProxy.cpp:68-70 | extraction gives the stamped index back if and only if it is below 128 (or in the range sign extension reaches at the very top of 64 bits) |
| Handles.SetIsInjective | sensors/HalProxy.cpp:57-59 | two clear handles stamped alike had equal low bits and equal index bytes, and conversely |
| Handles.SetUndoesClear | sensors/HalProxy.cpp:761-763 | stamping undoes clearing exactly on handles that carry the index |
| Handles.SetIsIdempotent | sensors/HalProxyCallback.cpp:37-39 | stamping the same index twice changes nothing, for any handle, clear or not |
| Handles.SetIsBitwiseOr | sensors/HalProxy.cpp:57-59 | each of the 32 bits of a stamped handle is that of the handle, or, in the top byte, of the index |
| Handles.ClearIsMask | sensors/HalProxy.cpp:761-763 | clearing keeps exactly the low 24 bits |
| Handles.ClearIffNoTopBits | sensors/HalProxy.cpp:765-767 | a handle is clear if and only if none of its top 8 bits is set |
| Handles.ExtractIsSignedShift | sensors/HalProxy.cpp:68-70 | extraction gives the top byte with its sign extended to 64 bits, for every handle |
| SensorTable.DirectChannelIsFirstOffer | sensors/HalProxy.cpp:727-740 | for any lists, a sub-HAL has the direct channel if and only if it is the first with a sensor that has a clear handle and one of the direct flags |
| SensorTable.DirectChannelExclusive | sensors/HalProxy.cpp:484-511 | for any lists, each stored sensor is a reported one, keeps its direct flags exactly if its sub-HAL is the chosen one, and all its other flag bits |
| SensorTable.KeysRouteHome | sensors/HalProxy.cpp:742-767 | with up to 128 sub-HALs every key is valid and routes to the sub-HAL whose report is stored there, with the handle it reported |
| SensorTable.AcceptedReportsStored | sensors/HalProxy.cpp:487-504 | every report with a clear handle has an entry under its key, its own one if no other report shares the key; the key gives back the reported handle, and routes to the reporter if and only if that is among the first 128 |
| SensorTable.TableMatchesReports | sensors/HalProxy.cpp:484-511 | the table holds, under each key, the last accepted report with that key, and nothing else |
| SensorTable.KeysAreStamped | sensors/HalProxy.cpp:487-492 | a key is in the table if and only if some sensor with a clear handle is stamped to it with its sub-HAL's position |
| SensorTable.TableHoldsLastEntries | sensors/HalProxy.cpp:484-511 | under each key is the last such sensor, sub-HAL by sub-HAL and in list order: stamped handle, each flag bit, type and type string given from the reported sensor |
| SensorTable.PickUpStandardized | sensors/HalProxy.cpp:495-500 | wrist-tilt sensors are stored as pick-up sensors, and every other type and type string as reported |
| MultiHal.HalProxy.SetDirectChannelFlags | sensors/HalProxy.cpp:727-740 | the in-place choice and masking agree with the functions the table is built from |
| MultiHal.HalProxy.InitializeSensorList | sensors/HalProxy.cpp:484-511 | the nested loops over the sub-HALs' lists leave exactly the table of all reports |
| MultiHal.HalProxy.CountNumWakeupEvents | sensors/HalProxy.cpp:750-759 | the count is that of the first n events; the default entries that the lookups store change no later lookup, and are exactly the handles looked up |
| Events.ProcessEvents | sensors/HalProxyCallback.cpp:65-84 | the loop returns the filtered batch, and a count that is the number of positions of its output with a wake-up sensor's handle and splits additively at every position |
| Events.ProcessedConcat | sensors/HalProxyCallback.cpp:65-84 | processing distributes over concatenation of batches |
| Events.PassingEventPosition | sensors/HalProxyCallback.cpp:69-82 | an event of a pick-up sensor yields something if and only if its scalar is one, any other always; what comes out is the event with its handle stamped and nothing else changed, directly after the outputs of the events before it |
| Events.ProcessedIsSubsequence | sensors/HalProxyCallback.cpp:65-84 | the output is an order-preserving part of the stamped input |
| Events.ProcessedEmptyIff | sensors/HalProxyCallback.cpp:72-76 | nothing comes out of a batch if and only if it holds only pick-up events with a scalar other than one |
| Events.WakeupsSplit | sensors/HalProxy.cpp:750-759 | wake-up counts split additively at every chunk boundary |
| Events.WakeupsAreCounted | sensors/HalProxy.cpp:750-759 | the count is the number of positions with a wake-up sensor's handle |
| Events.WakeUpIsLowestBit | sensors/HalProxy.cpp:754 | a handle is a wake-up sensor's if and only if the table has it and the lowest bit of its flags is set |
| Events.WakeupsSameLookups | sensors/HalProxy.cpp:754 | tables with equal lookups give equal counts, whatever entries they hold |
| DynamicSensors.AnnouncedInCallOrder | sensors/HalProxy.cpp:396-405 | every clear sensor of a call is announced and no other, with only its handle changed, directly after those before it |
| DynamicSensors.AnnouncedAreCounted | sensors/HalProxy.cpp:396-405 | as many sensors are announced as the call has clear ones |
| DynamicSensors.ConnectionHoldsLast | sensors/HalProxy.cpp:396-405 | after a connection the table has, under each key to which a clear sensor of the call is stamped, the last such sensor with only its handle changed |
| DynamicSensors.ConnectionKeepsOthers | sensors/HalProxy.cpp:396-405 | under every other key it has what it had, if anything |
| DynamicSensors.ConnectMeansAdded | sensors/HalProxy.cpp:394-406 | the table changes exactly as the announcement says, all of it under the sub-HAL's own handles |
| DynamicSensors.DisconnectMeansRemoved | sensors/HalProxy.cpp:414-428 | a disconnection removes exactly the handles it announces, each once and in call order, and announces exactly the stamped handles of the clear requests that were in the table |
| DynamicSensors.FrameworkAgrees | sensors/HalProxy.cpp:391-431 | in every interleaving of overlapping calls of any sub-HALs in which no notice overtakes one that it may not cross, the framework knows exactly the table's sensors, handle and information, whenever no call is in flight |
| DynamicSensors.OrderedRunIsHarmless | sensors/HalProxy.cpp:391-431 | with up to 256 sub-HALs, runs in which each sub-HAL's own notices arrive in order are such runs |
| DynamicSensors.SerialRunIsOrdered | sensors/HalProxy.cpp:391-431 | sub-HALs that make one call at a time have their notices arrive in order |
| DynamicSensors.AgreeIff | sensors/HalProxy.cpp:391-431 | in every interleaving that starts in agreement, the framework's map from handles to sensors is the table if and only if, for every handle, the last notice made and the last one heard about it say the same (what was known before, where there is none) |
| DynamicSensors.SettledAgreeIff | sensors/HalProxy.cpp:391-431 | between two states with no call in flight: if and only if, for every handle, the last notice made about it says what the last one heard says |
| DynamicSensors.NoticesConserved | sensors/HalProxy.cpp:391-431 | in every interleaving, the notices in flight at first and those made are, as multisets, those heard and those in flight at the end |
| DynamicSensors.CrossingIff | sensors/HalProxy.cpp:407-429 | two notices may arrive in either order if and only if, of every handle in both, they say the same: gone, or the same sensor |
| DynamicSensors.OverlappingCallsDiverge | sensors/HalProxy.cpp:407-429 | a run of one sub-HAL's overlapping calls, for any sensor with a clear handle, after which nothing is in flight, the table is empty and the framework has the sensor |
| MultiHal.HalProxy.OnDynamicSensorsConnected | sensors/HalProxy.cpp:391-409 | the locked loop updates the table and collects the announcement, which stand in that relation |
| MultiHal.HalProxy.OnDynamicSensorsDisconnected | sensors/HalProxy.cpp:411-431 | likewise for a disconnection |
| WakeLock.CountImpliesHeld | sensors/HalProxy.cpp:695-725 | after any sequence of sections at any times, a positive count means the OS lock is held |
| WakeLock.HeldIffCounted | sensors/HalProxy.cpp:695-725 | if every increment adds something, the lock is held if and only if the count is positive, and OS calls strictly alternate |
| WakeLock.ExactIff | sensors/HalProxy.cpp:695-725 | in every run of sections that equivalence, with alternating calls, holds at the end if and only if no increment of the run left the count at zero |
| WakeLock.ResetTimeIsLastReset | sensors/HalProxy.cpp:658-662 | in a run with a clock that does not go back, the reset time is that of the last reset |
| WakeLock.HolderFate | sensors/HalProxy.cpp:711-725 | a holder's decrement is ignored if and only if a reset since its increment read a strictly later clock (or the count is zero anyway); otherwise its delta is taken, clamped at zero |
| WakeLock.HolderFateStrictClock | sensors/HalProxy.cpp:711-725 | with a strictly increasing clock, a holder from before the last reset never changes the count and one from after it always does |
| WakeLock.ResetWhileStoppedKeepsCount | sensors/HalProxy.cpp:713 | a reset clears the count while the threads run and keeps it while they are stopped |
| WakeLock.TimeoutStartsAtLastGrow | sensors/HalProxy.cpp:703 | the timeout runs from the latest increment of a run |
| WakeLock.BoundedHold | sensors/HalProxy.cpp:621-662 | from any state and with any increments: if a check comes more than the timeout after every earlier increment and nothing increments later, the run ends with count zero, and the lock is held at the end if and only if the check found it held with count zero |
| WakeLock.TimeLeftInRange | sensors/HalProxy.cpp:646-656 | the lock times out strictly after the timeout since the last increment, and the wait ends then; a check that does not time out changes nothing and leaves a wait between zero and the timeout, zero exactly at the timeout |
| MultiHal.HalProxy.IncrementRefCount | sensors/HalProxy.cpp:695-709 | the method does nothing while stopped, and otherwise the increment, returning its start time |
| MultiHal.HalProxy.DecrementRefCount | sensors/HalProxy.cpp:711-725 | likewise for the decrement, with the default start time resolved to the reset time |
| MultiHal.HalProxy.SharedWakelockDidTimeout | sensors/HalProxy.cpp:646-656 | says whether the timeout has passed, and otherwise what is left, which is in range if the clock has not gone back |
| MultiHal.HalProxy.CheckWakelock | sensors/HalProxy.cpp:622-629 | the wake-lock thread's locked section resets on a timeout and otherwise returns the time to wait |
| EventQueue.PostPlacesEverything | sensors/HalProxy.cpp:671-692 | a post writes a head of its batch, nothing behind a backlog or when the write fails and otherwise all or what fills the queue; the tail, with the whole batch's count, joins the backlog if it fits the bound and is dropped otherwise |
| EventQueue.PostKeepsOrder | sensors/HalProxy.cpp:664-693 | a post keeps the size equal to the sum of entry lengths and within its bound, entries non-empty, and the accepted, settled, written and received events in step |
| EventQueue.EndWriteKeepsOrder | sensors/HalProxy.cpp:603-612 | the end of a pending write keeps all of that, and its subtraction does not underflow |
| EventQueue.EndWriteDropsChunk | sensors/HalProxy.cpp:605-612 | the backlog before is the chunk followed by the backlog after: nothing skipped or repeated |
| EventQueue.DeliverKeepsOrder | sensors/HalProxy.cpp:587-592 | the unlocked write, made while the chunk is still in the backlog, keeps all of that |
| EventQueue.ReceivedInPostedOrder | sensors/HalProxy.cpp:575-693 | what the framework has received and what waits for it is an order-preserving part of what was posted; what was written is one of what was accepted |
| EventQueue.PostLeavesQueueAlone | sensors/HalProxy.cpp:671-682 | no post writes to the queue, or moves the chunk in flight, while the pending-writes thread is between its sections |
| ProxyRuns.QueueValidInEveryRun | sensors/HalProxy.cpp:575-693 | in every run of the proxy, stop and restart included, the queue's accounts and order hold and the framework receives events in posted order |
| ProxyRuns.SizeNeverUnderflows | sensors/HalProxy.cpp:604 | in every run the chunk in flight is no longer than the backlog's size, the queue is within capacity, and the chunk is the front of the first entry |
| ProxyRuns.SectionsCanRun | sensors/HalProxy.cpp:575-693 | in every state that a run can reach, which QueueValidInEveryRun makes valid, each thread can take its next section exactly when what it waits for is there: the guards of a step leave out nothing that the code can do |
| ProxyRuns.SingleWriter | sensors/HalProxy.cpp:587-603 | in every run, between the two locked sections only that thread's own delivery writes to the queue |
| ProxyRuns.StopLetsWriterFinish | sensors/HalProxy.cpp:536-553 | from any state of any run: after a stop, and whatever else happens before a new initialisation, there is room for the chunk of a writer that is still blocked |
| ProxyRuns.HighWaterMark | sensors/HalProxy.cpp:689-690 | in every run the high-water mark is the largest size the backlog has had |
| ProxyRuns.RunIsSections | sensors/HalProxy.cpp:621-725 | every run of the proxy is, for the wake lock, a run of its sections, so the results of WakeLock apply to it |
| ProxyRuns.LockHeldInEveryRun | sensors/HalProxy.cpp:695-725 | in every run, over-acknowledgement, timeouts and restarts included, a positive count means the lock is held |
| ProxyRuns.LockExactIff | sensors/HalProxy.cpp:695-725 | with no assumption about posters: a run ends with the lock held exactly while the count is positive, and alternating OS calls, if and only if it started so and no increment left the count at zero |
| ProxyRuns.LockExactInEveryRun | sensors/HalProxyCallback.cpp:46-56 | if locked batches carry wake-up events, as the callback asserts, the lock is held exactly while the count is positive, and OS calls alternate |
| ProxyRuns.BoundedHoldInEveryRun | sensors/HalProxy.cpp:621-662 | bounded hold for the whole proxy: one late check after any run, charges of zero included, then any run without increments, ends with count zero and the lock released, even for a count that survived a restart |
| ProxyRuns.LeakedLockStays | sensors/HalProxy.cpp:621-725 | a lock held with a count of zero stays held in every run without increments: no acknowledgement, timeout, stop or restart releases it |
| Holders.LifeOfHolder | sensors/HalProxy.cpp:711-725 | a scoped wake lock taken in one step and ended in another leaves the wake lock alone if and only if the threads are stopped, or a timeout of the whole lock came in between, or a reset with a strictly later clock (or the count is zero); otherwise it takes one |
| Holders.TimeoutEndsHolders | sensors/HalProxy.cpp:646-662 | no scoped wake lock alive at a timeout of the whole lock changes the wake lock ever after, for any clock that does not go back |
| Conservation.FailureExactIff | sensors/HalProxy.cpp:594-600 | from a balanced state, a write timeout keeps the balance, and the count falls by exactly the lost chunk's wake-up events, if and only if the chunk is not its entry's last, or the stored count is that of the rest of the entry, or the count is down to the chunk's; it never falls by less |
| Conservation.QueuedCountIsOwnIff | sensors/HalProxy.cpp:684-687 | the remainder that a post queues has its own count if and only if no wake-up event of the batch went into the queue |
| Conservation.RestCountIsOwnIff | sensors/HalProxy.cpp:605-609 | what a chunk leaves of an entry has its own count if and only if the entry had and the chunk held no wake-up event |
| Conservation.DisciplineExactIff | sensors/HalProxy.cpp:594-725 | a step of any kind keeps the balance if and only if it is disciplined, so the conditions of the law are not more than it needs |
| Conservation.RestartIsBalanced | sensors/HalProxy.cpp:214-253 | an initialisation starts a new balance from any state, with what survived of the count as surplus, if and only if scoped wake locks of its own tick do not exceed the count |
| Conservation.RestartClears | sensors/HalProxy.cpp:214-232 | an initialisation leaves an empty queue of the new capacity, no backlog and no acknowledgements, and keeps the count, the high-water mark and the live scoped wake locks |
| Conservation.WakeupConservation | sensors/HalProxy.cpp:632-725 | through every disciplined segment, from any balanced state, the count less live scoped wake locks since the last reset, outstanding and dropped wake-up events stays what it was; no posted wake-up event is lost track of; the lock is held while any is pending, unread or unacknowledged |
| Conservation.ConservationSinceRestart | sensors/HalProxy.cpp:632-725 | after any run at all, a new initialisation and a disciplined run, the count is what it is for plus what survived the initialisation, and every wake-up event posted since is outstanding, dropped, acknowledged or timed out |
| Conservation.DroppedWakeupsKeepLock | sensors/HalProxy.cpp:684-692 | once everything else is settled the count is exactly what overflow dropped and what survived the initialisation, and it keeps the lock held |
| Witnesses.DroppedWakeupHoldsLock | sensors/HalProxy.cpp:684-692 | for any capacity and bound, a disciplined run that posts under a scoped wake lock, settles everything and ends with the lock held for the dropped events alone |
| Witnesses.SurvivorHoldsLock | sensors/HalProxy.cpp:214-215 | a run in which a scoped wake lock outlives an initialisation, and its count outlives it |
| Witnesses.ZeroChargeLeaksLock | sensors/HalProxy.cpp:668-670 | a run from the start in which a charge of zero leaves the lock held with count zero, and that it stays so whatever follows without another increment |
| Witnesses.FilteredPickUpChargesNothing | sensors/HalProxyCallback.cpp:73-76 | the charge of zero in that run is what a locked batch with one filtered pick-up event comes to |
| Witnesses.SameTickRestartLosesLock | sensors/HalProxy.cpp:720 | a run in one tick, with an acknowledgement too many and an initialisation, after which a live scoped wake lock has no count and no OS lock |
| Witnesses.TimeoutLosesLock | sensors/HalProxy.cpp:594-600 | for any capacity and any remainder that fits one chunk and the bound, a disciplined run to a balanced state from which a write timeout leaves a full queue of wake-up events unread with count zero and no lock |
| Drain.EntryChunksPartition | sensors/HalProxy.cpp:583-612 | an entry's chunks concatenate back to it, all full but the last, as many as its length over the capacity, rounded up |
| Drain.CeilDivRoundsUp | sensors/HalProxy.cpp:586 | the number of rounds is the least whose chunks hold the entry |
| Drain.BacklogChunksPartition | sensors/HalProxy.cpp:578-614 | a backlog's chunks are its events, once each and in order, in the sum of those numbers of rounds |
| Drain.RoundTakesFirstChunk | sensors/HalProxy.cpp:582-613 | one round takes exactly the next chunk, whether its write succeeds or not and whatever is read meanwhile |
| Drain.NoCapacityNoProgress | sensors/HalProxy.cpp:585-609 | with a capacity of zero a round changes nothing |
| MultiHal.HalProxy.PostEventsToMessageQueue | sensors/HalProxy.cpp:664-693 | the whole post: the charge, if the caller's wake lock is held, and then the queue's section |
| MultiHal.HalProxy.StoreEvents | sensors/HalProxy.cpp:671-692 | the direct write, the queued or dropped remainder, the size and the high-water mark, all at once |
| MultiHal.HalProxy.PostEvents | sensors/HalProxyCallback.cpp:41-58 | nothing happens for an empty batch or while stopped; otherwise the processed batch is posted with the count of its wake-up events |
| MultiHal.HalProxy.BlockingWrite | sensors/HalProxy.cpp:588-602 | the unlocked part delivers the whole chunk or times out and gives back its wake-up events |
| MultiHal.HalProxy.EndPendingWrite | sensors/HalProxy.cpp:603-612 | the chunk leaves the backlog, whose size cannot underflow |
| MultiHal.HalProxy.HandlePendingWrites | sensors/HalProxy.cpp:575-615 | with no new posts the loop empties any backlog in exactly that many rounds, for every pattern of successes, timeouts and reads |
| MultiHal.HalProxy.StopThreads | sensors/HalProxy.cpp:536-542 | the flag drops and the queue is emptied |
| MultiHal.HalProxy.Initialize | sensors/HalProxy.cpp:221-226 | backlog, histories and dynamic sensors go; the high-water mark and, with the threads stopped, the count stay |
| OperationModes.SubHalModes.SetOperationMode | sensors/HalProxy.cpp:133-154 | all sub-HALs switch or the first refusal undoes those before it; after a refusal they agree if and only if each of those takes its old mode back |
| OneShotRuns.OneShot | sensors/Sensor.cpp:289-334 | in every segment of every interleaving, events posted and the one still owed never exceed activations and the one owed at the start |
| OneShotRuns.OneShotFromStart | sensors/Sensor.cpp:400-445 | from the start, events posted plus one if enabled or polling never exceed the disabled-to-enabled transitions |
| OneShotRuns.HandledPoll | sensors/Sensor.cpp:316-333 | a handled poll posts and disables if and only if the device was ready and reads true; otherwise it reads one byte if and only if the poll reported the pipe; a failed poll stops the thread; then it ends, polls again or sleeps as flag and mode say |
| OneShotRuns.ResumeIff | sensors/Sensor.cpp:309-313 | a sleeping thread wakes if and only if it is stopped, or enabled in normal mode, and then ends or polls |
| OneShotRuns.QuietRoundsDrainPipe | sensors/Sensor.cpp:314-331 | with no calls and a silent device each round of an armed thread reads one byte, so the pipe is empty after as many rounds as it held bytes and the next poll waits |
| OneShotRuns.LatePostIff | sensors/Sensor.cpp:289-334 | a disabled sensor may still post with no activation in between, in some run, if and only if its thread is inside the poll or back from it with the device ready |
| OneShotRuns.DeactivationCanLoseRace | sensors/Sensor.cpp:316-327 | a run from the start in which the event is posted after the sensor was disabled |
| OneShotRuns.NoLostInterrupt | sensors/Sensor.cpp:300-334 | in every run, a poll that should end finds a byte in the pipe or a mode call about to write one, and the read under the lock never blocks |
| OneShotRuns.DisabledThreadParks | sensors/Sensor.cpp:309-331 | in every run, such a thread with no call in flight can return and is asleep or finished two steps later, having read one byte or posted one event |
| OneShotSensors.OneShotSensor.Activate | sensors/Sensor.cpp:289-298 | the flag flips and the poll is interrupted exactly when the flag changes |
| OneShotSensors.OneShotSensor.HandlePoll | sensors/Sensor.cpp:416-445 | the locked part after a poll, up to the next poll or sleep: one event exactly if the device was ready and reads true, otherwise one byte less exactly if the pipe was reported |
| LibraryOrder.CompareAntisymmetric | scripts/reorder-libs.py:18-49 | on all lines, swapping arguments flips the sign, and the result is zero exactly for equal lines and lines that differ by one leading dash |
| LibraryOrder.DashIsIgnored | scripts/reorder-libs.py:23-26 | one leading dash makes no difference on either side, a second one does |
| LibraryOrder.CompareInDirectories | scripts/reorder-libs.py:32-49 | for any two paths, given as directory and file name: by file name in one directory, a sub-directory first, otherwise by the lines |
| LibraryOrder.CompareSlashFree | scripts/reorder-libs.py:18-49 | a line without a slash comes after what lies strictly below the directory it spells, and otherwise goes by the lines; the empty line is first |
| LibraryOrder.StrCollMeans | scripts/reorder-libs.py:16 | collation goes by the first character that differs, a proper prefix first |
| LibraryOrder.CompareIsKeyOrder | scripts/reorder-libs.py:18-49 | in a section without clashes the comparator is the lexicographic order of (directory, end marker above every character, file name), with slash-free lines placed accordingly |
| LibraryOrder.SlashAgainstSlash | scripts/reorder-libs.py:32-49 | on lines with slashes that holds with no condition at all |
| LibraryOrder.ClashIsCycle | scripts/reorder-libs.py:28-49 | a clash makes the comparator go round in a strict circle |
| LibraryOrder.OrderIffNoClash | scripts/reorder-libs.py:18-49 | the comparator is transitive on a section if and only if the section has no clash |
| LibraryOrder.UniformSectionsHaveNoClash | scripts/reorder-libs.py:28-49 | sections of lines that all have a slash, or all have none, are ordered |
| LibraryOrder.CyclicSection | scripts/reorder-libs.py:28-49 | a three-line section on which the comparator is cyclic |
| SectionSort.SortPermutes | scripts/reorder-libs.py:62 | sorting permutes the lines of any section |
| SectionSort.SortSorts | scripts/reorder-libs.py:62 | a section without clashes comes out sorted |
| SectionSort.SortStable | scripts/reorder-libs.py:62 | in a section without clashes, lines that compare equal keep their order |
| SectionSort.StableSortUnique | scripts/reorder-libs.py:62 | on a section without clashes, whatever algorithm sorts stably returns the same list |
| SectionSort.SortIdempotent | scripts/reorder-libs.py:62 | sorting a section without clashes again changes nothing |
| SectionSort.DirectoriesAreBlocks | scripts/reorder-libs.py:38-46 | in the sorted list of a section without clashes each directory's lines are contiguous, with its own files last; only a slash-free line that spells the directory may stand among them |
| SectionSort.SortSections | scripts/reorder-libs.py:59-63 | the loop sorts each section by itself and keeps the sections' places: each is a permutation, and the one stable sorted list where the section has no clash |
| Features.LoopEndsIffNotNegative | nothing-fwk/src/com/nothing/NtFeaturesUtils.java:54-74 | repeated shifting reaches zero if and only if the mask is not negative |
| Features.BitsAreBits | nothing-fwk/src/com/nothing/NtFeaturesUtils.java:57-61 | the positions collected are those whose shifted mask is odd |
| Features.ShiftIsQuotient | nothing-fwk/src/com/nothing/NtFeaturesUtils.java:57-61 | shifting by n divides by the n-th power of two and rounds down, for negative masks too |
| Features.XorBits | nothing-fwk/src/com/nothing/NtFeaturesUtils.java:65-74 | flipping a mask's bits in the set of another's is the exclusive or of the two numbers |
| Features.XorAllCountsFlips | nothing-fwk/src/com/nothing/NtFeaturesUtils.java:35-42 | a feature is on exactly if an odd number of the masks has its bit |
| Features.ToggleOrderIrrelevant | nothing-fwk/src/com/nothing/NtFeaturesUtils.java:36-42 | the diffs may be applied in any order |
| Features.SupportIsParity | nothing-fwk/src/com/nothing/NtFeaturesUtils.java:35-52 | a query for any number, after the whole chain, says yes if and only if it is between 0 and 156 and an odd number of the base, product, device, system configuration and custom masks and, exactly on pro builds, the plus mask has its bit |
| Features.FeatureSet.SetFeatures | nothing-fwk/src/com/nothing/NtFeaturesUtils.java:54-63 | the loop ends and adds exactly the mask's bits |
| Features.FeatureSet.ToggleFeatures | nothing-fwk/src/com/nothing/NtFeaturesUtils.java:65-74 | the loop ends and flips exactly the mask's bits |
| Features.FeatureSet.Initialise | nothing-fwk/src/com/nothing/NtFeaturesUtils.java:22-43 | the chain leaves the exclusive or of the base and all diffs that apply: the numbers of which an odd number of the six masks has the bit, the plus mask counting on pro builds only |
| Features.FeatureSet.IsSupport | nothing-fwk/src/com/nothing/NtFeaturesUtils.java:45-52 | true exactly if every single argument would be answered yes, for any list of arguments |

## Left out

- Features.FeatureSet.SetFeatures and its sibling require a mask that is not negative: for others the source's loop does not end, which Features.LoopEndsIffNotNegative states; the parsing of property strings into masks is not modelled.
- MultiHal.HalProxy.HandlePendingWrites: requires a positive capacity, without which the source's loop makes no progress (Drain.NoCapacityNoProgress).
- MultiHal.HalProxy.Initialize: does not disable the sensors, pass on the result codes of the event flags and sub-HALs, or start the threads and sub-HALs.
- SectionSort.SortSections: promises only a permutation for a section with a clash, on which the script's sort need not agree with insertion sort.
- DynamicSensors.OrderedRunIsHarmless: does not cover more than 256 sub-HALs, whose stamped handles collide; the other results on dynamic sensors do.
- The loops of the two proxy threads and of the one-shot thread are modelled section by section, with their waits as enabling conditions; only the pending-writes loop also appears as a loop. Condition variables, event flags and thread start and join are not modelled.
- In ProxyRuns the running flag is read together with the section it guards; in WakeLock it is free, so the results there also cover a flag that changes between the two.
- The proxy's forwarding of activation, batching, flush and injection to sub-HALs is one branch each. A sub-HAL that refuses a mode is taken to keep its own.
- The order in which an initialisation clears the backlog relative to a post that races with it: the source holds no mutex there.
- Type strings are the two that the proxy tells apart and all others; event payloads are one scalar.
- Pipe capacity, and the destruction of one-shot sensors, whose interrupt is written before the stop flag is set.
- The sorter's reading and writing of the file, and its stripping of white space around lines.
- The base class's sampling loop, the fingerprint service, the audio effect service, packaging scripts, overlays and configuration data.
