# ScyllaDB core algorithms in Dafny

This project models four parts of ScyllaDB and proves what they promise, for every input and every run.

**Reader concurrency semaphore.** Reads hold permits; a semaphore limits their number and memory, lends memory
from a pool that several semaphores share, serializes memory grants above one limit and kills reads above another.
`ReaderPermit.dfy` holds the values and `Semaphore.dfy` every operation as a function from the state before to the
state after. A permit under an operation is pulled out of the permit table (`Load`) and put back at the end
(`Store`). Assertions, internal errors and logged clamps set a `fault` flag, so that "no assertion can fail" is a
statement about runs; the one internal error that runs do reach, the leak report of a permit's destructor, is counted
apart. A semaphore starts without memory, as in a group, and gets its limit by a resize.
`SemaphoreInvariant.dfy`, `SemaphoreSteps.dfy` and `SemaphoreOperations.dfy` prove that every
operation keeps the invariant; `SemaphoreRuns.dfy` defines runs of any number of semaphores over one pool;
`SemaphoreConditions.dfy` says when reads are let in, granted memory or refused, in terms of permits' states and
charges, and `SemaphoreOutcomes.dfy` what each operation leaves behind; `SemaphoreTheorems.dfy`,
`SemaphoreBounds.dfy`, `SemaphoreFairness.dfy`, `SemaphoreLeaks.dfy` and `SemaphoreBroken.dfy` hold the results over
runs. `SemaphoreObjects.dfy` has the classes whose fields are updated in place, each
method proved against the function of the same meaning and each whole operation proved to keep the invariant, and
`SemaphoreGroup.dfy` the group that divides memory between semaphores.

**IDL wire format.** `WireFormat.dfy` defines a type universe (integers, bool, bytes, vectors, optionals, maps, final
and framed classes with versioned members) with writing, measuring, reading and skipping on whole byte strings.
`WireTheorems.dfy` proves one theorem about a writer and a reader of compatible types; the round trip and both
directions of version skew are its corollaries (`WireVersions.dfy`, with the compiler's version check).
`WireLayout.dfy` fixes the bytes themselves, of what is written and of any bytes that are read.
`WireSkips.dfy` decides for which types skipping ends where reading ends.
`WireStreams.dfy` has the serializers as they run, with cursors, loops and the bulk path for integer arrays;
`WireViews.dfy` buffers and lazily read vectors; `WireFrames.dfy` the writers that set sizes afterwards through
placeholders; `Integers.dfy` byte order; `BufferViews.dfy` fragmented views.

**`bytes_ostream`.** `BytesOstream.dfy` is the linked chain of chunks, proved to behave like one byte string;
`StreamScripts.dfy` nests writes, placeholders, appends, truncations and saved positions in any way; `Fragments.dfy`
decides what the chunk-by-chunk comparison returns.

**Range and iteration algorithms.** `RingRanges.dfy` and `VnodeGenerator.dfy` (resumable splitting of query ranges at
ring tokens), `CartesianProduct.dfy` (the odometer), `RangeCompat.dfy` (wrapping and unwrapping interval lists),
`DependencySort.dfy` (the IDL compiler's dependency sort).

Futures, promises and condition variables are replaced by atomic steps; the order of the steps of a run is arbitrary.

## Where the code does less than it promises

- `bytes_ostream::operator==` says "equal" as soon as both streams stand at an empty fragment, and loops for ever on a
  strict prefix. `Fragments.CompareDecides` gives its outcome for all streams, `CompareIsEquality` and `CompareEnds`
  the conditions under which it is right and under which it ends, `EmptyFragmentsHideTheRest` the failing family, and
  `StreamScripts.ClearedStreamsCompareEqual` reaches it with two streams. Of a stream that was never written to it
  dereferences a chunk that is not there (bytes_ostream.hh:435-436), so that `Ostream.BytesOstream.Equals` is only
  about streams that have one.
- The length of a blob is cast to 32 bits before the range check, so that longer blobs are written with a wrong
  length: `WireTheorems.BlobRoundTrip` (if and only if).
- A vector or frame too large for its 32-bit placeholder is written with the low bits of its size, where the measuring
  serializer throws: `WireFrames.OversizeIsTruncated` and `PlacedIsWritten`.
- The emitted reader takes any attribute of a member as "may be absent", the emitted skip none.
  `WireSkips.SkipAgreesExactly` says for which types the two agree on all inputs (if and only if): no unframed class
  has an attributed member that takes bytes and is followed only by members readable from an empty stream. Classes
  that pass the compiler's check and carry no attribute but versions agree: `WireVersions.AcceptedSkipsAsRead`.
- A memory request rejected because the queues are full stays recorded and is charged with the next grant
  (`SemaphoreLeaks.RejectedRequestLeavesArrears` and `GrantChargesArrears`, both if and only if). The units handed out
  cover the request only, so a permit that returns them all still ends with units charged and its destructor reports a
  leak: `ArrearsBecomeALeak` (if and only if) and `ArrearsRun`, a run that does. `LeakReported` and `LeaksOverRuns` say
  exactly when the report is made; the books balance in all these runs too.
- `broken` takes waiting reads off their queue and leaves their state: states and lists agree afterwards if and only if
  nobody was waiting (`SemaphoreBroken.BrokenStrandsWaiters`).
- `compat::wrap` undoes `unwrap` only for some lists: `RangeCompat.WrapUndoesUnwrap` (if and only if). It also joins
  open ends that overlap, which loses points: `WrapCovers` (if and only if), `WrapLosesPoints` and, for the shortest
  list, `OverlapLosesZero`. Disjoint lists lose nothing: `DisjointListsKeepPoints`. Disjoint means that of two
  intervals one ends before the other starts, as `other_is_before` has it; (-inf, 5) and (4, +inf) share no integer
  and are still joined to (4, 5).
- The dependency sort does not end if, and only if, some chain of dependencies leads back to its start:
  `DependencySort.EndsUnlessCyclic`.
- `cartesian_product_is_empty` calls a product of no vectors empty, although its iterator yields one tuple:
  `CartesianProduct.ProductIsEmpty` and `VisitAll`.
- `buffer_view::remove_prefix` does not end if, and only if, it is asked for more than the view holds:
  `BufferViews.RemovePrefixEnds`. The group cannot be adjusted while it has members but no weight, which is a
  precondition here.

## Model

| member | source | states |
|---|---|---|
| `SemaphoreTheorems.MemoryIsConserved` | reader_concurrency_semaphore.cc:1070-1130 | in every state of every run, for any number of semaphores, across resizes and permits that end with units still charged: pool available + all loans = pool total; each semaphore's available + charged = limit + loan; loans never exceed what is charged; no clamp, assertion or internal error was reached other than the leak report of the destructor |
| `SemaphoreLeaks.LeakReported` | reader_concurrency_semaphore.cc:286-292 | an operation makes the destructor report a leak if and only if it ends a permit with units charged beyond its base |
| `SemaphoreLeaks.LeaksOverRuns` | reader_concurrency_semaphore.cc:286-318 | over every run a semaphore's leak reports grow by one at exactly the events that end one of its permits with units still charged |
| `SemaphoreLeaks.NoLeakWithoutLeftovers` | reader_concurrency_semaphore.cc:286-318 | a run in which every permit ends with no more charged than its base reports no leak |
| `SemaphoreLeaks.RejectedRequestLeavesArrears` | reader_concurrency_semaphore.cc:1701-1722 | after a request a permit that does not wait has an amount recorded if and only if the request was rejected (memory short, serialize limit reached, another permit blessed, queues full) and there is something to record; nothing else changes then |
| `SemaphoreLeaks.GrantChargesArrears` | reader_concurrency_semaphore.cc:391-397 | a grant charges what was asked if and only if nothing was recorded before |
| `SemaphoreLeaks.ArrearsBecomeALeak` | reader_concurrency_semaphore.cc:442-447 | a permit that is granted a request, returns what it asked for and ends reports a leak if and only if an earlier request left arrears |
| `SemaphoreLeaks.ArrearsRun` | reader_concurrency_semaphore.cc:286-292 | whatever the two amounts, a run from the empty world in which a reader is rejected, later granted, returns its request, ends and is reported as a leak |
| `SemaphoreTheorems.ListsFollowStates` | reader_concurrency_semaphore.cc:1724-1747 | in every state of every run a live permit is in exactly the list its state calls for, once; `waiters` and `inactive_reads` are the list lengths they stand for |
| `SemaphoreTheorems.CpuCountersAreExact` | reader_concurrency_semaphore.cc:471-513 | under any order of guards, timeouts and queueing: `need_cpu_permits` and `awaits_permits` are the numbers of permits in those states, awaits is never above need_cpu, and an active state is determined by the branch counts |
| `SemaphoreTheorems.GrantsAreSerialized` | reader_concurrency_semaphore.cc:1701-1722 | above the serialize limit (multiplier at least 2) a memory grant goes to the permit that is blessed afterwards and displaces no other blessed permit |
| `SemaphoreTheorems.AdmitIsSerialized` | reader_concurrency_semaphore.cc:1513-1536 | the same for grants made from the memory queue: they need that no permit was blessed |
| `SemaphoreTheorems.RequestIsSerialized` | reader_concurrency_semaphore.cc:1701-1722 | the same for grants made on request |
| `SemaphoreTheorems.RequestIsGranted` | reader_concurrency_semaphore.cc:1701-1722 | short of the kill limit, a request above the serialize limit is granted if and only if no other permit is blessed |
| `SemaphoreTheorems.MarksAreStates` | reader_concurrency_semaphore.cc:184-226 | the counted marks are exactly the permits in the need_cpu and await states |
| `SemaphoreFairness.BlessedNeverWaits` | reader_concurrency_semaphore.cc:1262-1266 | in every state of every run the blessed permit is alive and in neither wait queue |
| `SemaphoreFairness.NoOvertaking` | reader_concurrency_semaphore.cc:1590-1615 | in every run, when a read is admitted every read still queued for admission asked later |
| `SemaphoreFairness.AdmissionFollowsArrival` | reader_concurrency_semaphore.cc:1617-1622 | the same for one step from any state that satisfies the invariant |
| `SemaphoreFairness.LeavingTheQueue` | reader_concurrency_semaphore.cc:228-258 | a read leaves the admission queue only by admission from the front, by being shed or by timing out |
| `SemaphoreFairness.AdmissionHasSlot` | reader_concurrency_semaphore.cc:1513-1556 | a read is admitted, on the spot or from the queue, only while the ready list is empty, fewer permits are in the need_cpu state than there are CPU slots, and its base units are covered or no count unit is in use |
| `SemaphoreFairness.ApplyTouches` | reader_concurrency_semaphore.cc:1569-1615 | an operation changes one permit; requests for admission are numbered in order; only admissions charge base units |
| `SemaphoreConditions.DecisionMeans` | reader_concurrency_semaphore.cc:1513-1556 | `can_admit_read` says yes, to a read waiting for memory, if and only if memory is not overdrawn beyond the kill limit, nor beyond the serialize limit with a permit blessed; to any other read if and only if it is overdrawn beyond neither, the ready list is empty, fewer permits need the CPU without awaiting than there are slots, and its units are covered by what is available and the pool or no count unit is in use; all in terms of the permits' states and charges |
| `SemaphoreConditions.ReasonMeans` | reader_concurrency_semaphore.cc:1513-1567 | its reason is memory or count if and only if one of these limits holds the read up or only its units are missing |
| `SemaphoreConditions.KillsMeans` | reader_concurrency_semaphore.cc:1070-1083 | a charge is refused if and only if memory is used up, the charges beyond loan and pool reach limit x kill multiplier with it, and the charges beyond the loan reach unreduced memory x kill multiplier |
| `SemaphoreOutcomes.ObtainOutcome` | reader_concurrency_semaphore.cc:1569-1615 | a new read is admitted and charged, refused by the kill limit, queued at the end of the admission queue, or rejected, exactly by these conditions; a read the semaphore is to run waits last in the ready list, any other runs; what the admission is short of is borrowed |
| `SemaphoreOutcomes.ObtainAdmits` | reader_concurrency_semaphore.cc:1590-1615 | a new read is admitted on the spot if and only if nobody waits, it may enter by the conditions above and the charge is not refused |
| `SemaphoreOutcomes.ReadmitOutcome` | reader_concurrency_semaphore.cc:1569-1615 | the same for an evicted read that asks again |
| `SemaphoreOutcomes.AdmitMeans` | reader_concurrency_semaphore.cc:1617-1622 | the loop goes on if and only if the front may go on or may enter by the conditions above |
| `SemaphoreOutcomes.AdmitOutcome` | reader_concurrency_semaphore.cc:1617-1672 | what becomes of the front: blessed and granted what it asked for, charged its base units, refused or shed, then running or last in the ready list |
| `SemaphoreOutcomes.RequestOutcome` | reader_concurrency_semaphore.cc:1701-1722 | below the serialize limit, or with memory left, a request is granted with what was recorded before; above it only to the permit that is blessed or becomes so; another permit is recorded and queued last while there is room; a refused charge changes no account |
| `SemaphoreOutcomes.ChargeOutcome` | reader_concurrency_semaphore.cc:1070-1094 | a refused charge changes nothing, any other is charged to the permit and paid from what is available and, for the shortfall, from the pool; below unreduced memory x kill multiplier nothing is refused |
| `SemaphoreOutcomes.RefundOutcome` | reader_concurrency_semaphore.cc:1096-1130 | returned units leave the permit's charge, refill a deficit, then repay the loan, then become available |
| `SemaphoreOutcomes.DropBaseOutcome` | reader_concurrency_semaphore.cc:457-462 | base units are returned that way if they were charged, once |
| `SemaphoreOutcomes.RunOutcome` | reader_concurrency_semaphore.cc:1023-1031 | the first of the ready list is run and leaves the list; its guards decide its state |
| `SemaphoreOutcomes.RunReadyOutcome` | reader_concurrency_semaphore.cc:1826-1843 | a read handed over waits last in the ready list while there is room, and is rejected otherwise |
| `SemaphoreOutcomes.GuardOutcome` | reader_concurrency_semaphore.cc:471-513 | guards are counted and decide between the three active states; they change nothing else |
| `SemaphoreOutcomes.RegisterOutcome` | reader_concurrency_semaphore.cc:1249-1288 | a registered read is parked last in the inactive list with all it holds, or evicted without its base units if and only if units are overdrawn, or nobody else waits for memory, the ready list is empty, a CPU slot is free without this read, and the units of the first read queued for admission are not covered; an aborted one only returns its base units |
| `SemaphoreOutcomes.UnregisterOutcome` | reader_concurrency_semaphore.cc:1298-1324 | a read taken back runs again with all it holds |
| `SemaphoreOutcomes.EvictOutcome` | reader_concurrency_semaphore.cc:1391-1424 | an evicted read is off the inactive list and has returned its base units |
| `SemaphoreOutcomes.ExpireOutcome` | reader_concurrency_semaphore.cc:228-258 | a timed out permit is aborted, in the permit list and without CPU marks; an inactive read is evicted and returns its base units, any other read is preemptively aborted with its charge unchanged |
| `SemaphoreOutcomes.EndOutcome` | reader_concurrency_semaphore.cc:286-318 | a permit that ends is charged nothing, not blessed and on no list |
| `SemaphoreBroken.BrokenStrandsWaiters` | reader_concurrency_semaphore.cc:1853-1862 | the loop of `broken` empties the wait list, keeps every list exact and `waiters` the number of reads left in the ready list; list membership follows from the states, and the invariant holds, afterwards if and only if nobody was waiting |
| `SemaphoreBroken.BrokenEmptiesTheWaitList` | reader_concurrency_semaphore.cc:1853-1862 | its result: memory queue and then admission queue appended to the plain list, exactly their permits moved, nothing else changed |
| `SemaphoreBounds.AdmissionIsFunded` | reader_concurrency_semaphore.cc:379-389 | outside the no-active-reader case, units found available are charged without being killed; exactly the shortfall is borrowed; count and dedicated memory stay non-negative |
| `SemaphoreBounds.QueuedAdmissionIsFunded` | reader_concurrency_semaphore.cc:1617-1660 | the same for admissions from the queue |
| `SemaphoreBounds.ImmediateAdmissionIsFunded` | reader_concurrency_semaphore.cc:1590-1615 | the same for admissions on the spot |
| `SemaphoreBounds.DedicatedMemoryIsBounded` | reader_concurrency_semaphore.cc:1059-1094 | over any stretch of a run without resizes and with single charges of at most m, while other semaphores come and go (their removal moves the semaphore to another index, which is followed), dedicated consumption stays within max(limit + m, kill limit + pool total, unreduced memory x kill multiplier) |
| `SemaphoreBounds.ApplyCapped` | reader_concurrency_semaphore.cc:1070-1094 | one operation takes consumption beyond that bound only if it was beyond it before |
| `SemaphoreBounds.LoansCoverShortfalls` | reader_concurrency_semaphore.cc:1070-1094 | a charge borrows only its shortfall and leaves a deficit only when the pool is dry |
| `SemaphoreBounds.DeficitIsRecoveredFirst` | reader_concurrency_semaphore.cc:1096-1130 | no loan is repaid while a deficit remains; nothing becomes available while a loan remains |
| `SemaphoreInvariant.TakeKeeps` | reader_concurrency_semaphore.cc:1070-1094 | charging keeps the balance of available, charged and lent memory |
| `SemaphoreInvariant.GiveKeeps` | reader_concurrency_semaphore.cc:1096-1130 | returning units keeps the balance and never reaches the leak clamp |
| `SemaphoreSteps.MoveListed` | reader_concurrency_semaphore.cc:986-994 | moving a permit between lists keeps every list exact and free of repeats |
| `SemaphoreSteps.OnActiveKeeps` | reader_concurrency_semaphore.cc:200-212 | becoming active keeps the counters exact |
| `SemaphoreSteps.OnInactiveKeeps` | reader_concurrency_semaphore.cc:213-226 | becoming inactive keeps the counters exact |
| `SemaphoreOperations.DoWaitAdmissionKeeps` | reader_concurrency_semaphore.cc:1569-1615 | waiting for admission keeps the whole invariant and the pool's books |
| `SemaphoreOperations.AdmitFrontKeeps` | reader_concurrency_semaphore.cc:1617-1672 | serving the front of the wait list keeps them |
| `SemaphoreOperations.ExecuteKeeps` | reader_concurrency_semaphore.cc:1023-1031 | running a ready read keeps them |
| `SemaphoreOperations.WithReadyPermitKeeps` | reader_concurrency_semaphore.cc:1826-1843 | queueing for execution keeps them |
| `SemaphoreOperations.RequestMemoryKeeps` | reader_concurrency_semaphore.cc:1701-1722 | requesting memory keeps them |
| `SemaphoreOperations.RegisterKeeps` | reader_concurrency_semaphore.cc:1249-1288 | registering an inactive read keeps them |
| `SemaphoreOperations.UnregisterKeeps` | reader_concurrency_semaphore.cc:1298-1324 | taking an inactive read back keeps them |
| `SemaphoreOperations.EvictKeeps` | reader_concurrency_semaphore.cc:1391-1424 | eviction keeps them |
| `SemaphoreOperations.OnTimeoutKeeps` | reader_concurrency_semaphore.cc:228-258 | a timeout in any state keeps them |
| `SemaphoreOperations.MarkKeeps` | reader_concurrency_semaphore.cc:471-513 | creating or destroying a guard keeps them |
| `SemaphoreOperations.DestroyKeeps` | reader_concurrency_semaphore.cc:286-318 | destroying a permit without guards keeps them, whatever is still charged to it |
| `SemaphoreOperations.AbandonKeeps` | reader_concurrency_semaphore.cc:946-960 | dropping the handle of an inactive read, and with it the permit, keeps them, whatever is still charged to it |
| `SemaphoreOperations.CreateKeeps` | reader_concurrency_semaphore.cc:1753-1758 | creating a permit keeps them |
| `SemaphoreOperations.SetResourcesKeeps` | reader_concurrency_semaphore.cc:1845-1851 | a resize keeps them |
| `SemaphoreRuns.ApplyKeeps` | reader_concurrency_semaphore.cc:1015-1050 | every allowed operation keeps the invariant and the sum of the pool and this semaphore's loan |
| `SemaphoreRuns.AdmitAll` | reader_concurrency_semaphore.cc:1617-1672 | the admission loop keeps the invariant and the books and ends with nothing left to admit |
| `SemaphoreRuns.AdmitAllIsAPath` | reader_concurrency_semaphore.cc:1617-1672 | the admission loop is a sequence of single admissions, so that whatever holds over all runs holds over it |
| `SemaphoreRuns.AdmitShrinks` | reader_concurrency_semaphore.cc:1617-1672 | each turn of the admission loop shortens the wait list |
| `SemaphoreRuns.NextKeeps` | reader_concurrency_semaphore.hh:73-124 | every event in a world of semaphores and their pool keeps the whole world in order |
| `SemaphoreRuns.RunOk` | reader_concurrency_semaphore.hh:73-124 | every state of every run is in order |
| `SemaphoreObjects.SharedPool.Borrow` | reader_concurrency_semaphore.hh:73-82 | the pool after lending |
| `SemaphoreObjects.SharedPool.Repay` | reader_concurrency_semaphore_group.cc:38-46 | the pool after a repayment |
| `SemaphoreObjects.SharedPool.SetTotalMemory` | reader_concurrency_semaphore.hh:120-124 | the pool after a resize |
| `SemaphoreObjects.SharedPool.AvailableMemory` | reader_concurrency_semaphore.hh:102-107 | what the pool can lend is never negative |
| `SemaphoreObjects.ReaderConcurrencySemaphore.DequeuePermit` | reader_concurrency_semaphore.cc:1724-1747 | the in-place update is the modelled step |
| `SemaphoreObjects.ReaderConcurrencySemaphore.ConsumeUnits` | reader_concurrency_semaphore.cc:1070-1094 | the in-place charge, borrowing included, is the modelled step; failure leaves everything as it was |
| `SemaphoreObjects.ReaderConcurrencySemaphore.RepaySharedPool` | reader_concurrency_semaphore.cc:1096-1113 | the in-place repayment is the modelled step |
| `SemaphoreObjects.ReaderConcurrencySemaphore.SignalUnits` | reader_concurrency_semaphore.cc:1115-1130 | the in-place return of units is the modelled step |
| `SemaphoreObjects.ReaderConcurrencySemaphore.OnPermitActive` | reader_concurrency_semaphore.cc:200-212 | the in-place update is the modelled step |
| `SemaphoreObjects.ReaderConcurrencySemaphore.OnPermitInactive` | reader_concurrency_semaphore.cc:213-226 | the in-place update is the modelled step |
| `SemaphoreObjects.ReaderConcurrencySemaphore.AddNeedCpu` | reader_concurrency_semaphore.cc:471-481 | the in-place update is the modelled step |
| `SemaphoreObjects.ReaderConcurrencySemaphore.DropNeedCpu` | reader_concurrency_semaphore.cc:483-496 | the in-place update is the modelled step |
| `SemaphoreObjects.ReaderConcurrencySemaphore.AddAwaits` | reader_concurrency_semaphore.cc:498-504 | the in-place update is the modelled step |
| `SemaphoreObjects.ReaderConcurrencySemaphore.DropAwaits` | reader_concurrency_semaphore.cc:506-513 | the in-place update is the modelled step |
| `SemaphoreObjects.ReaderConcurrencySemaphore.ExecutePermit` | reader_concurrency_semaphore.cc:1023-1031 | the in-place update is the modelled step |
| `SemaphoreObjects.ReaderConcurrencySemaphore.Unregister` | reader_concurrency_semaphore.cc:1298-1324 | the in-place update is the modelled step |
| `SemaphoreObjects.ReaderConcurrencySemaphore.WaitAdmission` | reader_concurrency_semaphore.cc:1569-1615 | the whole operation on objects changes the semaphore's value as the modelled operation does, and only this permit; it keeps the invariant, and memory only moves between the pool and the loan |
| `SemaphoreObjects.ReaderConcurrencySemaphore.RequestMemory` | reader_concurrency_semaphore.cc:1701-1722 | likewise |
| `SemaphoreObjects.ReaderConcurrencySemaphore.MaybeAdmitWaiters` | reader_concurrency_semaphore.cc:1617-1672 | the loop over the wait list computes the modelled sequence of admissions, terminates and keeps the invariant and the books |
| `SemaphoreObjects.ReaderConcurrencySemaphore.RegisterInactiveRead` | reader_concurrency_semaphore.cc:1249-1288 | likewise for registering an inactive read |
| `SemaphoreObjects.ReaderConcurrencySemaphore.OnPermitTimeout` | reader_concurrency_semaphore.cc:228-258 | likewise for a timeout |
| `SemaphoreObjects.ReaderConcurrencySemaphore.EvictInactiveRead` | reader_concurrency_semaphore.cc:1391-1424 | likewise for an eviction |
| `SemaphoreObjects.ReaderConcurrencySemaphore.ClearInactiveReads` | reader_concurrency_semaphore.cc:1334-1338 | the loop evicts every inactive read, terminates and keeps the invariant and the books |
| `SemaphoreObjects.ReaderConcurrencySemaphore.EndPermit` | reader_concurrency_semaphore.cc:286-318 | destroying a permit object, with whatever is still charged to it, is the modelled step and keeps the invariant and the books |
| `SemaphoreObjects.ReaderConcurrencySemaphore.DropInactiveHandle` | reader_concurrency_semaphore.cc:946-960 | likewise for dropping the handle of an inactive read |
| `SemaphoreObjects.ReaderConcurrencySemaphore.BreakWaiters` | reader_concurrency_semaphore.cc:1853-1862 | the loop of `broken` on objects computes the modelled one |
| `SemaphoreObjects.ReaderConcurrencySemaphore.UpdateResources` | reader_concurrency_semaphore.cc:1845-1851 | a resize moves limits and balance together, changes nothing else and keeps the invariant |
| `SemaphoreObjects.ReaderConcurrencySemaphore.CreatePermit` | reader_concurrency_semaphore.cc:1753-1758 | a new permit object joins the permit list and the invariant is kept |
| `SemaphoreGroup.SharesFit` | reader_concurrency_semaphore_group.cc:99-104 | weighted shares, rounded down, never add up to more than their weight's part of the memory |
| `SemaphoreGroup.ShareIsLargest` | reader_concurrency_semaphore_group.cc:100-101 | a share is the largest amount that is no more than its weight's part of the memory |
| `SemaphoreGroup.SharesLoseLittle` | reader_concurrency_semaphore_group.cc:99-104 | all shares together fall short of their exact parts by less than one for each member |
| `SemaphoreGroup.FirstShare` | reader_concurrency_semaphore_group.cc:105-108 | with the remainder, the first member has at least its share and exceeds its exact part by less than the number of members plus the parts of semaphores that have not been released |
| `SemaphoreGroup.RemainderToFirst` | reader_concurrency_semaphore_group.cc:105-108 | with the remainder added to one member the limits add up to the memory exactly and none is negative |
| `SemaphoreGroup.ReaderConcurrencySemaphoreGroup.Adjust` | reader_concurrency_semaphore_group.cc:83-110 | after an adjustment limits plus pool total equal the configured memory exactly, limits are non-negative; every member but the first has exactly its share of the dedicated memory and the first at least that, exceeding its exact part by less than the number of members when no semaphore is leaving; each unreduced memory is the share of all the memory; the pool has the configured fraction, rounded down and cut to the range from 0 to 1; nothing else about a member changes, every member keeps its invariant, and pool available + all loans = pool total |
| `SemaphoreGroup.ReaderConcurrencySemaphoreGroup.ChangeWeight` | reader_concurrency_semaphore_group.cc:113-121 | the total weight is that of the members and of the semaphores not yet released; a real change readjusts; members change in their limits only and keep their invariants and the pool's books |
| `SemaphoreGroup.ReaderConcurrencySemaphoreGroup.AddOrUpdate` | reader_concurrency_semaphore_group.cc:159-177 | a new or known member gets the weight, the total weight stays exact, and a changed weight readjusts; the other members change in their limits only; invariants and books are kept |
| `SemaphoreGroup.ReaderConcurrencySemaphoreGroup.Remove` | reader_concurrency_semaphore_group.cc:179-191 | a removed member is gone at once; its weight and its loan still count |
| `SemaphoreGroup.ReaderConcurrencySemaphoreGroup.Release` | reader_concurrency_semaphore_group.cc:179-191 | once stopped, with all its permits gone, its weight is released and the rest readjusted; it owes the pool nothing, and invariants and books are kept |
| `SemaphoreGroup.ReaderConcurrencySemaphoreGroup.SetSharedPoolFraction` | reader_concurrency_semaphore_group.hh:84-87 | a live update of the fraction re-splits the memory exactly; members change in their limits only and keep their invariants and the pool's books |
| `SemaphoreGroup.ReaderConcurrencySemaphoreGroup.MemberSteps` | reader_concurrency_semaphore.hh:73-124 | an operation of one member that keeps its invariant, moves memory only between the pool and its loan and touches no permit but the member's own keeps the whole group's books; no two members share a permit |
| `SemaphoreGroup.ReaderConcurrencySemaphoreGroup.RequestMemoryOf` | reader_concurrency_semaphore.cc:1701-1722 | a request for memory by any permit of any member does to that member what the modelled operation does, and the group stays in balance |
| `Integers.LittleEndianRoundTrip` | serializer.hh:191-204 | decoding the encoded integer gives it back |
| `WireLayout.ByteAt` | serializer.hh:199-204 | byte k of a written integer is digit k in base 256: least significant first |
| `WireLayout.ReadsAsSpelled` | serializer.hh:191-197 | bytes are read as the one number whose digits they are |
| `WireLayout.WrittenIsLaidOut` | serializer_impl.hh:60-246 | every written value byte by byte: integers in two's complement, a bool as 1 or 0, 32-bit counts before the elements in order, the optional's tag byte, keys each before its value, members in order, and a frame's size counting itself |
| `WireLayout.AnyBytesAreAnInteger` | serializer.hh:208-221 | on any bytes: the integer they spell in two's complement |
| `WireLayout.AnyByteIsABool` | serializer.hh:223-238 | a byte is read as true if and only if it is not zero |
| `WireLayout.AnyByteIsAFlag` | serializer_impl.hh:609-618 | any byte but zero announces the value of an optional |
| `WireLayout.MapKeepsFirst` | serializer_impl.hh:379-392 | on any bytes, a map read has one entry for each key, the first that came |
| `WireLayout.FramesAreSkippedBySize` | idl-compiler.py:372-387 | frames and blobs are skipped by the size they state, whatever they hold |
| `Integers.SerializeIntegral` | serializer.hh:199-204 | the bytes written are the same on little- and big-endian hosts |
| `Integers.DeserializeIntegral` | serializer.hh:191-197 | and so are the integers read |
| `Integers.BulkCopy` | serializer_impl.hh:52-55 | copying memory unswapped is right for all values of a width if and only if the fast path is taken for it |
| `WireTheorems.MeasureIsSize` | serializer_impl.hh:760-769 | the measured size is the number of bytes written, nested frames included |
| `WireSkips.SkipAgreesExactly` | idl-compiler.py:351-387 | skipping ends where reading ends on all bytes that can be read if and only if the type meets the structural condition |
| `WireSkips.SkipFollowsRead` | serializer_impl.hh:194-221 | under the condition, on any bytes that can be read |
| `WireSkips.UnskippableInput` | idl-compiler.py:372-387 | without it, an input that can be read to its end and cannot be skipped |
| `WireSkips.PartAtTheEnd` | idl-compiler.py:351-387 | for every type, reading and skipping can only part at the end of the input |
| `WireSkips.AttributeInFinalClassBreaksSkip` | idl-compiler.py:351-387 | an attributed last member of an unframed class makes the two disagree, at the end of the input, if and only if it takes bytes |
| `WireVersions.AcceptedSkipsAsRead` | idl-compiler.py:947-987 | types whose unframed classes pass the version check and have no other attributes are skipped to where they are read to |
| `WireTheorems.ReadWritten` | idl-compiler.py:330-367 | reading what any compatible type wrote gives the converted value and leaves exactly what follows |
| `WireTheorems.RoundTrip` | serializer_impl.hh:223-246 | reading back gives the value and leaves exactly what follows |
| `WireTheorems.ReadEntriesWritten` | serializer_impl.hh:379-408 | a map reads back although the first of two equal keys would win |
| `WireTheorems.ReadFrameWritten` | idl-compiler.py:330-347 | a reader of a framed class ends just past the frame |
| `WireTheorems.HollowConverts` | idl-compiler.py:354-362 | a member for which nothing is written has one value only, so that its default is that value |
| `WireTheorems.BlobRoundTrip` | serializer_impl.hh:541-553 | a blob reads back if and only if it is shorter than 4 GiB |
| `WireTheorems.WritesAreDistinct` | serializer_impl.hh:223-246 | encodings are prefix-free |
| `WireVersions.ValidateMemberVersioning` | idl-compiler.py:947-987 | the loop accepts a class if and only if versions parse, come last, never decrease (between any two members) and are not in a final class; a rejection names the first offending member |
| `WireVersions.PaddedOrder` | idl-compiler.py:972-975 | comparing zero-padded tuples orders versions as releases |
| `WireVersions.OldReader` | idl-compiler.py:330-367 | a reader that knows a prefix of the members gets those and ends past the whole object |
| `WireVersions.NewReader` | idl-compiler.py:354-362 | for an accepted class a newer reader gets the written members and the defaults of the missing versioned ones, earlier members' values included |
| `WireVersions.ReleasesAreCuts` | idl-compiler.py:947-987 | the members of an accepted class known to a release are a prefix |
| `WireStreams.BulkWrites` | serializer_impl.hh:60-81 | the bulk array path writes what element-by-element encoding writes |
| `WireStreams.BulkReads` | serializer_impl.hh:180-187 | and reads what element-by-element decoding reads, failures included |
| `WireStreams.BulkSkips` | serializer_impl.hh:188-192 | and skips what element-by-element skipping skips |
| `WireStreams.Deserialize` | serializer_impl.hh:223-246 | the cursor-based reader computes the modelled read for every type and input |
| `WireStreams.DeserializeArray` | serializer_impl.hh:180-214 | the loop and the bulk path read the modelled elements |
| `WireStreams.DeserializeEntries` | serializer_impl.hh:379-391 | the loop over map entries keeps the first of equal keys |
| `WireStreams.DeserializeMembers` | idl-compiler.py:330-367 | the member loop reads an attributed member only if something is left |
| `WireStreams.SkipValue` | serializer_impl.hh:194-221 | the cursor-based skip computes the modelled skip |
| `WireStreams.SkipClass` | idl-compiler.py:372-387 | the member loop skips the modelled bytes |
| `WireStreams.GetSizeof` | serializer_impl.hh:760-769 | the measured size, or a failure if it needs more than 32 bits |
| `WireStreams.SetSize` | serializer_impl.hh:33-41 | a frame size on a real stream, a zero on a measuring one |
| `WireStreams.Serialize` | idl-compiler.py:312-327 | on a real stream the modelled encoding, on a measuring stream its size, failing in the same cases |
| `WireStreams.SerializeArray` | serializer_impl.hh:60-81 | the loop and the bulk path write the modelled elements |
| `WireViews.SerializeToBuffer` | serializer_impl.hh:771-779 | a buffer sized by measuring is filled exactly |
| `WireViews.DeserializeFromBuffer` | serializer_impl.hh:781-785 | reading from a buffer after its head space |
| `WireViews.ReadIsLocal` | serializer_impl.hh:223-246 | of a type that is skipped to where it is read to, and whose zero-byte attributed members have a default of their type, reading depends on nothing beyond the bytes it consumes |
| `WireViews.SettledIsLocal` | serializer_impl.hh:223-246 | of any type, reading does not depend on what follows the bytes it consumes as long as something does |
| `WireViews.DefaultsMayFit` | idl-compiler.py:351-387 | the condition on defaults holds of types whose defaults have the members' types, and of types without attributed members outside frames |
| `WireViews.VectorIterator.Dereference` | serializer_impl.hh:957-962 | dereferencing reads the next element and steps over it, or throws as reading does |
| `WireViews.VectorIterator.Increment` | serializer_impl.hh:964-972 | the increment skips the element unless it was read, or throws as skipping does |
| `WireViews.Walk` | serializer_impl.hh:927-985 | whatever the bytes, a walk reads the wanted elements and skips the others, and throws where that throws |
| `WireViews.VisitPicks` | serializer_impl.hh:927-985 | on a vector that can be read, of elements skipped to where they are read to, a walk sees the elements at the positions it asks for |
| `WireViews.FillSubstreams` | serializer_impl.hh:868-878 | whatever the bytes, one stream for each stretch that skipping passes over |
| `WireViews.StretchesSeparate` | serializer_impl.hh:868-878 | of a vector that can be read, of elements as for `ReadIsLocal`, each stream holds one element and nothing else |
| `WireViews.WalkBackwards` | serializer_impl.hh:889-899 | whatever the bytes, the reverse view reads the streams last to first |
| `WireViews.ReadBackReverses` | serializer_impl.hh:889-899 | so that it yields the elements last to first |
| `WireFrames.StartPlaceHolder` | serialization_visitors.hh:60-73 | starting a frame appends four bytes and keeps everything before |
| `WireFrames.SetPlaceHolder` | serialization_visitors.hh:29-44 | setting it later changes those four bytes only |
| `WireFrames.WriteFrame` | serialization_visitors.hh:35-73 | a frame of any size written through a placeholder: its contents after the low 32 bits of its size |
| `WireFrames.WriteValue` | serialization_visitors.hh:60-73 | any value written with placeholders for all frames and vector sizes, of any size; throws only where a plain serializer does |
| `WireFrames.PlacedIsWritten` | serialization_visitors.hh:60-73 | wherever the measuring serializer does not throw, the placeholders yield the same bytes |
| `WireFrames.OversizeIsTruncated` | serialization_visitors.hh:29-44 | a vector or frame beyond 32 bits starts with its size modulo 2^32, and the measuring serializer throws on it |
| `BufferViews.BufferView.constructor` | serializer.hh:95-102 | a view stands for the first bytes of the fragments |
| `BufferViews.BufferView.RemoveCurrent` | serializer.hh:135-145 | drops the rest of the current fragment |
| `BufferViews.BufferView.RemovePrefix` | serializer.hh:127-134 | drops exactly the prefix, over empty fragments too |
| `BufferViews.RemovePrefixEnds` | serializer.hh:127-145 | the loop ends if and only if the view holds as much as is to be dropped |
| `BufferViews.BufferView.Prefix` | serializer.hh:146-151 | the prefix of the contents |
| `BufferViews.BufferView.Linearize` | serializer.hh:156-163 | iterating over the fragments copies the contents |
| `Ostream.AllocationsDouble` | bytes_ostream.hh:129-136 | after an allocation that is a power of two the next at least doubles it, up to 128 KiB and not beyond |
| `Ostream.FirstAllocation` | bytes_ostream.hh:129-136 | the first allocation is a power of two within the same bounds |
| `Ostream.BytesOstream.AllocNew` | bytes_ostream.hh:151-163 | a new chunk of the computed size at the end of the chain |
| `Ostream.BytesOstream.Write` | bytes_ostream.hh:249-267 | the contents grow by the bytes written, nothing before them moves, and chunk sizes keep doubling |
| `Ostream.BytesOstream.WritePlaceHolder` | bytes_ostream.hh:137-149 | reserves bytes at the end in one chunk |
| `Ostream.BytesOstream.Fill` | serialization_visitors.hh:29-32 | overwrites exactly the reserved bytes |
| `Ostream.BytesOstream.Append` | bytes_ostream.hh:344-348 | the contents grow by the other stream's |
| `Ostream.BytesOstream.Linearize` | bytes_ostream.hh:298-324 | one chunk with the same contents |
| `Ostream.BytesOstream.RemoveSuffix` | bytes_ostream.hh:350-367 | the contents without the suffix; the chain ends at the chunk that holds the new end, with exactly the bytes before it |
| `Ostream.BytesOstream.Pos` | bytes_ostream.hh:385-387 | a valid position at the end, after every other valid position |
| `Ostream.BytesOstream.WrittenSince` | bytes_ostream.hh:389-403 | the number of bytes after the position |
| `Ostream.BytesOstream.Retract` | bytes_ostream.hh:405-417 | the contents up to the position |
| `Ostream.BytesOstream.Clear` | bytes_ostream.hh:454-468 | empty, with the first chunk kept |
| `Ostream.MarksKept` | bytes_ostream.hh:380-387 | positions keep their place while the stream grows |
| `Ostream.MarksRetracted` | bytes_ostream.hh:405-417 | earlier positions keep their place when the stream is retracted |
| `Ostream.MarksTruncated` | bytes_ostream.hh:350-367 | positions at or before the new end keep their place when a suffix is removed |
| `Ostream.KeptPrecede` | bytes_ostream.hh:350-367 | a position in the bytes that are kept is one of these if and only if it does not stand at the very start of a chunk that goes |
| `Ostream.ReservedKept` | bytes_ostream.hh:225-245 | placeholders keep their place while the stream grows |
| `StreamScripts.Perform` | bytes_ostream.hh:225-417 | however writes, placeholders, appended streams, truncations of what the script wrote and saved positions are nested, the stream gains exactly the bytes that were neither retracted nor cut off, and nothing that was there changes |
| `StreamScripts.GrownCut` | bytes_ostream.hh:350-367 | a truncation that keeps at least what was there at some earlier point leaves every chunk and byte of that point in place |
| `StreamScripts.SaveAndRetract` | bytes_ostream.hh:380-417 | after any script a retract to the saved position restores the bytes at the save, chunk by chunk |
| `StreamScripts.FillPlace` | serialization_visitors.hh:29-32 | a placeholder filled in after anything was written changes the reserved bytes only |
| `Ostream.BytesOstream.Equals` | bytes_ostream.hh:429-452 | the loop over chunks computes the modelled comparison |
| `Fragments.CompareDecides` | bytes_ostream.hh:429-452 | for all streams: "equal" if and only if they agree up to a point where both are at an empty fragment or at the end; no end if and only if there is no such point and one is a strict prefix |
| `Fragments.CompareIsEquality` | bytes_ostream.hh:429-452 | for equal sizes it ends, and it is equality of the byte strings if one side has no empty fragment, however each is chunked |
| `Fragments.CompareEnds` | bytes_ostream.hh:429-452 | without empty fragments it ends if and only if neither is a strict prefix of the other |
| `Fragments.EmptyFragmentsHideTheRest` | bytes_ostream.hh:435-437 | streams that both start with an empty fragment compare equal whatever follows |
| `StreamScripts.ClearedStreamsCompareEqual` | bytes_ostream.hh:429-468 | two streams that are cleared and then given room larger than their first chunk compare equal whatever they hold |
| `RingRanges.SplitPointIsInside` | query_ranges_to_vnodes.cc:88-100 | the split point of every split lies inside the range, as `split` asserts |
| `RingRanges.PiecesChain` | query_ranges_to_vnodes.cc:72-112 | pieces are adjacent, none is empty, and together they have the range's bounds |
| `RingRanges.PiecesCover` | query_ranges_to_vnodes.cc:72-112 | adjacent pieces cover a position if and only if their outer bounds do, and do not overlap |
| `RingRanges.PiecesDoNotStraddle` | query_ranges_to_vnodes.cc:72-112 | no piece reaches across the end of a ring token |
| `RingRanges.PiecesCutAtTokens` | query_ranges_to_vnodes.cc:72-112 | nothing is cut but at the end of a ring token inside the range |
| `RingRanges.RingOrderSplits` | locator/token_metadata.cc:928-951 | a walk of the ring from anywhere at or before the range splits it as the whole ring does |
| `RingRanges.AtToken` | query_ranges_to_vnodes.cc:75-107 | one token ends the range, is passed over or splits off a piece, and a resumed walk goes on from there |
| `RingRanges.DueAllCovers` | query_ranges_to_vnodes.cc:45-112 | all pieces together cover exactly the input positions, ranges wholly at the minimum token left out |
| `RingRanges.DueAllInOrder` | query_ranges_to_vnodes.cc:45-112 | pieces of ranges in order are in order and disjoint |
| `RingRanges.DueAllCutAtTokens` | query_ranges_to_vnodes.cc:45-112 | every piece starts where an input range does or at such a cut |
| `RingRanges.DueAllDoNotStraddle` | query_ranges_to_vnodes.cc:45-112 | no piece of any range reaches across the end of a ring token |
| `VnodeGenerator.TokenRangeSplitter.LowerBound` | locator/token_metadata.cc:472-484 | the first index at or after the token |
| `VnodeGenerator.TokenRangeSplitter.Reset` | locator/token_metadata.cc:939-941 | the walk restarts at the first token from the given one on |
| `VnodeGenerator.TokenRangeSplitter.NextToken` | locator/token_metadata.cc:943-950 | the tokens come in ring order |
| `VnodeGenerator.QueryRangesToVnodes.SplitRange` | query_ranges_to_vnodes.cc:73-107 | the pieces split off and what remains are the pieces due |
| `VnodeGenerator.QueryRangesToVnodes.ProcessOneRange` | query_ranges_to_vnodes.cc:45-112 | what is added and what is still to come are what was to come, and the range is done or the batch full |
| `VnodeGenerator.QueryRangesToVnodes.Generate` | query_ranges_to_vnodes.cc:26-35 | a batch of at most min(n, 1024) pieces, taken from the front of what was to come; a smaller one is the last |
| `VnodeGenerator.Collect` | query_ranges_to_vnodes.cc:26-35 | batches of any sizes concatenate to what was to come |
| `VnodeGenerator.Drain` | query_ranges_to_vnodes.cc:26-39 | asking with a positive size ends and returns everything |
| `CartesianProduct.ProductIterator.constructor` | cartesian_product.hh:38-47 | at the end at once if and only if some component is empty |
| `CartesianProduct.ProductIterator.Dereference` | cartesian_product.hh:48-55 | the tuple with the digits of the position |
| `CartesianProduct.ProductIterator.Increment` | cartesian_product.hh:56-69 | the next position, or the end after the last one |
| `CartesianProduct.VisitAll` | cartesian_product.hh:23-76 | a full walk has as many tuples as the product of the sizes, the k-th with the digits of k |
| `CartesianProduct.DecodeOfValue` | cartesian_product.hh:56-69 | every tuple of digits is met, at its number |
| `CartesianProduct.DecodeIsLexicographic` | cartesian_product.hh:56-69 | in strictly increasing lexicographic order |
| `CartesianProduct.ProductSize` | cartesian_product.hh:80-86 | the loop computes the product of the sizes |
| `CartesianProduct.ProductIsEmpty` | cartesian_product.hh:90-97 | true if the product has no tuple, and also for no vectors |
| `RangeCompat.Unwrap` | partition_range_compat.hh:56-69 | first parts in front, in reverse, then the rest in order |
| `RangeCompat.UnwrapCovers` | partition_range_compat.hh:56-69 | exactly the same points are covered and nothing wraps |
| `RangeCompat.UnwrapKeepsOrder` | partition_range_compat.hh:56-69 | a list sorted by left bound stays sorted |
| `RangeCompat.WrapCovers` | partition_range_compat.hh:79-89 | coverage of a point stays the same if and only if the list is not open at both ends, the joined interval wraps around, or the point is in it or in another interval |
| `RangeCompat.WrapLosesPoints` | partition_range_compat.hh:79-89 | a list whose open ends overlap covered every point and keeps exactly those in the overlap and in the other intervals |
| `RangeCompat.DisjointListsKeepPoints` | partition_range_compat.hh:79-89 | disjoint lists, in any order, lose no point |
| `RangeCompat.WrapUndoesUnwrap` | partition_range_compat.hh:79-89 | wrap after unwrap is the identity if and only if nothing wraps and the list is not open at both ends, or the last interval alone wraps |
| `DependencySort.SortDependencies` | idl-compiler.py:1428-1443 | without a cycle: each type once, after all types it depends on |
| `DependencySort.EndsUnlessCyclic` | idl-compiler.py:1434-1441 | the loop ends if and only if no chain of dependencies leads back to its start |
| `DependencySort.CycleStays` | idl-compiler.py:1434-1441 | a set of types that feeds itself is never taken apart |
| `DependencySort.CyclicPath` | idl-compiler.py:1428-1443 | there is a set of types that feeds itself if and only if there is a chain of dependencies that closes |

## Left out

- Futures, gates, metrics, tracing, diagnostics, allocation failure and exceptions' texts: operations are atomic steps.
- Wake-ups: the pool's notify list and the execution loop's condition variable, and with them every liveness claim.
- Preemptive abort: the clock and the float factor are a free choice to shed a read waiting for admission.
- Statistics counters other than waiters, inactive reads, need_cpu and awaits.
- `evict_inactive_reads_for_table` is a sequence of evictions; `broken` is not an event of runs.
- Destroying a permit while guards of it exist, which the guards' references prevent.
- A destroyed permit stays in the permit table, marked dead; the object is not freed.
- Machine integers: memory amounts, sizes and counters are unbounded, except for the 32-bit sizes of the wire format.
- SemaphoreGroup.SharesFit: shares are exact reals rounded down, not doubles.
- WireSkips.SkipAgreesExactly: says nothing of bytes that cannot be read, which may be skipped all the same.
- WireTheorems.RoundTrip: an attributed member for which nothing is written must have a fixed default.
- Read-back maps are compared as entries in wire order; the order `std::map` and hashing would give them is not modelled.
- Variants, `unknown_variant_type`, sets, arrays, pointers, durations and enum sets of the serializers, and the text of emitted code.
- RPC verbs, views and stubs of the IDL compiler; names of types and members are numbers.
- `bytes_ostream`: moving, copying and `to_managed_bytes`, and freeing of chunks.
- An empty token ring, on which `ring_range` throws.
- Keys are integers in the order of the ring; partitioners and schemas are not modelled.
