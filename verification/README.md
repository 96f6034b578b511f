# Verified models of the concurrency and partitioning core

The project models, in Dafny, the parts of the repository whose correctness is hardest to see from the
code, and proves what they promise. `dafny verify dfyconfig.toml` checks everything.

Lock-free and lock-based protocols are state machines: one step is one access to shared memory (or one lock
or unlock) by one of any number of threads, under sequential consistency, and sequence numbers, tags and
epochs do not wrap. Theorems speak of every run. Sequential code is modelled by classes and methods whose
loops follow the code.

| files | what they model |
|---|---|
| `KcasModel`, `KcasInvariant`, `KcasSteps`, `KcasTheorems`, `KcasCalls`, `KcasTags`, `KcasWitness` | the multiword compare-and-swap with one reused KCAS and one reused RDCSS descriptor per thread (`Benchmark-v700/cpp/common/kcas/kcas_reuse_impl.h`). The steps are `Start` .. `DoRFinish`; helping nests on a stack of `help` activations; a snapshot is copied field by field, in any order, while its owner may overwrite it. `ops` and `rops` are history |
| `KcasSort` | the in-place bubble sort that `execute` runs first |
| `Dcss`, `DcssTheorems`, `DcssCalls`, `DcssWitness` | the double-compare-single-swap, its tag helping and its mutable state field, including the state a late helper reads from a later operation |
| `Debra`, `DebraRuns` | epoch-based reclamation: the epoch, stale announcements, the incremental scan, three rotating bags |
| `Cuts` | cut vectors, the least price of a cut, and reading an optimum back from the table of last cuts; shared by the two partitioners |
| `Positions` | positions of an array and the blocks they lie in; shared by the two partitioners |
| `DynamicLock` | the sequential side of the adaptive range lock: block map, counters, dynamic program, gain test, one rebuild |
| `RangeLock`, `RangeLockCalls`, `RangeLockRebuilds` | its protocol: epoch-checked locking and counting of queries against a rebuilder that takes a snapshot of the counters cell by cell and rewrites the map block by block |
| `Chromosomes`, `BoundedMoves`, `Arrivals`, `GeneticPartitioner` | the partition optimiser: block profiles, the pruned dynamic program, evaluation, repair, bounded moves and where repeated ones lead |
| `Powers`, `HashTable`, `Dict` | the incrementally rehashed dictionary |
| `IdealTree`, `Gsat`, `Delimiters` | collecting, rebuilding and validating a self-adjusting tree, and the three delimiters that choose the branching |
| `Fenwick` | the three free functions of the Fenwick tree |
| `TaggedStack`, `TaggedStackCalls` | the lock-free bag of blocks with a version-tagged head |

Facts about the code that the models keep and that a reader may not expect:

- The announcement that DEBRA stores may be stale, and its `DoAdvance` may follow a scan of long ago; the
  grace period holds all the same because the epoch passes a running operation at most once.
- A DCSS helper whose compare-and-swap on the state field fails uses the state it then reads without looking
  at the sequence number again (`DoCasMut`); `LateHelperChangesNothing` says why that is harmless.
- A KCAS helper skips entry 0 and may install the tag of an operation that has already failed. After a call of
  `execute` that returns true no word ever holds its tag again (`TrueLeavesNoTag`). After one that returns false the
  tag can come back to a word exactly if some thread, having read that the operation was undecided, is still about to
  replace an RDCSS tag there (`CanComeBack`). If the owner starts its next operation before that, everybody who meets
  the tag finds its sequence number outdated and leaves it: it stays for ever, no later operation at that word
  succeeds and no `readPtr` of it returns (`StuckForEver`, `NoneSucceedsAtStuck`, `NoReadReturnsAtStuck`).
  `TagStaysForEver` is a run that gets there. Thread 0 executes [(0, 1 -> 2), (1, 5 -> 6)] on memory [1, 7], locks
  word 0, finds 7 in word 1 and pauses before it decides. Thread 1 changes word 1 to 5, meets the tag in word 0, helps
  and puts its RDCSS tag into word 1; thread 2 meets that tag, reads that the operation is undecided and pauses.
  Thread 0 decides for failure, cleans up, returns false and starts anew. Then thread 2 puts the tag into word 1.
- `RepairInternalCuts` adds 1 to 64-bit words, and `MoveToward` adds the step to them. The repair is right for
  every input, and so the result of a move is valid for every step. The inner cuts of a move are the intended ones
  exactly if no sum wraps around (`RawCutsIntended`). They need no repair exactly if every cut that wraps still
  lands above the one before it (`NoRepairNeeded`), which does not make them the intended ones: from [0, 5, 10]
  towards [0, 7, 10] with step 2^64 - 3 the inner cut becomes 2 (`WrapsUnrepaired`). The repaired result is the
  intended move if and only if every cut whose sum wraps has its target right above where the cut before it goes
  (`MovedIsTowards`); `WrapsUnharmed` shows that this is less than asking that no sum wraps.
- Repeated moves arrive after the distance divided by the step, rounded up, calls if and only if the first call
  meets that condition (`CallsArrive`). Steps of at most 2^64 minus the number of blocks always do; a larger step
  spans every distance, as there are at most 2^63 blocks. With such a step a cut that wraps falls back by 2^64
  minus the step. If it gets below that amount before the cuts in front of it bar its way, the next call takes it
  to its target; otherwise it never gets there. `TargetReached` says exactly when the target is reached at all,
  and `CallsArriveLate` after how many calls: two from [0, 5, 10] (`ArrivesLate`). From [0, 1, 3] towards
  [0, 2, 3] with step 2^64 - 1 every call returns where it started (`NeverArrives`).
- `Evaluate` counts locks in 64-bit words, so a query whose ends are swapped subtracts from the count and adds
  no hits.
- The recursion of `BuildIdealTree` terminates if every range too long for a leaf gets at least one branch; a
  range that gets none would be its own last child. The logarithmic delimiter gives none to a total of zero or
  one and the square-root delimiter none to zero. Every item counts the access of its insertion, so a range
  too long for a leaf has a total of at least two, and all three delimiters qualify (`ShippedDelimiters`).
- A failed double-compare-single-swap reports what its own thread read at the first address. That may be the
  expected value (`ReportsExpected`); then another thread had read something else and decided (`DecidedByAnother`).

## Model

| member | source | states |
|---|---|---|
| KcasSteps.NextKeepsInv | Benchmark-v700/cpp/common/kcas/kcas_reuse_impl.h:297-430 | every step of every thread keeps the invariant and obeys the rely condition: statuses and entries of an operation never change once decided, its own descriptor is its record until its owner moves on |
| KcasSteps.RunInv | Benchmark-v700/cpp/common/kcas/kcas_reuse_impl.h:346-430 | the invariant holds in every state of every run that starts with fresh descriptors |
| KcasTheorems.StepRefines | Benchmark-v700/cpp/common/kcas/kcas_reuse_impl.h:372-430 | abstract memory changes only in the step that takes an operation from undecided to succeeded, which finds all its old values there and replaces all of them at once |
| KcasTheorems.RunRefines | Benchmark-v700/cpp/common/kcas/kcas_reuse_impl.h:297-430 | in every run abstract memory is the initial memory after the succeeded operations, each exactly once, atomically, in the order of their status steps, each finding its expected values when its turn comes; that order is only ever added to |
| KcasTheorems.DecideEffect | Benchmark-v700/cpp/common/kcas/kcas_reuse_impl.h:70-89 | the status step is where the effect on abstract memory happens; deciding for failure has none |
| KcasTheorems.DecidedForEver | Benchmark-v700/cpp/common/kcas/kcas_reuse_impl.h:70-89 | a decided status never changes, and the descriptor shows it until the owner bumps the sequence number |
| KcasTheorems.SuccessHoldsAllAddresses | Benchmark-v700/cpp/common/kcas/kcas_reuse_impl.h:385-415 | at the step that makes an operation succeed every one of its addresses holds its tag, although helpers skip entry 0 |
| KcasTheorems.ReturnTellsStatus | Benchmark-v700/cpp/common/kcas/kcas_reuse_impl.h:417-430 | what `execute` is about to return is whether the operation succeeded, and it is decided by then |
| KcasCalls.Executed | Benchmark-v700/cpp/common/kcas/kcas_reuse_impl.h:451-462 | a call of `execute` is about the entries its owner had in the descriptor when it made the call, under a tag never used before |
| KcasCalls.OnlyOwnerPrepares | Benchmark-v700/cpp/common/kcas/kcas_reuse_impl.h:490-515 | while a descriptor is being prepared nobody but its owner changes it |
| KcasCalls.ReturnsTrue | Benchmark-v700/cpp/common/kcas/kcas_reuse_impl.h:451-462 | a call of `execute` with entries es that returns true: in exactly one step of the call all expected values of es are in abstract memory and all its new values are written at once |
| KcasCalls.ReturnsFalse | Benchmark-v700/cpp/common/kcas/kcas_reuse_impl.h:398-462 | a call with entries es that returns false: at an instant of the call the word of one of the entries held a plain value other than the expected one; the call never takes effect |
| KcasCalls.CleansEveryEntry | Benchmark-v700/cpp/common/kcas/kcas_reuse_impl.h:424-430 | before it returns the owner has gone over every entry, entry 0 included, in phase 2 |
| KcasTags.TrueLeavesNoTag | Benchmark-v700/cpp/common/kcas/kcas_reuse_impl.h:424-430 | from the return of a call that returns true on, no word holds its tag |
| KcasTags.FalseLeavesNoTag | Benchmark-v700/cpp/common/kcas/kcas_reuse_impl.h:424-430 | if a word holds the tag after a call that returned false, some thread was about to put it back when the owner had cleaned that word |
| KcasTags.CanComeBack | Benchmark-v700/cpp/common/kcas/kcas_reuse_impl.h:297-309 | the tag of a decided operation that is not at a word can come back to it if and only if some thread is about to put it back |
| KcasTags.StuckForEver | Benchmark-v700/cpp/common/kcas/kcas_reuse_impl.h:306-344 | a tag whose owner has moved on and that nobody is past copying stays in its word for ever |
| KcasTags.NoneSucceedsAtStuck | Benchmark-v700/cpp/common/kcas/kcas_reuse_impl.h:372-415 | no other operation at such a word ever succeeds |
| KcasTags.NoReadReturnsAtStuck | Benchmark-v700/cpp/common/kcas/kcas_reuse_impl.h:465-475 | no `readPtr` of such a word ever returns |
| KcasWitness.TagStaysForEver | Benchmark-v700/cpp/common/kcas/kcas_reuse_impl.h:297-430 | there is a run in which this happens to the tag of an operation that failed, with a thread reading the word |
| KcasCalls.ReadReturns | Benchmark-v700/cpp/common/kcas/kcas_reuse_impl.h:465-475 | `readPtr` returns what its word stands for in abstract memory at an instant of the call |
| KcasTheorems.ContradictionHasInstant | Benchmark-v700/cpp/common/kcas/kcas_reuse_impl.h:401-413 | whoever votes for failure has seen such a value at such an instant |
| KcasTheorems.SucceededTagStaysAway | Benchmark-v700/cpp/common/kcas/kcas_reuse_impl.h:297-309 | once the tag of a succeeded operation has left an address no stalled RDCSS helper brings it back |
| KcasTheorems.NoReinstall | Benchmark-v700/cpp/common/kcas/kcas_reuse_impl.h:297-309 | the same for one step |
| KcasSort.KcasdescSort | Benchmark-v700/cpp/common/kcas/kcas_reuse_impl.h:434-448 | the sort leaves the entries in order of their addresses, as a permutation, and the rest of the array alone, although `swapped` is never reset |
| KcasSort.SortKeepsProper | Benchmark-v700/cpp/common/kcas/kcas_reuse_impl.h:454-457 | sorting keeps the promise of distinct addresses within memory, and makes the order strict |
| DcssProof.NextKeepsInv | Benchmark-v700/cpp/common/dcss/dcss_impl.h:27-80 | every step, including plain stores of the program, keeps the invariant |
| DcssProof.NextRefines | Benchmark-v700/cpp/common/dcss/dcss_impl.h:27-64 | apart from the program's stores abstract memory changes only when an operation succeeds, and then only its second address, from old2 to new2 |
| DcssTheorems.RunRefines | Benchmark-v700/cpp/common/dcss/dcss_impl.h:27-159 | in every run abstract memory is the initial memory after the stores of the program that change something and the succeeded operations, each operation exactly once, in the order of their steps, each finding old2 when its turn comes; that order is only ever added to |
| DcssTheorems.StoredByProgram | Benchmark-v700/cpp/common/dcss/dcss_impl.h:27-159 | the stores in that list are the program's |
| DcssProof.DcssCallFails | Benchmark-v700/cpp/common/dcss/dcss_impl.h:125-159 | a call that reports a failure at either address never takes effect, before or after |
| DcssCalls.Called | Benchmark-v700/cpp/common/dcss/dcss_impl.h:125-159 | whatever a thread does in `dcssPtr` it does with the arguments of its call, under a tag never used before |
| DcssCalls.Succeeds | Benchmark-v700/cpp/common/dcss/dcss_impl.h:125-159 | a call dcss(addr1, old1, addr2, old2, new2) that returns success takes effect in exactly one step of the call, which takes the second word from old2 to new2 and nothing else, and at an instant of the call no later than that the first word holds old1 while the second is locked |
| DcssCalls.FailsAtFirst | Benchmark-v700/cpp/common/dcss/dcss_impl.h:27-64 | a failure at the first word: at an instant of the call the second word was locked while the first held something other than old1, and the reported value is one the caller itself read there during the call; it never takes effect |
| DcssCalls.FailsAtSecond | Benchmark-v700/cpp/common/dcss/dcss_impl.h:144-158 | a failure at the second word: at an instant of the call the word held the reported value, which is not old2; the call never takes effect and its tag never reached memory |
| DcssCalls.NeverIgnored | Benchmark-v700/cpp/common/dcss/dcss_impl.h:48-64 | no call returns the result that means nothing |
| DcssCalls.ReadReturns | Benchmark-v700/cpp/common/dcss/dcss_impl.h:161-180 | `dcssRead` returns what its word stands for in abstract memory at an instant of the call |
| DcssTheorems.DecidedByAnother | Benchmark-v700/cpp/common/dcss/dcss_impl.h:27-64 | whenever a call reports the expected value for a failure at the first address, another thread decided its operation, having read something else there |
| DcssWitness.ReportsExpected | Benchmark-v700/cpp/common/dcss/dcss_impl.h:27-64 | a run in which a call reports a failure at the first address with the value it had expected there |
| DcssProof.HelpersAgree | Benchmark-v700/cpp/common/descriptors/descriptors_impl2.h:79-104 | all helpers that can still act on a tag agree on the outcome and on the operation |
| DcssProof.TagGoneForEver | Benchmark-v700/cpp/common/dcss/dcss_impl.h:125-159 | once its owner is done with an operation its tag never again appears in memory |
| DcssProof.LateHelperChangesNothing | Benchmark-v700/cpp/common/descriptors/descriptors_impl2.h:79-104 | a helper that took its verdict from a later operation's state field changes nothing |
| DebraProof.NextKeepsInv | Benchmark-v700/cpp/common/recordmgr/reclaimer_debra.h:190-364 | every step keeps the invariant that ties announcements, scans and bags to the epoch; the epoch never falls |
| DebraProof.AtMostOneAdvance | Benchmark-v700/cpp/common/recordmgr/reclaimer_debra.h:272-350 | while one operation of a thread runs the epoch advances at most once, however stale its announcement |
| DebraProof.ScanInRange | Benchmark-v700/cpp/common/recordmgr/reclaimer_debra.h:310-350 | the scan never reads past the last announcement |
| DebraProof.FreedIsSafe | Benchmark-v700/cpp/common/recordmgr/reclaimer_debra.h:190-210 | nothing that a rotation frees was retired while an operation still running was running |
| DebraProof.BagOrigin | Benchmark-v700/cpp/common/recordmgr/reclaimer_debra.h:361-364 | everything in a bag got there by a retirement |
| DebraRuns.Conservation | Benchmark-v700/cpp/common/recordmgr/reclaimer_debra.h:190-364 | whatever is retired is from then on in the bag that was current, or a rotation of its owner has freed it |
| DebraRuns.ThirdRotation | Benchmark-v700/cpp/common/recordmgr/reclaimer_debra.h:190-230 | the third rotation after a retirement finds the object in the bag it may free from, and no earlier one does |
| DebraRuns.RotatesForEveryEpoch | Benchmark-v700/cpp/common/recordmgr/reclaimer_debra.h:250-290 | a thread rotates its bags once for every new epoch it sees |
| DebraRuns.AnnouncesWhatItRead | Benchmark-v700/cpp/common/recordmgr/reclaimer_debra.h:258-262 | an operation works with the epoch of the moment at which it began |
| DebraRuns.ScansSuffice | Benchmark-v700/cpp/common/recordmgr/reclaimer_debra.h:322-344 | if nobody is in an operation of an earlier epoch, after as many scans as there are threads the epoch has moved on or the thread is about to move it |
| DebraRuns.LeavesEpochMoved | Benchmark-v700/cpp/common/recordmgr/reclaimer_debra.h:330-336 | whoever has been about to move the epoch leaves it moved, by itself or by another |
| DebraRuns.OneScanInMinOps | Benchmark-v700/cpp/common/recordmgr/reclaimer_debra.h:322-324 | exactly one in MIN_OPS_BEFORE_READ of the counted operations scans |
| DebraProof.GracePeriod | Benchmark-v700/cpp/common/recordmgr/reclaimer_debra.h:190-364 | when an object leaves a bag every operation that was running at its retirement has ended, for good |
| Cuts.PartOfBlock | dynamic/dynamic_lock.hpp:312-321 | a block lies in exactly one part of a valid cut vector |
| Cuts.BestIsLeast | dynamic/dynamic_lock.hpp:425-437 | no cut vector is cheaper than the value of the recurrence |
| Cuts.BestExists | genetic/genetic_partitioner.hpp:187-205 | the recurrence has a value exactly if there is a block for every part, which is what the pruning relies on |
| Cuts.FollowSplits | dynamic/dynamic_lock.hpp:440-453 | following the recorded last cuts from the right end gives valid cuts whose price is the table's value, hence a cheapest cut |
| Cuts.EvenCuts | genetic/genetic_partitioner.hpp:117-125 | the cuts i * B / K are valid: strictly increasing from 0 to B |
| LockAccounting.CostAccounting | dynamic/dynamic_lock.hpp:331-344 | for any list of queries and any valid cuts the cost computed from the counters is the sum of squared loads plus the penalty times the locks taken beyond the first of each query |
| LockAccounting.CrossingsAreExtraLocks | dynamic/dynamic_lock.hpp:331-344 | the crossings counted at the inner cuts are the locks a query takes beyond its first, summed up |
| LockAccounting.LocksNeeded | dynamic/dynamic_lock.hpp:323-329 | the locks between that of the first and that of the last block are those of the parts the query meets |
| LockAccounting.CheapestForQueries | dynamic/dynamic_lock.hpp:413-454 | a cheapest partition by the counters is a cheapest one for the queries counted |
| Positions.BlockHolds | dynamic/dynamic_lock.hpp:248-250 | every position lies in exactly one block, the last block taking all that is left |
| Positions.BlocksBetween | genetic/genetic_partitioner.hpp:294-296 | the blocks from that of l to that of r are those that hold a position between l and r |
| Positions.BlockSizeIsLeast | dynamic/dynamic_lock.hpp:19 | the block size is the least for which the blocks hold the whole array |
| DynamicLocks.DynamicLock.SpanMeets | dynamic/dynamic_lock.hpp:196-210 | a block is one of those of a range if and only if the range, its ends clamped and ordered, has a position in it |
| DynamicLocks.DynamicLock.SharedPosition | dynamic/dynamic_lock.hpp:41-56 | two ranges that share a position share a block |
| DynamicLocks.DynamicLock.constructor | dynamic/dynamic_lock.hpp:15-38 | the first partition is the even one, the map agrees with it, the counters are zero, the blocks are the least that cover the array and the minimum gain is at least one |
| DynamicLocks.DynamicLock.RefreshBlockToLock | dynamic/dynamic_lock.hpp:312-321 | the one-pass rewrite gives every block the number of its part |
| DynamicLocks.DynamicLock.CountLocksForRange | dynamic/dynamic_lock.hpp:196-210 | the count is the number of parts that the positions of the range lie in, for ends in either order and beyond the array |
| DynamicLocks.DynamicLock.UpdateStats | dynamic/dynamic_lock.hpp:331-344 | one more for each block the range has a position in and for each boundary between two such blocks, and nothing else; the counters are those of the queries counted so far and this one |
| DynamicLocks.DynamicLock.OptimizePartitions | dynamic/dynamic_lock.hpp:413-454 | the result is valid, no valid cut vector is cheaper, and its price is the last cell of the table |
| DynamicLocks.DynamicLock.FillCell | dynamic/dynamic_lock.hpp:425-437 | one cell gets the least price over all last parts, and a last cut that attains it |
| DynamicLocks.DynamicLock.PartitionCost | dynamic/dynamic_lock.hpp:456-470 | the cost is the sum of the squared loads of the parts and the penalties of their left borders |
| DynamicLocks.DynamicLock.HasEnoughPartitionGain | dynamic/dynamic_lock.hpp:472-491 | accepts exactly if the old cost exceeds the new one times the minimum gain, and only strict improvements |
| DynamicLocks.DynamicLock.ResetCollectedStats | dynamic/dynamic_lock.hpp:493-500 | afterwards nothing is counted and the last counters are remembered |
| DynamicLocks.DynamicLock.RebuildPartitions | dynamic/dynamic_lock.hpp:502-548 | if it publishes, the new partition has the required gain for the queries since the last reset, is strictly cheaper for them, and no other is cheaper; if it does not, no partition whatever has the gain |
| RangeLockProof.NextKeepsInv | dynamic/dynamic_lock.hpp:41-100 | every step of queries, rebuilders and the other holders of the bookkeeping mutexes keeps the invariant |
| RangeLockProof.Exclusion | dynamic/dynamic_lock.hpp:41-100 | two threads running `func` never share a block, whatever repartitioning goes on |
| RangeLockProof.HoldsExactlyItsLocks | dynamic/dynamic_lock.hpp:54-99 | a thread running `func` holds exactly the locks of the parts its range meets under the current partition, even if the map was being rewritten between its two reads |
| RangeLockProof.DeadlockFree | dynamic/dynamic_lock.hpp:269-301 | in no reachable state do threads wait for each other in a cycle, and every chain of waiting threads leads on to a lock holder who waits for nobody and can take a step that moves it on |
| RangeLockCalls.WriteQuery | dynamic/dynamic_lock.hpp:41-100 | a query that returns has run `func` exactly once, on its own range, however often it met a rebuild |
| RangeLockCalls.CountedOnce | dynamic/dynamic_lock.hpp:331-344 | a query has been counted in no cell at all, or once in every block of its range and at every boundary within it, and nowhere else |
| RangeLockRebuilds.GateOpens | dynamic/dynamic_lock.hpp:502-548 | the gate is closed, and a rebuild refused, only while a rebuild is under way |
| RangeLockRebuilds.GateHolds | dynamic/dynamic_lock.hpp:54-57 | no query gets past the gate while it is closed |
| RangeLockRebuilds.RefusedOnlyWhileRunning | dynamic/dynamic_lock.hpp:502-508 | a call to rebuild is refused only while another thread is in one, and otherwise begins its snapshot |
| RangeLockRebuilds.GivesUpForAReason | dynamic/dynamic_lock.hpp:517-526 | a rebuild gives up only if its proposal was the current partition or had not the gain when it compared |
| RangeLockRebuilds.PublishesBetter | dynamic/dynamic_lock.hpp:528-548 | a rebuild whose proposal had the gain publishes it before it returns, exactly once |
| RangeLockRebuilds.ResetsEveryCell | dynamic/dynamic_lock.hpp:493-500 | by the time a rebuild has published or given up it has set every counter to zero |
| RangeLockProof.WaitRises | dynamic/dynamic_lock.hpp:517-543 | along a chain of waiting threads the awaited mutex rises in the order locks, partitions mutex, stats mutex |
| RangeLockProof.PublishImproves | dynamic/dynamic_lock.hpp:502-548 | whoever changes the partition took a complete snapshot of the counters, computed an optimum for it and carried that proposal ever since, while nobody else changed the partition; by the snapshot the published partition is cheapest, has the required gain and is strictly cheaper than the one it replaces, whatever queries, counting, resets and other attempts to rebuild interleave |
| RangeLockProof.SnapshotIsRead | dynamic/dynamic_lock.hpp:346-360 | every cell of a snapshot was the value of its counter at an instant while the thread was taking that snapshot |
| Chromosomes.ContentionIsPrice | genetic/genetic_partitioner.hpp:396-404 | the contention score is the price by load |
| Chromosomes.PriceScales | genetic/genetic_partitioner.hpp:432-434 | normalising scales all prices by the same factor |
| Chromosomes.ProfileIsNormalised | genetic/genetic_partitioner.hpp:428-435 | the shares of the blocks add up to one unless nothing was hit |
| Chromosomes.BalancedIsLeastContended | genetic/genetic_partitioner.hpp:164-219 | a partition that is cheapest by the normalised profile has the least contention score of all valid ones, also without any hits |
| Chromosomes.RepairInternalCuts | genetic/genetic_partitioner.hpp:298-319 | any vector of words becomes strictly increasing inner cuts, even if the first pass wraps around; a vector that already is stays |
| Chromosomes.RepairRestores | genetic/genetic_partitioner.hpp:298-319 | when some of the internal cuts are too low, the repair restores them exactly if each of those belongs right above the cut before it |
| Chromosomes.RepairIsLeast | genetic/genetic_partitioner.hpp:298-319 | the repair yields the least vector of internal cuts that is nowhere below the given one as far as there is room, for any vector of words |
| BoundedMoves.RawCutsIntended | genetic/genetic_partitioner.hpp:263-278 | the computed inner cuts are those of the intended move if and only if no 64-bit sum wraps, and then need no repair |
| BoundedMoves.NoRepairNeeded | genetic/genetic_partitioner.hpp:263-281 | the repair leaves the computed inner cuts alone if and only if every one whose sum wraps still lands above the one before it |
| BoundedMoves.WrapsUnrepaired | genetic/genetic_partitioner.hpp:263-281 | from [0, 5, 10] towards [0, 7, 10] with step 2^64 - 3 the sum wraps, no repair is needed and the result is not the intended move |
| BoundedMoves.MovedIsTowards | genetic/genetic_partitioner.hpp:257-282 | the result is the intended move if and only if the target of every cut that wraps is right above where the cut before it goes |
| BoundedMoves.MovedIsValid | genetic/genetic_partitioner.hpp:257-282 | the result is valid for every step |
| BoundedMoves.BoundedMove | genetic/genetic_partitioner.hpp:257-282 | under that condition no cut passes its target or moves further than the step, and the largest remaining distance falls by the step, down to zero |
| BoundedMoves.CallsArrive | genetic/genetic_partitioner.hpp:257-282 | for any positive step, as many calls as the distance divided by the step, rounded up, reach the target if and only if every cut that wraps in the first call has its target right above where the cut before it goes; fewer never do, more stay there |
| BoundedMoves.NeverArrives | genetic/genetic_partitioner.hpp:267-270 | from [0, 1, 3] towards [0, 2, 3] with step 2^64 - 1 no number of calls gets anywhere |
| BoundedMoves.WrapsUnharmed | genetic/genetic_partitioner.hpp:267-281 | from [0, 1, 5, 10] towards [0, 6, 7, 10] with step 2^64 - 5 a sum wraps and the result is the intended move all the same |
| Arrivals.CallsArriveLate | genetic/genetic_partitioner.hpp:257-282 | for any positive step, n calls have reached the target if and only if it is reached at all and n is at least one more than the number of times a harmful cut falls, or the usual number of calls if no cut is harmful |
| Arrivals.TargetReached | genetic/genetic_partitioner.hpp:257-282 | for any positive step, some number of calls reaches the target if and only if every harmful cut wraps together with those before it up to one whose predecessor's target leaves them room below 2^64 minus the step, and all these fall equally often |
| Arrivals.RecoversKept | genetic/genetic_partitioner.hpp:257-282 | with a step that spans every distance no call gains or loses that condition |
| Arrivals.ArrivesLate | genetic/genetic_partitioner.hpp:263-281 | from [0, 5, 10] towards [0, 7, 10] with step 2^64 - 3 it takes two calls and no fewer |
| GeneticPartitioners.GeneticPartitioner.SpanMeets | genetic/genetic_partitioner.hpp:294-296 | the blocks of a query are those that hold a position from its left to its right end; if the ends are swapped, the block that holds both, if any |
| GeneticPartitioners.GeneticPartitioner.BuildBlockProfile | genetic/genetic_partitioner.hpp:414-436 | every entry times the total of hits is the number of hits of its block; all zero without hits |
| GeneticPartitioners.GeneticPartitioner.FindLockForBlock | genetic/genetic_partitioner.hpp:284-292 | a part that contains the block, the last part if none does |
| GeneticPartitioners.FoundLock | genetic/genetic_partitioner.hpp:284-292 | in valid cuts that is the part of the block |
| GeneticPartitioners.GeneticPartitioner.Evaluate | genetic/genetic_partitioner.hpp:373-412 | the contention score is the sum of squared loads of the queries, the average counts locks modulo 2^64, fitness adds 5000 times the average |
| GeneticPartitioners.GeneticPartitioner.MakeLoadBalancedChromosome | genetic/genetic_partitioner.hpp:164-219 | the pruned dynamic program returns valid cuts, a cheapest vector for any profile with positive mass |
| GeneticPartitioners.GeneticPartitioner.FillCell | genetic/genetic_partitioner.hpp:190-203 | starting the last part at `locks - 1` misses no candidate |
| GeneticPartitioners.GeneticPartitioner.UnreachableCells | genetic/genetic_partitioner.hpp:187-190 | the cells beyond min(right, K) that the pruning skips have no value |
| GeneticPartitioners.GeneticPartitioner.BalanceQueries | genetic/genetic_partitioner.hpp:164-219 | balancing the profile of some queries gives the least contention score for those queries |
| GeneticPartitioners.GeneticPartitioner.MoveToward | genetic/genetic_partitioner.hpp:257-282 | computes the result spoken of above: valid for every step, and the intended move exactly if every cut that wraps is harmless |
| GeneticPartitioners.GeneticPartitioner.ActivateComponent | genetic/genetic_partitioner.hpp:533-542 | the current partition stays valid and becomes the result of one call of MoveToward with the component's best one, if there is one, for every step |
| GeneticPartitioners.GeneticPartitioner.RememberBest | genetic/genetic_partitioner.hpp:605-624 | the fitter partition for the queries is kept, the candidate in a tie; other components are untouched |
| HashTables.FindPushedAll | Benchmark-v700/cpp/common/dict.h:252-262 | pushing a chain entry by entry into a table adds exactly its keys |
| HashTables.PushAllOk | Benchmark-v700/cpp/common/dict.h:252-262 | and keeps every entry in the bucket of its hash, the keys distinct and the count right |
| Dicts.MovedChain | Benchmark-v700/cpp/common/dict.h:252-264 | moving a bucket from the old table to the new one changes nothing in the map |
| Dicts.ScanStops | Benchmark-v700/cpp/common/dict.h:243-250 | as long as the old table counts entries there is a non-empty bucket from the rehash index on |
| Dicts.Dict.constructor | Benchmark-v700/cpp/common/dict.h:69-77 | the empty map |
| Dicts.Dict.GetSize | Benchmark-v700/cpp/common/dict.h:229-231 | the sum of both counts is the number of keys |
| Dicts.Dict.Rehash | Benchmark-v700/cpp/common/dict.h:239-278 | keeps the map and the invariant; moves as many buckets with entries as there are steps, unless it has met ten empty buckets a step before that or none is left, and tells which |
| Dicts.Dict.SkipEmpty | Benchmark-v700/cpp/common/dict.h:243-250 | the inner scan stays within the table and gives up after exactly its allowance of empty buckets |
| Dicts.Dict.NextExp | Benchmark-v700/cpp/common/dict.h:324-335 | the smallest admissible exponent whose power of two suffices |
| Dicts.Dict.Expand | Benchmark-v700/cpp/common/dict.h:292-322 | creates the first table or starts a rehash, keeping the map; the target table is the smallest that suffices, and nothing happens exactly if it already has that size |
| Dicts.Dict.Resize | Benchmark-v700/cpp/common/dict.h:147-153 | refuses during a rehash; otherwise leads to the smallest table for all elements |
| Dicts.Dict.ExpandIfNeeded | Benchmark-v700/cpp/common/dict.h:280-290 | succeeds and keeps the map; afterwards a rehash is under way or there is a bucket more than there are entries, and nothing happens if that was so before |
| Dicts.Dict.KeyIndex | Benchmark-v700/cpp/common/dict.h:337-371 | the free slot is in the table insertions go to; a key already there is located and gets no slot |
| Dicts.Dict.FindEntry | Benchmark-v700/cpp/common/dict.h:184-208 | finds an entry exactly if the map has the key, in the middle of a rehash too |
| Dicts.Dict.Get | Benchmark-v700/cpp/common/dict.h:175-182 | the value of the key in the map, if any; takes one step of a rehash under way |
| Dicts.Dict.AddRaw | Benchmark-v700/cpp/common/dict.h:127-145 | adds exactly a new key, else locates the old entry and leaves the map alone; takes one step of a rehash under way |
| Dicts.Dict.Add | Benchmark-v700/cpp/common/dict.h:88-96 | adds a new key and says so, never overwrites |
| Dicts.Dict.Replace | Benchmark-v700/cpp/common/dict.h:98-113 | the key has the value afterwards; tells whether it is new |
| Dicts.Dict.GenericDelete | Benchmark-v700/cpp/common/dict.h:373-408 | removes the key and returns its entry, None exactly if it was not there; takes one step of a rehash under way |
| Dicts.Dict.Unlink | Benchmark-v700/cpp/common/dict.h:166-168 | the same, for the caller to release |
| Dicts.Dict.Delete | Benchmark-v700/cpp/common/dict.h:171-173 | removes the key, true exactly if it was there |
| GsatTrees.PassesSorted | Benchmark-v700/cpp/common/gsat.h:518-542 | a tree that validates holds its items in order and within its bounds |
| GsatTrees.KeptItems | Benchmark-v700/cpp/common/gsat.h:415-435 | without clearing nothing is dropped, with clearing exactly the marked members are |
| Gsats.LastShare | Benchmark-v700/cpp/common/gsat.h:471-514 | once every branch has taken its share of the accesses of a range, at most a rounded-up share is left for the last child |
| Gsats.Gsat.FindSplit | Benchmark-v700/cpp/common/gsat.h:478-488 | the binary search ends one past a position where the child stays below a share, and with its representative a share is reached or the range ends |
| Gsats.Gsat.BuildIdealTree | Benchmark-v700/cpp/common/gsat.h:438-516 | if every range too long for a leaf gets at least one branch: terminates; in-order collection gives back the items; every child of a non-leaf, the last one included, has at most the rounded-up share of accesses; the count is that of unmarked items; sorted items give a tree that validates |
| Delimiters.ShippedDelimiters | Benchmark-v700/cpp/ds/redis_salt/log_delimiter.h:5-13 | for a tree whose items all carry accesses, cleared or not, the constant, the logarithmic and the square-root delimiter, whose root is truncated, give every range too long for a leaf at least one branch, and the items go on carrying accesses |
| Delimiters.ItemsStayAccessed | Benchmark-v700/cpp/ds/redis_sabt/sabt_node.h:98-131 | whatever happens to an item, it counts its insertion and all later accesses, marked or not |
| Delimiters.RunLogDelimiter | Benchmark-v700/cpp/ds/redis_salt/log_delimiter.h:6-12 | the loop returns the rounded-up logarithm |
| Gsats.Gsat.CollectAndClear | Benchmark-v700/cpp/common/gsat.h:415-435 | writes the items to keep, in order, behind those already written, and erases exactly the marked members when clearing |
| Gsats.Gsat.RebuildTree | Benchmark-v700/cpp/common/gsat.h:377-411 | keeps content, order and bounds, drops marked members only as the policy says, is balanced, knows its exact size at every node, and validates if the old tree did; an emptied root becomes an empty root |
| Gsats.Validate | Benchmark-v700/cpp/common/gsat.h:518-542 | accepts exactly the trees with right bounds, order and prefix counts at every level, and then returns the number of unmarked members |
| Fenwick.WalksProgress | Benchmark-v700/cpp/common/bit.h:20-33 | both walks make progress: the first covered element is at most the index, the next cell is beyond it |
| Fenwick.NextCovers | Benchmark-v700/cpp/common/bit.h:20-24 | the next cell covers all that this cell covers |
| Fenwick.NoneBetween | Benchmark-v700/cpp/common/bit.h:20-24 | no cell between two steps of the walk covers the index |
| Fenwick.Init | Benchmark-v700/cpp/common/bit.h:5-16 | the cells stand for the elements of the source, which may be the destination itself |
| Fenwick.Modify | Benchmark-v700/cpp/common/bit.h:18-24 | adds the change to exactly the cells that cover the index |
| Fenwick.Calculate | Benchmark-v700/cpp/common/bit.h:26-34 | the plain prefix sum of the elements the cells stand for, zero for a negative bound |
| Fenwick.RunRepresents | Benchmark-v700/cpp/common/bit.h:18-24 | after any sequence of modifications, those out of range included, the cells stand for the modified elements |
| TaggedStackProof.NextKeeps | Benchmark-v700/cpp/common/recordmgr/lockfreeblockbag.h:57-83 | every step keeps the invariant and is, on the stack, nothing, a pop of the first block or a push |
| TaggedStackProof.PopKeeps | Benchmark-v700/cpp/common/recordmgr/lockfreeblockbag.h:57-72 | a successful pop takes the first block and installs the second as head |
| TaggedStackProof.RunIsStack | Benchmark-v700/cpp/common/recordmgr/lockfreeblockbag.h:57-83 | in every run the bag behaves like an atomic stack |
| TaggedStackProof.SameTagSameChain | Benchmark-v700/cpp/common/recordmgr/lockfreeblockbag.h:26-29 | versions only grow, and while the version is the same nothing has happened |
| TaggedStackProof.StalledPop | Benchmark-v700/cpp/common/recordmgr/lockfreeblockbag.h:57-72 | a pop that succeeds after any stall installs the true successor of the head |
| TaggedStackProof.NotHandedOutTwice | Benchmark-v700/cpp/common/recordmgr/lockfreeblockbag.h:57-83 | between two pops of a block it was pushed back |
| TaggedStackCalls.GetCall | Benchmark-v700/cpp/common/recordmgr/lockfreeblockbag.h:57-72 | a call of getBlock that returns a block has popped that block, once, and cleared its link; one that returns none has popped nothing and found the stack empty |
| TaggedStackCalls.AddCall | Benchmark-v700/cpp/common/recordmgr/lockfreeblockbag.h:74-83 | a call of addBlock that returns has pushed its block, once, in its last step |
| TaggedStackProof.NothingLost | Benchmark-v700/cpp/common/recordmgr/lockfreeblockbag.h:57-83 | the blocks of the chain and those with an owner are all blocks there are |
| TaggedStackProof.EmptyPop | Benchmark-v700/cpp/common/recordmgr/lockfreeblockbag.h:57-72 | no block is returned exactly if the stack was empty when the head was read |

## Left out

- Weak memory order, fences, padding and the wrap-around of 48-bit sequence numbers, epochs and tags.
- The concurrent protocols are state machines and not methods: Dafny methods run alone.
- `helpProcess` of `Benchmark-v700/cpp/common/dcss/dcss_impl.h`: it helps by thread number and can decide an operation before its tag is in memory.
- Initialising writes (`writeInitPtr`, `writeInitVal`) of the multiword compare-and-swap, thread registration and thread numbers that are used again.
- Hardware-transaction and path-validating variants of the multiword compare-and-swap; `scx_provider.h`, `reclaimer_hazardptr.h`, `reclaimer_debraplus.h`, `lockfreeblockstack.h`.
- Limits on the number of entries, of threads and of bits per field in packed words: tags and descriptor words are values with unbounded parts.
- Blocks inside DEBRA's bags: a bag is a set of retired objects and a rotation may free any part of it. `deinitThread` and `debugPrintStatus` are left out.
- Timing, sampling, skew heuristics (`ShouldRebuild`, `HasEnoughSkew`) and the rebuilder thread: whether to rebuild is left open.
- DynamicLocks.DynamicLock.RebuildPartitions: one undisturbed call; the flag, the mutexes and counters that move while a snapshot is taken are those of RangeLock.
- BoundedMoves.CallsArrive, Arrivals.CallsArriveLate and Arrivals.TargetReached: more than 2^63 blocks, which no vector of profile entries can hold, are covered for steps of at most 2^64 minus their number only.
- `kBlocks` and `kLockCnt` are parameters; costs and counters are unbounded, so sums of squares and the `inf` sentinel cannot overflow.
- Doubles are real numbers: gain test, profiles, fitness and access shares are exact; `rebuild_bound` of tree nodes is left out.
- Random search, crossover, mutation and component bookkeeping of the genetic optimiser, and `MakeProfileGuidedChromosome`.
- `genetic/genetic_lock.hpp`: the same protocol as the adaptive range lock.
- Dicts.Dict: chains are sequences in the table and entries have positions instead of addresses, so relinking in place and pointers kept by callers are not captured; the size limit near 2^63, deleters, `ClearHt` and `IsNeedResize` are left out.
- Dicts.Dict.NextExp: sizes are unbounded, so the clamp to exponent 63 for sizes from 2^63 - 1 on is not modelled; tables of that size cannot be allocated.
- Gsats.Gsat: node classes and node builders are reduced to what `gsat_node.h` asks of them, as values; searching, inserting, marking, counting and range collection are left out.
- Gsats.Gsat.CollectAndClear: the list of members is a set of identities, so list order and iterators are not captured.
- Class `Bit` around the Fenwick functions, whose constructor from an array passes source and destination of `Init` the other way round.
- `size` and `sizeInBlocks` of the block bag; blocks are never unmapped, so that a stalled pop may read the link of a block that is in use.
- Benchmark drivers, workload generators, measurement, plotting and printing.
