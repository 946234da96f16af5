# Hybrid-Grid, verified

Hybrid-Grid distributes builds: a coordinator picks a worker for every task, learns from the outcome, keeps books on
its workers, and clients cache results on disk. This project models the parts of it whose correctness is hard to see
from any single function, and proves that they do what they are for. Main results, by component:

* **The LinUCB learner** (`LinUcbModel`, `LinUcb`). The incremental arm (rank-one update of A and b, Sherman-Morrison
  update of the inverse, lazily recomputed theta) refines the batch definition of Algorithm 1 of Li et al. 2010, for any
  dimension: A = I + sum of x x^T, Ainv is its two-sided inverse, theta is the unique minimiser of the ridge objective
  over all recorded outcomes, the exploration width never grows and is at most 1/n after n repetitions, and the order of
  outcomes does not matter. The "should never happen" branches (denominator not positive, negative width) are dead.
* **The dispatch protocol** (`Dispatch`, `DispatchLearning`, `LearnedState`, `WorkerGate`, `ConnPool`). Step systems in
  which every atomic add, locked section and deferred statement of a handler is a step of its own and any number of
  calls interleave freely. Over every run: the coordinator's and the registry's counters balance, no worker ever has
  more than its limit past the admission check, connections are neither duplicated nor leaked. A task id is
  occupied while a call of it holds a pending vector or may still ask for one; as long as no occupied id is taken again,
  every arm update uses the vector of its own task's selection exactly once, whatever the rewards, and taking an occupied
  one can always end in an update with another call's vector. Putting the two components together, each arm ends up as the one
  a sequential learner would have computed from the calls its worker served.
* **The local cache** (`CacheEviction`, `CacheModel`, `CacheUse`, `CacheStore`). For every sequential run, with any pattern of
  file-system failures, it is proved exactly when every lookup agrees with a plain map from keys to bytes: as long as no
  in-place write breaks off visibly over an entry and no reopening revives what the index still lists. A caller can tell
  that a run is safe: no `PutBytes` failed halfway over a present key, and the store was reopened only when the last
  attempt to save the index had worked. The byte count is exact whatever fails; access times are times of last use,
  and eviction removes a minimal prefix of the least recently used keys; a store reopened after a save that worked has the keys,
  sizes, creation times and contents it was closed with (access times and hit counts only as of that save).
* **Cache keys and compiler arguments** (`CacheKey`, `CompilerArgs`, `CommandLine`). Unique decodability of the hashed streams, with the
  exact conditions under which it fails; the exact condition under which parse, print, parse is the identity; and
  what each argument adds to a line, and nothing else.
* **Selection and estimators** (`Selection`, `EpsilonGreedy`, `Heft`, `Registry`). Who is eligible, what each rule picks,
  the running mean, the exponentially weighted average and the truncated integer average.

`LinearAlgebra`, `Counting`, `SortedStrings`, `Common` and `Feedback` hold what these share.

How the code is represented: objects that are updated in place are classes with the same fields, loops are loops; each
such method is proved equal to a function on values, and the theorems are about those functions. Floating-point numbers
are `real`, integers are unbounded (Go's truncating division is written out), a string is a sequence of characters, the
file system is a map from paths to bytes, the index file is the list its JSON stands for. Clock readings, random draws,
circuit-breaker state, file-system failures, square root, feature vectors and the order in which a Go map is traversed
are arbitrary parameters.

Where the code departs from what is written about it, the model follows the code:

* `internal/coordinator/scheduler/heft.go:105-109` says the first observation replaces the hardware prior. It is blended:
  after n observations a share (1 - alpha)^n of it is left (`Heft.PriorFades`), and it is gone exactly when alpha is 1 or
  the prior equalled the first observation (`Heft.PriorReplacedIff`).
* `internal/coordinator/scheduler/linucb.go:142-146` describes the exploration flag as "bonus exceeds mean"; the code sets
  it when the winner is not the candidate with the largest mean. `LinUcb.BonusIsNotExploration` is an input where the two
  differ.
* With a single eligible worker LinUCB returns before a vector is cached (`linucb.go:152-155`), so such calls teach the
  learner nothing.
* The registry's "simple moving average" (`internal/coordinator/registry/registry.go:357-361`) also averages in the time
  of failed tasks without counting them (`Registry.FailureSkewsAverage`); `Registry.FailureKeepsAverageIff` says exactly
  when that leaves the average alone.
* `CompilationKey` writes flags and defines without a boundary; `CacheKey.UnmistakableIff` says exactly which keys have
  no double.
* `PutBytes` writes the final file in place, unlike `Put`; `CacheModel.TornWriteShows` says exactly when a write that
  breaks off is visible to readers.
* A failed save of the index is reported and forgotten. If a delete could neither remove the file nor save the index, a
  reopened store serves the deleted bytes (`CacheModel.DeletedBytesServed`); `CacheModel.ReopenAgreesIff` says exactly
  when reopening is safe.
* A worker that reports success with a negative compile time produces a reward that is not finite
  (`internal/coordinator/server/grpc.go:571-572`), the vector is left behind (`linucb.go:228-230`), and a later call of the
  same task that cached none hands it to another worker's arm (`DispatchLearning.StaleVectorMisfeeds`); so can a task id
  used by two calls in flight (`DispatchLearning.SharedTaskMisfeeds`). `DispatchLearning.SafeToBeginIff` says exactly when
  a task id may be taken; ids that are never reused are always safe (`DispatchLearning.NeverReusedSuffices`).

## Model

| member | source | states |
|---|---|---|
| LinUcbModel.Symmetric | internal/coordinator/scheduler/linucb.go:251-278 | A and Ainv are symmetric after every history |
| LinUcbModel.SelfAdjoint | internal/coordinator/scheduler/linucb.go:251-278 | A v . w = v . A w and Ainv v . w = v . Ainv w after every history, for all v and w |
| LinUcbModel.ShermanMorrison | internal/coordinator/scheduler/linucb.go:251-278 | for any matrices with A (Ainv v) = v, A (Ainv x) = x and Ainv x . v = x . Ainv v, the updated pair is again inverse at v |
| LinUcbModel.RightInverse | internal/coordinator/scheduler/linucb.go:251-278 | A (Ainv v) = v after every history, for all v |
| LinUcbModel.LeftInverse | internal/coordinator/scheduler/linucb.go:251-278 | Ainv (A v) = v after every history, for all v |
| LinUcbModel.ProductIsIdentity | internal/coordinator/scheduler/linucb.go:251-278 | entry by entry, A times Ainv is the identity matrix |
| LinUcbModel.GramMatrix | internal/coordinator/scheduler/linucb.go:272-278 | entry (i, j) of A is that of I + the sum of x x^T over the whole history |
| LinUcbModel.GramAction | internal/coordinator/scheduler/linucb.go:272-278 | v . A w = v . w + the sum of (x . v)(x . w) over the history |
| LinUcbModel.RewardVector | internal/coordinator/scheduler/linucb.go:246-249 | entry i of b is that of the sum of r x over the history |
| LinUcbModel.RewardAction | internal/coordinator/scheduler/linucb.go:246-249 | b . v is the sum of r (x . v) over the history |
| LinUcbModel.WidthIsGram | internal/coordinator/scheduler/linucb.go:204-211 | y . Ainv y is a sum of squares, so the clamp at zero never acts |
| LinUcbModel.DenominatorAtLeastOne | internal/coordinator/scheduler/linucb.go:254-260 | the Sherman-Morrison denominator is at least 1 after every history, so no update is refused |
| LinUcbModel.NormalEquations | internal/coordinator/scheduler/linucb.go:199-202 | theta satisfies the normal equations of the ridge problem |
| LinUcbModel.RidgeShift | internal/coordinator/scheduler/linucb.go:199-202 | how the ridge objective changes when theta is moved by any vector |
| LinUcbModel.ThetaIsRidgeMinimiser | internal/coordinator/scheduler/linucb.go:195-203 | theta minimises the ridge objective over all recorded outcomes, and nothing else does |
| LinUcbModel.WidthStep | internal/coordinator/scheduler/linucb.go:251-270 | exactly how much one outcome changes the width in every direction |
| LinUcbModel.WidthNeverGrows | internal/coordinator/scheduler/linucb.go:204-213 | after any further outcomes the width in any direction is between 0 and what it was |
| LinUcbModel.WidthAfterRepeats | internal/coordinator/scheduler/linucb.go:204-213 | after x was recorded n times among any other outcomes, x . Ainv x is at most 1/n |
| LinUcbModel.OrderIrrelevant | internal/coordinator/scheduler/linucb.go:244-282 | the arm depends only on the collection of outcomes, not on their order |
| LinUcb.DotProduct | internal/coordinator/scheduler/linucb.go:203-206 | the loop computes the inner product |
| LinUcb.MulMatVec | internal/coordinator/scheduler/linucb.go:451-456 | the loops compute the product of the stored matrix and the vector |
| LinUcb.LinUcbArm.constructor | internal/coordinator/scheduler/linucb.go:290-303 | a new arm is the arm of the empty history |
| LinUcb.LinUcbArm.Score | internal/coordinator/scheduler/linucb.go:195-214 | whatever the dirty flag, mean and squared width are those of the whole history |
| LinUcb.LinUcbArm.Record | internal/coordinator/scheduler/linucb.go:244-282 | the in-place updates turn the arm of a history into the arm of that history and one more outcome |
| LinUcb.LinUcbScheduler.constructor | internal/coordinator/scheduler/linucb.go:112-133 | no arms, no pending vectors, alpha defaulted to 0.5 and clamped at 0 |
| LinUcb.LinUcbScheduler.ArmFor | internal/coordinator/scheduler/linucb.go:286-306 | returns the worker's arm, creating the arm of the empty history if there is none |
| LinUcb.LinUcbScheduler.Score | internal/coordinator/scheduler/linucb.go:195-214 | mean and squared width of a worker under everything recorded for it; changes no record |
| LinUcb.LinUcbScheduler.SelectWithDispatchInfo | internal/coordinator/scheduler/linucb.go:147-191 | the admission rule's error, or an offered worker that is the choice below among all offered ones |
| LinUcb.LinUcbScheduler.Choose | internal/coordinator/scheduler/linucb.go:152-191 | whatever other calls record and cache between the candidates' turns: the first candidate with the largest upper confidence bound, each judged by what was recorded at its turn, flagged as exploration when it is not the first with the largest mean; its vector and no other is cached; a single candidate is returned and nothing cached |
| LinUcb.Uninterrupted | internal/coordinator/scheduler/linucb.go:166-179 | with nothing in between, every candidate is judged by what was known at the start |
| LinUcb.WinnerHasLargestBound | internal/coordinator/scheduler/linucb.go:166-180 | theta . x + alpha * root(x . Ainv x) of no candidate, under the records at its turn, exceeds the winner's, and none before it reaches it; the flag compares it with the first candidate of largest theta . x |
| LinUcb.WinnerNotDominated | internal/coordinator/scheduler/linucb.go:166-174 | a candidate with at least the winner's mean has at most its width: the winner is dominated by nobody |
| LinUcb.WinnerIsOptimistic | internal/coordinator/scheduler/linucb.go:166-174 | the reported score is at least the mean of every candidate |
| LinUcb.OthersStayPending | internal/coordinator/scheduler/linucb.go:182-188 | a choice caches the chosen worker's vector under the task and touches no other pending vector |
| LinUcb.BonusIsNotExploration | internal/coordinator/scheduler/linucb.go:142-180 | two unknown workers that look alike: the bonus exceeds the mean, yet the choice is not flagged as exploration |
| LinUcb.LinUcbScheduler.GiveWay | internal/coordinator/scheduler/linucb.go:195-197 | outcomes recorded and vectors cached by others between two scores have exactly their own effect |
| LinUcb.LinUcbScheduler.RecordOutcome | internal/coordinator/scheduler/linucb.go:227-282 | consumes the task's vector and adds one outcome to that worker's record; otherwise changes nothing |
| LearnedState.InStepAlways | internal/coordinator/server/grpc.go:564-577 | over every disciplined interleaving, the outcomes an arm was updated with are, as a collection, those of the calls its worker served with a finite reward |
| LearnedState.ArmIsSequential | internal/coordinator/scheduler/linucb.go:227-282 | over every disciplined interleaving, each arm equals the one computed sequentially from the calls its worker served, and its theta is their unique ridge minimiser |
| LearnedState.SchedulerFollows | internal/coordinator/scheduler/linucb.go:227-282 | in every run, what the scheduler's methods keep as pending vectors and records is what the step system says |
| DispatchLearning.InvAlways | internal/coordinator/server/grpc.go:464-577 | in every disciplined run the pending vectors are exactly those of calls holding one and the updates exactly those of calls past recording with a finite reward |
| DispatchLearning.UpdatesAreFaithful | internal/coordinator/scheduler/linucb.go:227-244 | in every disciplined run every update carries the worker, vector and reward of the one call that caused it, and no call causes two |
| DispatchLearning.SafeToBeginIff | internal/coordinator/scheduler/linucb.go:182-244 | after a disciplined run a Compile call may take a task id exactly when no call occupies it: then every continuation keeps all updates their calls' own, otherwise some continuation does not |
| DispatchLearning.DisciplineIsExact | internal/coordinator/scheduler/linucb.go:182-244 | a run is disciplined exactly when every Compile call in it began where that was safe |
| DispatchLearning.OccupiedTaskMisfeeds | internal/coordinator/scheduler/linucb.go:234-244 | for every call that occupies its task id, one more call of that task can go on to an update that is not its call's own |
| DispatchLearning.RecordedIffFinite | internal/coordinator/server/grpc.go:564-577 | a returned call that cached a vector has had its outcome recorded exactly when its reward was finite, that is unless success came with a negative compile time |
| DispatchLearning.PendingIsHeld | internal/coordinator/scheduler/linucb.go:182-188 | a task is pending exactly when some call of it holds a vector: outcome yet to come, or refused as not finite |
| DispatchLearning.PendingAtRest | internal/coordinator/scheduler/linucb.go:228-242 | with no call in flight the pending keys are exactly the tasks of cached calls that reported success with a negative compile time |
| DispatchLearning.PendingIsInFlight | internal/coordinator/scheduler/linucb.go:182-188 | with no negative compile times and ids distinct in flight, pending keys are tasks in flight and the map is empty when none are |
| DispatchLearning.NeverReusedSuffices | internal/coordinator/server/grpc.go:464-468 | a run whose Compile task ids are never reused is disciplined, whatever the rewards |
| DispatchLearning.TidySuffices | internal/coordinator/server/grpc.go:564-577 | a run without negative compile times on success and with ids distinct among calls in flight is disciplined |
| DispatchLearning.NotFiniteLeaks | internal/coordinator/scheduler/linucb.go:228-230 | a run in which success after -1 ms leaves the call's vector behind |
| DispatchLearning.StaleVectorMisfeeds | internal/coordinator/scheduler/linucb.go:228-244 | a run without overlapping calls in which a left-behind vector reaches another worker's arm |
| DispatchLearning.SharedTaskMisfeeds | internal/coordinator/scheduler/linucb.go:182-188 | a run in which two calls share a task id and one worker's arm is fed the other's vector |
| Dispatch.CountersAlways | internal/coordinator/server/grpc.go:442-640 | in every interleaving activeTasks and queuedTasks are the calls in the matching stretches of their handlers, and totalTasks, successTasks and failedTasks the calls counted in each |
| Dispatch.TotalsBalance | internal/coordinator/server/grpc.go:733-887 | no call is lost or counted twice: the three totals are numbers of calls, and totalTasks = successTasks + failedTasks + calls whose tally is still to come, across cache hits, missing workers and failed connections |
| Dispatch.ActiveWithinQueued | internal/coordinator/server/grpc.go:450-508 | 0 <= activeTasks <= queuedTasks at every step, thanks to the order of the deferred decrements |
| Dispatch.RegistryAlways | internal/coordinator/registry/registry.go:319-368 | in every interleaving a worker's ActiveTasks is the number of calls between its increment and decrement, TotalTasks = Successful + Failed + Active, and Busy implies active tasks |
| Dispatch.TalliesAlways | internal/coordinator/registry/registry.go:351-355 | in every interleaving a worker's SuccessfulTasks and FailedTasks are the calls it released with that outcome |
| Dispatch.AveragesAlways | internal/coordinator/server/grpc.go:548-554 | in every interleaving a worker's successes and average are the recurrence over the reports of the calls released on it, in release order, each once: the reported time for a compilation, zero for a build |
| Dispatch.AveragesInRange | internal/coordinator/registry/registry.go:347-361 | with reported times between 0 and top, averages are too, in every interleaving |
| Dispatch.AveragesPrecise | internal/coordinator/registry/registry.go:357-361 | with successes only, n times the average falls short of the reported sum by at most n(n-1)/2, in every interleaving |
| Dispatch.FirstSuccessIsAverage | internal/coordinator/server/grpc.go:550-554 | the first success of a compilation leaves its reported milliseconds as the average |
| Dispatch.BusyIffActive | internal/coordinator/registry/registry.go:329-365 | in runs without sweeps a worker is busy exactly while it has active tasks and idle otherwise |
| Dispatch.UnhealthyIffSilent | internal/coordinator/registry/registry.go:393-402 | in every interleaving a worker is unhealthy exactly when a sweep found it silent since it was last heard from |
| Dispatch.ListedIffHeard | internal/coordinator/registry/registry.go:56-61 | it passes the registry's health test exactly when no sweep found it silent and it is not silent now |
| Dispatch.InfoIsLastHandshake | internal/coordinator/registry/registry.go:123-139 | the registry shows the capabilities, address and limit of the last handshake |
| Dispatch.ReleaseGuard | internal/coordinator/registry/registry.go:347-349 | at a decrement the worker exists and has a task to take off |
| Dispatch.GaugesAlways | internal/coordinator/server/grpc.go:497-508 | the per-worker gauge is the number of calls between its two updates, in every interleaving |
| WorkerGate.InvAlways | internal/worker/server/grpc.go:154-163 | activeTasks is the number of live calls, and the live calls that incremented no later than a call number at most its ticket |
| WorkerGate.NeverMoreThanMax | internal/worker/server/grpc.go:154-163 | in no interleaving are more than MaxConcurrent calls past the admission check |
| WorkerGate.RefusedIffFull | internal/worker/server/grpc.go:269-276 | in every reachable state, of the calls that were compared exactly those were refused that found at least MaxConcurrent live calls at their increment |
| WorkerGate.TasksBalance | internal/worker/server/grpc.go:163-241 | in every interleaving the three counters are the numbers of calls counted in each, and totalTasks = successes + failures + executing |
| WorkerGate.BoundAttained | internal/worker/server/grpc.go:154-163 | for every limit some run has exactly that many calls inside |
| ConnPool.InvAlways | internal/coordinator/server/grpc.go:48-73 | in every interleaving of get calls: pooled and held connections are open, held ones are unshared, every connection is accounted for, every served call got the pooled one |
| ConnPool.OneConnectionPerAddress | internal/coordinator/server/grpc.go:48-73 | all calls that succeed for an address return the same connection, which is to that address and open |
| ConnPool.EveryConnectionHasOnePlace | internal/coordinator/server/grpc.go:58-73 | every dialled connection is exactly one of closed, pooled, or held by exactly one call between dial and re-lock |
| ConnPool.NoLeakAtRest | internal/coordinator/server/grpc.go:66-72 | with no call in between, an open connection is pooled and is the only open one to its address |
| Registry.InMemoryRegistry.Add | internal/coordinator/registry/registry.go:119-143 | a known worker keeps its counters and is revived, a new one starts idle |
| Registry.InMemoryRegistry.UpdateHeartbeat | internal/coordinator/registry/registry.go:303-317 | stamps the heartbeat and revives; reports an unknown worker |
| Registry.InMemoryRegistry.IncrementTasks | internal/coordinator/registry/registry.go:320-335 | books one task; reports an unknown worker |
| Registry.InMemoryRegistry.DecrementTasks | internal/coordinator/registry/registry.go:338-368 | takes one task off, tallies it, moves the average, returns to idle at zero |
| Registry.InMemoryRegistry.CleanupStaleWorkers | internal/coordinator/registry/registry.go:393-402 | exactly the workers silent for longer than the limit become unhealthy |
| Registry.InMemoryRegistry.ListByCapability | internal/coordinator/registry/registry.go:185-200 | every healthy matching worker exactly once, in any order, and no other |
| Registry.AverageIsRecorded | internal/coordinator/registry/registry.go:357-361 | the recurrence studied is the one repeated DecrementTasks leaves in the record |
| Registry.AverageErrorBound | internal/coordinator/registry/registry.go:357-361 | with n successes only, 0 <= sum of times - n * average <= n(n-1)/2 |
| Registry.AverageStaysInRange | internal/coordinator/registry/registry.go:347-361 | with any mixture of outcomes the average stays between 0 and the largest reported time |
| Registry.FailureKeepsAverageIff | internal/coordinator/registry/registry.go:351-361 | exactly when a failed task leaves the average alone, for times and averages of either sign |
| Registry.FailureSkewsAverage | internal/coordinator/registry/registry.go:351-361 | two successes of 10 and a failure of 0 leave an average of 5 |
| CacheEviction.ExchangeSort | internal/cache/store.go:344-351 | the nested exchange loops leave an access-time-ordered permutation |
| CacheEviction.VictimsAreOldest | internal/cache/store.go:334-363 | no victim was accessed after an entry that stays |
| CacheEviction.VictimsAreMinimal | internal/cache/store.go:353-363 | the victims are the shortest prefix after which the rest fits 80% of the limit, or everything |
| CacheEviction.WithinLimit | internal/cache/store.go:330-363 | after eviction the sizes sum to at most the limit exactly when the limit is not negative |
| CacheEviction.MostRecentSurvives | internal/cache/store.go:334-363 | an entry accessed strictly last and no larger than 80% of the limit survives |
| CacheEviction.GoalIsFourFifths | internal/cache/store.go:355 | the goal is four fifths of the limit, rounded toward zero |
| CacheEviction.NothingEvictedWithinLimit | internal/cache/store.go:330-332 | nothing is evicted from a store within its limit |
| CacheEviction.RecentSurvives | internal/cache/store.go:334-363 | an entry survives when it and all entries accessed no earlier fit the goal together |
| CacheEviction.ListingLoads | internal/cache/store.go:384-387 | loading any listing of a map gives back that map and the sum of its sizes |
| CacheEviction.SectionBalances | internal/cache/store.go:188-195 | every section under the write lock keeps totalSize equal to the sum of the sizes |
| CacheEviction.TotalSizeAlwaysBalances | internal/cache/store.go:188-277 | however the locked sections interleave, totalSize is the sum of the sizes at every release |
| CacheModel.PathsApart | internal/cache/store.go:318-324 | for keys as Sum produces them, a file lies under its key in the directory of the key's first two characters, and files, temporary files and the index never collide |
| CacheModel.FailureIsHarmless | internal/cache/store.go:159-177 | a failed Put, and a failed PutBytes of an absent key, leave every live entry's file as it was |
| CacheModel.OrderAlways | internal/cache/store.go:106-290 | whatever fails, in every sequential run entries are filed under their keys and the byte count is the sum of their sizes |
| CacheModel.StepAgreesIff | internal/cache/store.go:106-290 | an operation on a store that agrees with the plain map leaves it agreeing exactly when it is harmless |
| CacheModel.TornWriteShows | internal/cache/store.go:216-218 | a put whose write did not complete goes unnoticed exactly when it did not change the bytes of a booked key in place |
| CacheModel.ReopenAgreesIff | internal/cache/store.go:366-390 | reopening agrees with the map exactly when everything the index lists and has a file for is booked and was put at the same time |
| CacheModel.ReopenSameIff | internal/cache/store.go:366-390 | reopening changes nothing exactly when the index, as far as it has files, and the books have the same keys and times |
| CacheModel.AgreesIff | internal/cache/store.go:106-290 | a store agrees with the plain map throughout a run, with any failures, exactly when every step is harmless |
| CacheModel.HitsAgreeIff | internal/cache/store.go:106-143 | every lookup at every moment would have answered like the plain map exactly when every step is harmless |
| CacheModel.CarefulAlways | internal/cache/store.go:106-407 | in a careful run every step is harmless, every entry is backed by a file of its size, and the index is in step whenever the last save worked |
| CacheModel.AllSavesWork | internal/cache/store.go:392-407 | where all saves succeed the last one has always worked |
| CacheModel.HitIsLatestPut | internal/cache/store.go:106-143 | in a careful run a lookup answers exactly with the bytes of the latest put not since deleted, cleared, evicted or dropped, unless expired or unreadable |
| CacheModel.WithinLimitAfterPut | internal/cache/store.go:197-201 | in any run a put that reached eviction leaves the byte count within the limit exactly when the limit is not negative |
| CacheModel.ReopenRestores | internal/cache/store.go:366-390 | reopening on an up-to-date index restores keys, sizes, creation times, byte count and contents |
| CacheModel.ReopenAlwaysRestores | internal/cache/store.go:366-407 | in every careful run whose last save worked, reopening restores keys, sizes, creation times, byte count and contents |
| CacheModel.TornBytesServed | internal/cache/store.go:216-218 | a run in which an in-place put breaks off and a lookup answers with what it left |
| CacheModel.DeletedBytesServed | internal/cache/store.go:256-270 | a run in which a delete can neither remove the file nor save the index, and the reopened store serves the deleted bytes |
| CacheUse.AccessTimeIsLastUse | internal/cache/store.go:133-139 | in every run without reopening an entry's access time is that of the last completed put or answered lookup of its key, and its hits are the lookups answered since it was put |
| CacheUse.SavedInEveryDetail | internal/cache/store.go:392-407 | right after a save that worked, reopening gives back the books in every detail |
| CacheUse.VictimsUsedNoLater | internal/cache/store.go:334-363 | no key that a put evicts was used after a key that stays |
| CacheUse.RecentlyUsedSurvives | internal/cache/store.go:353-363 | a key survives a put when it and all keys used no earlier fit four fifths of the limit together |
| CacheUse.JustServedSurvives | internal/cache/store.go:133-139 | a key served last of all survives the next put when both fit four fifths of the limit |
| CacheUse.RoomyPutDropsNothing | internal/cache/store.go:330-332 | a put that keeps the store within its limit drops nothing |
| CacheUse.DiskMatchesBooks | internal/cache/store.go:159-290 | as long as files can be removed, the files are those of the booked keys and no temporary files are left |
| CacheStore.Store.constructor | internal/cache/store.go:84-103 | starts from what the index file lists, or empty when it is missing or unreadable |
| CacheStore.Store.LoadIndex | internal/cache/store.go:366-390 | the loop leaves the listed entries and the sum of the listed sizes |
| CacheStore.Store.SaveIndex | internal/cache/store.go:392-407 | the index then stands for the current entries, or is as a failed write left it |
| CacheStore.Store.EvictIfNeeded | internal/cache/store.go:326-364 | removes an eviction in the sense above, from the books and from the disk |
| CacheStore.Store.Put | internal/cache/store.go:146-201 | books, files and index after a streamed put, on success and on every failure |
| CacheStore.Store.PutBytes | internal/cache/store.go:204-238 | books, files and index after an in-place put, on success and on every failure |
| CacheStore.Store.Get | internal/cache/store.go:106-143 | hit, expiry, unreadable file and absence, with their effects |
| CacheStore.Store.Delete | internal/cache/store.go:256-270 | removes entry and file, and saves the index |
| CacheStore.Store.Clear | internal/cache/store.go:273-290 | removes everything that can be removed, and saves the index |
| CacheKey.EncodeInjective | internal/cache/key.go:32-36 | lists of NUL-free strings with the same stream are the same list |
| CacheKey.StreamsEqualIff | internal/cache/key.go:32-44 | any two lists have the same stream exactly when cutting them at their NULs gives the same pieces |
| CacheKey.FlutterStreamDetermines | internal/cache/key.go:158-182 | NUL-free Flutter streams are equal exactly when all fields and the whole define map are, no config counting as an empty one |
| CacheKey.UnityStreamDetermines | internal/cache/key.go:188-213 | NUL-free Unity streams are equal exactly when all fields and the whole argument map are |
| CacheKey.NulCollides | internal/cache/key.go:158-182 | a flavour with NULs has the stream of another config with a define |
| CacheKey.OrderDoesNotMatter | internal/cache/key.go:46-52 | permuting flags or defines leaves the stream unchanged |
| CacheKey.CompilationStreamDetermines | internal/cache/key.go:103-114 | where dashes tell flags from defines, NUL-free streams are equal exactly when the settings are, up to order |
| CacheKey.UnmistakableIff | internal/cache/key.go:109-110 | NUL-free settings share their stream with no others exactly when some flag sorts after some define, or there are neither |
| CacheKey.KeyBuilder.AddStrings | internal/cache/key.go:39-44 | appends the encoding of the list |
| CacheKey.KeyBuilder.AddSortedStrings | internal/cache/key.go:47-52 | appends the encoding of the sorted list |
| CacheKey.KeyBuilder.AddMap | internal/cache/key.go:166-174 | appends the map's pairs in the order of their keys, in whatever order the map is traversed |
| CacheKey.CompilationStream | internal/cache/key.go:103-114 | the builder's stream for a compilation is the encoding of its pieces |
| CacheKey.FlutterStream | internal/cache/key.go:158-182 | the builder's stream for a Flutter build is the encoding of its pieces |
| CacheKey.UnityStream | internal/cache/key.go:188-213 | the builder's stream for a Unity build is the encoding of its pieces |
| CompilerArgs.Parse | internal/compiler/parser.go:38-146 | the loop yields what cutting the arguments into items and applying them in order yields |
| CompilerArgs.ToArgs | internal/compiler/parser.go:166-187 | the loops print includes, defines, language, flags, inputs and output in this order |
| CompilerArgs.ItemsSpelled | internal/compiler/parser.go:108-117 | recorded flags, pairs such as -march v included, are cut at the same places when parsed again |
| CompilerArgs.FlagsAlone | internal/compiler/parser.go:57-124 | the fields that flags determine depend on the flags alone, whatever stands between them |
| CompilerArgs.RoundTripIff | internal/compiler/parser.go:38-187 | for every command line, parsing what was printed gives the parsed line back exactly when no include directory and no define is empty |
| CompilerArgs.EmptyIncludeBreaks | internal/compiler/parser.go:169-171 | an empty include directory always breaks the round trip |
| CompilerArgs.EmptyDefineBreaks | internal/compiler/parser.go:172-174 | an empty define always breaks the round trip |
| CompilerArgs.DistributableIff | internal/compiler/parser.go:149-163 | distributable exactly when -c is an item of its own and the only input is a source file; then it is no link and has a language |
| CommandLine.OutputAdded | internal/compiler/parser.go:68-75 | -o at the end of a complete line, joined or not, sets the output and nothing else |
| CommandLine.LanguageAdded | internal/compiler/parser.go:95-102 | -x sets the language and nothing else |
| CommandLine.IncludeAdded | internal/compiler/parser.go:77-84 | -I adds one include directory at the end and nothing else |
| CommandLine.DefineAdded | internal/compiler/parser.go:86-93 | -D adds one define at the end and nothing else |
| CommandLine.CompileOnlyAdded | internal/compiler/parser.go:57-59 | -c makes a line compile only and no link |
| CommandLine.PreprocessAdded | internal/compiler/parser.go:61-63 | -E makes a line preprocess and no link |
| CommandLine.AssembleAdded | internal/compiler/parser.go:65-66 | -S is recorded and nothing else |
| CommandLine.StandardAdded | internal/compiler/parser.go:104-106 | -std= sets the standard and is recorded |
| CommandLine.OptimizationAdded | internal/compiler/parser.go:119-121 | -O sets the optimisation level and is recorded |
| CommandLine.ArchitectureAdded | internal/compiler/parser.go:115-117 | -march= sets the architecture and is recorded |
| CommandLine.ArchitectureValueAdded | internal/compiler/parser.go:108-113 | -march v and -mtune v set the architecture and both arguments are recorded |
| CommandLine.FlagAdded | internal/compiler/parser.go:123-124 | any other flag is recorded and changes nothing else |
| CommandLine.DanglingDropped | internal/compiler/parser.go:68-113 | a flag whose value is missing is dropped |
| CommandLine.SourceAdded | internal/compiler/parser.go:205-213 | a file with a source extension, in any case, is an input and gives a line without language and inputs the language of the extension |
| CommandLine.ObjectAdded | internal/compiler/parser.go:215-218 | an object file is an input without a language |
| CommandLine.WordAdded | internal/compiler/parser.go:126-132 | a bare word without a dot is recorded among the flags |
| CommandLine.LanguageOfLine | internal/compiler/parser.go:140-143 | without any -x the language of a line is that of the extension of its first input |
| CommandLine.CompilerKnown | internal/compiler/parser.go:189-203 | wherever it is installed a compiler is known by its name: clang++ before clang before g++ before gcc |
| Selection.FilterByOS | internal/coordinator/scheduler/scheduler.go:361-382 | keeps, in order, the workers of that system or with Docker |
| Selection.EligibleWorkers | internal/coordinator/scheduler/scheduler.go:196-251 | the admission rule: every candidate is listed, healthy, of the right system and within its limit when one more task is booked; an error means that no listed worker is all of these |
| Selection.OfferedHasRoom | internal/coordinator/scheduler/scheduler.go:221-228 | every offered worker is healthy, serves the client's system and stays within its limit, or four, when the task is booked |
| Selection.ErrorMeansNoRoom | internal/coordinator/scheduler/scheduler.go:232-251 | an error means that every listed worker is unhealthy, of the wrong system, or overbooked by one more task |
| Selection.EligibleExactly | internal/coordinator/scheduler/epsilon_greedy.go:163-215 | offered are exactly the healthy fitting workers with room whose circuit is closed, or all of them when all are open; never none |
| Selection.ErrorExactly | internal/coordinator/scheduler/linucb.go:309-358 | an error exactly when no listed worker is usable, "no workers" exactly for an empty registry |
| Selection.OrderIndependent | internal/coordinator/scheduler/heft.go:160-209 | another listing order offers the same workers, or gives the same error |
| Selection.PickTwo | internal/coordinator/scheduler/scheduler.go:332-343 | two different positions within range |
| Selection.PickTwoIsFair | internal/coordinator/scheduler/scheduler.go:332-343 | every ordered pair of different positions comes from exactly one pair of draws |
| Selection.SelectP2C | internal/coordinator/scheduler/scheduler.go:195-271 | the admission rule's error, or an offered worker that is not the strictly lowest scorer of two or more |
| Selection.ChooseP2C | internal/coordinator/scheduler/scheduler.go:253-271 | the better of the two drawn; with two or more candidates never one that scores strictly below all others |
| EpsilonGreedy.MeanStep | internal/coordinator/scheduler/epsilon_greedy.go:124-126 | the incremental update of a mean is the mean of the longer list |
| EpsilonGreedy.EpsilonGreedyScheduler.constructor | internal/coordinator/scheduler/epsilon_greedy.go:58-72 | starts empty with epsilon clamped to [0, 1] |
| EpsilonGreedy.EpsilonGreedyScheduler.RecordOutcome | internal/coordinator/scheduler/epsilon_greedy.go:113-127 | the estimate stays exactly the mean of all finite rewards recorded for the worker |
| EpsilonGreedy.EpsilonGreedyScheduler.QValue | internal/coordinator/scheduler/epsilon_greedy.go:131-138 | the mean of everything recorded, zero for nothing |
| EpsilonGreedy.EpsilonGreedyScheduler.ArgmaxQ | internal/coordinator/scheduler/epsilon_greedy.go:143-159 | the first candidate with the highest mean |
| EpsilonGreedy.EpsilonGreedyScheduler.SelectWithDispatchInfo | internal/coordinator/scheduler/epsilon_greedy.go:86-106 | the admission rule's error, or an offered worker chosen as below among all offered ones |
| EpsilonGreedy.EpsilonGreedyScheduler.Choose | internal/coordinator/scheduler/epsilon_greedy.go:91-105 | explores exactly below epsilon with more than one candidate, otherwise picks the first best |
| EpsilonGreedy.UntriedPickedIff | internal/coordinator/scheduler/epsilon_greedy.go:143-159 | exactly when a greedy pick takes an untried worker |
| EpsilonGreedy.NegativeRewardsFavourUntried | internal/coordinator/server/grpc.go:564-577 | with only negative rewards a greedy pick never takes a tried worker while an untried one is eligible |
| Ewma.EWMA.constructor | internal/coordinator/metrics/ewma.go:18-25 | uninitialised, with the given smoothing factor, or one half where it is not in (0, 1] |
| Ewma.EWMA.Update | internal/coordinator/metrics/ewma.go:28-40 | the first value is taken as is, later ones are blended in |
| Ewma.EWMA.Reset | internal/coordinator/metrics/ewma.go:50-55 | back to uninitialised |
| Ewma.ClosedForm | internal/coordinator/metrics/ewma.go:28-40 | after n updates a share (1 - alpha)^n of the old value is left, plus the weighted sum of the new ones |
| Ewma.StaysBetween | internal/coordinator/metrics/ewma.go:28-40 | the average stays between any bounds on what it was fed |
| Heft.HeftScheduler.constructor | internal/coordinator/scheduler/heft.go:63-75 | starts empty with the given smoothing factor, or 0.3 where it is not in (0, 1] |
| Heft.HeftScheduler.SelectWithDispatchInfo | internal/coordinator/scheduler/heft.go:87-128 | the admission rule's error, or an offered worker chosen as below among all offered ones |
| Heft.HeftScheduler.Choose | internal/coordinator/scheduler/heft.go:92-127 | the first candidate with the earliest finish time, cold ones judged by and left with their prior; flags exploration exactly when all were cold |
| Heft.WinnerFinishesFirst | internal/coordinator/scheduler/heft.go:119-127 | (active tasks + 1) times the average of no candidate is less than the winner's, and of none before it as small |
| Heft.WinnerIsLeastLoaded | internal/coordinator/scheduler/heft.go:119-125 | among equal averages the winner has the fewest tasks, among equal loads the smallest average |
| Heft.SeedIsPrior | internal/coordinator/scheduler/heft.go:110-115 | a cold candidate is judged by and left with 800 ms over the root of its cores in units of four, four cores where unknown |
| Heft.HeftScheduler.RecordOutcome | internal/coordinator/scheduler/heft.go:133-147 | feeds the registry's average in whole milliseconds and counts the observation, when there is one |
| Heft.SeedingWarms | internal/coordinator/scheduler/heft.go:102-118 | a selection gives every cold candidate its prior and changes no worker that had an estimate |
| Heft.PriorFades | internal/coordinator/scheduler/heft.go:104-115 | after n observations the prior still moves the estimate by (1 - alpha)^n times its distance from the first observation |
| Heft.PriorReplacedIff | internal/coordinator/scheduler/heft.go:105-115 | observations replace the prior exactly when alpha is 1 or it equalled the first observation |

## Left out

- gRPC transport, TLS, tracing, Prometheus metrics, event notification, logging, mDNS and the dashboard: plumbing without a property of its own.
- Circuit breaker and retry internals: an open circuit is an arbitrary predicate.
- xxhash: what is proved is about the stream before hashing, never about collisions of the hash.
- Floating-point rounding, NaN inside matrices, integer overflow, and the values of log and sqrt.
- `matchesCapability`, `featureVector` and `scoreWorker`: arbitrary functions here; table lookups and straight-line sums.
- `SimpleScheduler` and `LeastLoadedScheduler`: easy, and the latter ignores capacity on purpose.
- A capacity bound on the coordinator's side: selecting and booking are separate steps, so there is none; the worker's gate is where the bound holds.
- `Registry.Remove` and `UpdateState`: nothing in the repository outside its tests calls them, and the accounting would not survive them.
- `connPool.closeAll`: it runs once the server has stopped.
- The coordinator's in-memory Flutter and Unity result caches: a lookup is an arbitrary hit or miss.
- The cache under concurrency beyond the byte count: files are written outside the lock, so contents are treated for sequential runs only; and a crash in the middle of an operation.
- JSON encoding of the index, path cleaning by `filepath.Join` (the identity on the keys considered), Windows file-name rules, and read errors after a file was opened.
- EpsilonGreedyScheduler.SelectWithDispatchInfo reads the reported estimate at the moment of the choice; the code takes the lock again for it, so an outcome recorded meanwhile can show in the logged value.
- Store reads the clock once per operation; `Get` in the code reads it once for expiry and once for the access time.
- Path and argument sanitising, MSVC flags, executors, Docker, archives, capability detection, configuration, Makefile and graph handling.
- HeftScheduler keeps its averages as values in its map instead of as shared objects; no two workers ever share one.
- Strings in `CompilerArgs` are lower-cased for ASCII letters only, and paths are separated by `/`.
- FlutterPieces and UnityPieces share one config type; the platform enters by its printed name.
