# Eviction request controller: verification model

A Dafny 4.11 model of the controller for KEP-4563 eviction requests. The controller hands a request from
interceptor to interceptor in priority order, replaces an interceptor whose heartbeat has expired, and evicts the
pod when none is left. Several workers reconcile private copies of the same object; every status write goes through
an API server that refuses copies of old versions.

`dafny verify dfyconfig.toml` checks the whole project.

## Structure

| file | content |
|---|---|
| `Types.dfy` | API values |
| `Priority.dfy`, `Conditions.dfy`, `Deadline.dfy` | the sort, the condition list, Go's 32/64-bit arithmetic |
| `Reconcile.dfy` | one reconcile as a program of single interactions (`Next`), its sequential run (`Finish`), and an independent decision table (`FirstWrite`) |
| `Script.dfy` | one reconcile written out in one piece, every call and message spelled out: the reference for the step program and the methods |
| `Cursor.dfy` | position in the interceptor list, progress, order independence |
| `System.dfy`, `Invariants.dfy`, `Protocol.dfy` | any number of queued copies, the versioned store, pod cache, clock and interceptors, interleaved one interaction at a time; what holds in every run |
| `Effects.dfy` | what leaves the controller in any run: the pods it names, the reports it stores |
| `Windows.dfy` | when, how and by whose heartbeat the turn of an interceptor ends |
| `Chains.dfy` | every run as rows of sequential reconciles |
| `Sequential.dfy` | runs in which writes fail only by being stale |
| `Limits.dfy` | runs showing where the properties end |
| `Objects.dfy`, `Handlers.dfy` | requests as objects with pointers and slices; deep copy; the controller's methods on them, tied to `Next` |
| `Queue.dfy`, `Worker.dfy` | the work queue under any interleaving of workers; the worker's methods |

The same step function `Next` drives both layers and follows the script (`Script.ReconcileIsScripted`): the methods of
`Handlers.dfy` perform exactly `Finish` on a mutable object, and `Protocol.AttemptIsReconcile` shows that every attempt inside the interleaved system is such a run, with
the same calls.

A status write has one of five fates: accepted, stored with the reply lost, accepted without effect, refused as
stale, or failed without effect. "Stale only" below means that replies are never lost and writes never fail
otherwise. The outside world (pod cache, clock, eviction API, server replies) is arbitrary: an answer function for the
methods, labels of steps for the system.

Assumptions: interceptor classes are distinct and non-empty (map list keyed by a hostname,
apis/evictionrequest/v1alpha1/types.go:102-103 and 139-146), the spec is immutable, interceptors never write `activeInterceptorClass`, and the order of equal priorities
is a fixed but arbitrary function of the list.

## Where code and documentation differ

The code is modelled as it is; `types.go` is apis/evictionrequest/v1alpha1/types.go.

* types.go:106-110 lets each interceptor answer within the heartbeat deadline. A handover keeps
  `activeInterceptorCompleted` and the old heartbeat, so the next reconcile hands over again at once
  (`Cursor.CompletedSweeps`), and an interceptor that has cleared the flag can be found expired by its predecessor's
  heartbeat at the very time it was selected (`Limits.PredecessorsHeartbeatExpires`). Over any run, an active
  interceptor is left by its own doing, an answer or a heartbeat it stored while active, if and only if it answered, or
  the flag was down when it had stored a heartbeat (`Windows.OwnWindowIffEngaged`; up to an eviction,
  `Windows.LastWindowIffEngaged`, if the stored flag is up at the call or no handler write of the copy had failed).
  A heartbeat that expires was stored after the selection if and only if an interceptor stored one since, and is
  otherwise the one the handover took over; if it is not older than the selection, the deadline has passed since then
  (`Windows.ExpiringHeartbeat`), and if it is older, it can expire before that (`Deadline.EarlyIffOlder`).
* types.go:107-110 evicts when no interceptor is left. An eviction can come while the stored request is still with its
  last interceptor: a refused write stays in the requeued copy, which then moves on (`Limits.StaleCopyEvictsEarly`),
  or the interceptor clears the completed flag after the copy was made (`Limits.ClearedCopyEvictsEarly`). The stored
  status is final at the call if and only if the store has moved on from the snapshot by exactly as many steps as
  the copy has failed to store (`Protocol.EvictionAgainstStored`). When writes fail only by being stale, a copy of the stored version never evicts
  early (`Sequential.FreshCopyEvictsInTurn`).
* types.go:148-149 selects higher priorities first. With transient failures an interceptor can be skipped
  (`Limits.TransientFailureSkips`); the class moves by one rank for the write, if it is one of the handler, and one for
  every earlier failed handler write of the copy, less one if the flag was turned true on the way, and an interceptor
  is skipped if and only if that is two or more (`Protocol.SkippedStepsAreFailedWrites`).
* types.go:276 only lets the failure counter increase. It is an int32 that wraps (`Limits.CounterWraps`); a write
  keeps it from falling if and only if the sum fits (`Protocol.CounterRiseIsExact`).
* The target is fixed by name and UID (types.go:122-133), but the second lookup does not compare the UID
  (`Limits.ReplacedPodIsEvicted`, exact condition in `Protocol.TargetIntegrity`).

## Model

| member | source | states |
|---|---|---|
| `Sequential.ConcurrentRefinesSequential` | pkg/worker/worker.go:100-146 | stale only: with any number of workers and stale copies, every stored controller write is the first write one reconcile of the then stored object could make alone, and counts at most one failure |
| `Chains.ConcurrentRefinesChains` | pkg/worker/worker.go:100-146 | in every run, whatever fails: a stored controller write ends a row of first writes of reconciles run alone, starting from the status stored before it, of one more than the writes its copy had sent earlier, and counts at most one failure for each |
| `Sequential.HandoverIsOrdered` | pkg/reconciler/interceptor/interceptor.go:86-114 | stale only, starting without an active class: the distinct classes ever stored are a prefix of the priority-sorted list, each once, none skipped |
| `Protocol.NoLostUpdates` | pkg/reconciler/interceptor/interceptor.go:79-147 | in every run a stored controller write keeps heartbeat, expected finish, message, a chosen policy and all other conditions; the class only moves to a listed one of higher rank, completed only turns true, the policy is never left empty |
| `Protocol.HandoverIsJustified` | pkg/reconciler/interceptor/interceptor.go:59-65 | in every run a stored handover away from a selected interceptor happens only if the stored status says completed or the stored heartbeat has expired by then |
| `Protocol.TimeoutIsSound` | pkg/reconciler/interceptor/interceptor.go:117-137 | when a write turning completed to true is stored, the stored heartbeat exists and is older than the deadline, in seconds of 1_000_000_000 ns, at that moment |
| `Protocol.RankNeverDecreases` | pkg/reconciler/interceptor/interceptor.go:86-114 | in every run the rank of the stored class is monotone over all versions |
| `Protocol.SkippedStepsAreFailedWrites` | pkg/reconciler/interceptor/interceptor.go:110-147 | a stored write moves the class by exactly the handler writes its copy has tried, less one if completed turned true; a listed interceptor is skipped if and only if that is at least two |
| `Protocol.EvictionIsJustified` | pkg/reconciler/interceptor/interceptor.go:86-97 | every eviction call comes from a completed copy at the last rank or unlisted, whose flag was in its snapshot or came from an expired snapshot heartbeat; the snapshot was itself final if and only if no handler write of the copy failed |
| `Protocol.EvictionAgainstStored` | pkg/reconciler/interceptor/interceptor.go:86-97 | at every eviction call the stored status is final if and only if its progress since the snapshot equals the number of failed handler writes of the copy; hence, for a copy of the stored version, if and only if there were none, and for a copy without any, if and only if the stored flag is up |
| `Sequential.FreshCopyEvictsInTurn` | pkg/reconciler/interceptor/interceptor.go:86-97 | stale only: a copy of the stored version evicts only when the stored status is final |
| `Windows.OwnWindowIffEngaged` | pkg/reconciler/interceptor/interceptor.go:86-137 | over any run, for a class stored from v and left at w: some turn of it ended (answer or expiry) if and only if the flag was down, after a handover if and only if an interceptor cleared it; one ended by an answer or by a heartbeat stored since v if and only if it answered, or the flag was down when it had stored a heartbeat |
| `Windows.LastWindowIffEngaged` | pkg/reconciler/interceptor/interceptor.go:86-137 | the same up to every eviction call at which the stored flag is up, and up to the snapshot of a copy without failed handler writes |
| `Windows.ExpiringHeartbeat` | pkg/reconciler/interceptor/interceptor.go:117-137 | in every run the heartbeat that expires was stored since v if and only if an interceptor stored one since v, and otherwise is the one version v had; if v is a controller write and the heartbeat is not older, the deadline has passed since v |
| `Protocol.OneWritePerCopy` | pkg/reconciler/reconciler.go:78-93 | over all retries and write sites a queued copy stores at most one version, the one after its snapshot |
| `Protocol.WonCopyIsRefused` | pkg/reconciler/reconciler.go:78-93 | after a stored write (such as the policy default) every later write of the copy is refused and stores nothing |
| `Protocol.NoFailureCountedTwice` | pkg/reconciler/status/status.go:81-97 | below the int32 limit controller writes never lower the counter, and their total rise is at most the number of failed eviction calls |
| `Protocol.CounterRiseIsExact` | pkg/reconciler/status/status.go:81-97 | a write adds the failures of its copy exactly, if and only if the sum fits int32 |
| `Protocol.TargetIntegrity` | pkg/reconciler/eviction/eviction.go:61-85 | an eviction call, as made and as logged, names the target's namespace and name; its first lookup saw the spec's UID, and it names that UID if and only if the second lookup saw it too |
| `Protocol.MismatchDoesNothing` | pkg/reconciler/reconciler.go:62-76 | in every run each copy about to write or evict, each stored controller version and each eviction call comes after a first lookup of the same attempt that found the pod with the spec's UID |
| `Protocol.AttemptIsReconcile` | pkg/worker/worker.go:148-177 | in every run an attempt, finished or not, is one sequential reconcile of the copy it began with under the answers it got: same calls, same status, same verdict, one answer per call |
| `Invariants.ReachableInv` | pkg/worker/worker.go:100-146 | the system invariant holds at the end of every run |
| `Invariants.AdvanceKeeps` | pkg/reconciler/reconciler.go:61-94 | every single interaction of a reconcile keeps the relation between a copy and its snapshot, whatever is answered |
| `Limits.StaleCopyEvictsEarly` | pkg/worker/worker.go:127-131 | for every request with two or more interceptors a stale-only run evicts while the stored status is with the last interceptor and not completed, from a copy with a refused write |
| `Limits.ClearedCopyEvictsEarly` | pkg/worker/worker.go:127-131 | for every request with interceptors a stale-only run does so without any refused write |
| `Limits.PredecessorsHeartbeatExpires` | pkg/reconciler/interceptor/interceptor.go:79-128 | for every request with a deadline and three or more interceptors a stale-only run selects one, which clears the flag, finds it expired by the heartbeat of its predecessor, and moves on, all at the same clock reading |
| `Limits.TransientFailureSkips` | pkg/worker/worker.go:127-131 | for every request with three or more interceptors a run with one transient failure skips one in the stored history |
| `Limits.ReplacedPodIsEvicted` | pkg/reconciler/eviction/eviction.go:61-81 | for every request there is a stale-only run in which a pod replaced between the two lookups is evicted instead of the target |
| `Limits.CounterWraps` | pkg/reconciler/status/status.go:85 | for every request there is a stale-only run in which a reported failure makes the stored counter fall from the int32 limit to its minimum |
| `Reconcile.FirstWriteOfReconcile` | pkg/reconciler/reconciler.go:61-94 | the first status a reconcile writes, when both its lookups get the same answer, is the one given by the decision table |
| `Reconcile.FailsExactlyWhenTroubled` | pkg/reconciler/reconciler.go:61-94 | a reconcile ends in an error if and only if a lookup failed, the eviction call failed, or a write other than the report of an eviction was refused |
| `Script.ReconcileIsScripted` | pkg/reconciler/reconciler.go:61-94 | for every status and all answers the step program makes exactly the calls of the script, in its order and with its contents, and ends with its status and verdict |
| `Script.DefaultIsFollowedByTurn` | pkg/reconciler/reconciler.go:78-93 | once the policy default is stored the reconcile goes on and writes what the decision table says for a request with a policy; if storing it fails it does nothing more and returns the error |
| `Script.CallsNameTarget` | pkg/reconciler/eviction/eviction.go:61-81 | every lookup of a reconcile names the target, and its eviction call names namespace and name of the pod the second lookup has just found |
| `Script.EvictionIsAnnounced` | pkg/reconciler/eviction/eviction.go:80-90 | after an eviction call the last status is written and the reconcile ends, with an error if and only if the call failed; the status shows Evicted True, EvictionSucceeded, or Evicted False, EvictionFailed, as the call ended, and counts only a failure, from zero, by one, with wrap-around |
| `Effects.EveryCallNamesTarget` | pkg/reconciler/eviction/eviction.go:61-81 | in every run each lookup and each eviction call of every attempt names the target's namespace and name |
| `Effects.StoredReportIsTrue` | pkg/reconciler/eviction/eviction.go:80-90 | in every run a stored report shows truly how the eviction call of its attempt ended, the only call its copy made since its previous status write |
| `Cursor.NamesRefineCursor` | pkg/reconciler/interceptor/interceptor.go:51-114 | storing a class name makes the decisions of an index into one sorted list, over all sequences of observations, if and only if classes are distinct and non-empty |
| `Cursor.HandlerMovesCursor` | pkg/reconciler/interceptor/interceptor.go:51-137 | the three states of the handler decide as an index machine at the rank of the stored class, and a handover stores the class whose rank is the next index |
| `Cursor.WellNamedIffDistinct` | pkg/reconciler/interceptor/interceptor.go:100-107 | finding the class at an index returns that index, for all indices, if and only if classes are distinct and non-empty |
| `Cursor.OrderIndependence` | pkg/reconciler/interceptor/interceptor.go:69-107 | with distinct priorities, permuted interceptor lists give the same calls and the same copy for every status and all answers |
| `Cursor.EvictsExactlyWhen` | pkg/reconciler/reconciler.go:61-94 | a reconcile calls the eviction API if and only if the first lookup finds the target, the policy is set or its default is stored, all interceptors are through, and the second lookup finds a pod |
| `Sequential.QuietSystemIsShort` | pkg/reconciler/interceptor/interceptor.go:51-137 | stale only, any number of workers, no other writer: the reconcile of a stored version evicts if and only if the version is past the writes the first one had left, at most n+2 |
| `Cursor.QuietRunIsShort` | pkg/reconciler/interceptor/interceptor.go:51-137 | the same count over any chain of first writes |
| `Cursor.CompletedSweeps` | pkg/reconciler/interceptor/interceptor.go:86-114 | from rank i with completed set the next writes are the handovers to i+1, i+2, ... at any clock, and the reconcile after k of them calls the eviction API if and only if i+k is the last rank |
| `Priority.SortIsPriorityOrder` | pkg/reconciler/interceptor/interceptor.go:68-76 | the sort returns a descending permutation |
| `Priority.PriorityOrderUnique` | pkg/reconciler/interceptor/interceptor.go:68-76 | with distinct priorities that permutation is unique |
| `Conditions.ListSummarizesLog` | pkg/reconciler/status/status.go:40-66 | after any upserts types stay distinct, positions are kept, and each type reports its last upsert, dated by the start of its latest unbroken run of equal status |
| `Conditions.SummaryUnique` | pkg/reconciler/status/status.go:50-62 | that summary determines the reported condition |
| `Conditions.UpsertKeepsOthers` | pkg/reconciler/status/status.go:51-66 | entries of other types are untouched, for any list |
| `Deadline.TimeoutIsExact` | pkg/reconciler/interceptor/interceptor.go:118-120 | the 64-bit saturating comparison gives the verdict of exact integers, in nanoseconds, for every int32 deadline in seconds |
| `Deadline.TimeoutIsStable` | pkg/reconciler/interceptor/interceptor.go:118-120 | an expired heartbeat stays expired |
| `Deadline.EarlyIffOlder` | pkg/reconciler/interceptor/interceptor.go:118-120 | an interceptor can be found expired within the deadline of its selection if and only if the heartbeat is older than its selection (and the deadline not negative) |
| `Handlers.ReconcileEvictionRequest` | pkg/reconciler/reconciler.go:61-94 | calls, resulting status and error are those of the step program and of the script; the first call looks up the pod the object refers to; spec, identity and version stay, only the object, its conditions and its counter are written |
| `Handlers.Proceed` | pkg/reconciler/reconciler.go:78-93 | policy default and its write, then, if that is stored, the handlers, as the script has it |
| `Handlers.HandleInterceptors` | pkg/reconciler/interceptor/interceptor.go:51-66 | Handle on the object is the step program from its dispatch |
| `Handlers.SortInterceptors` | pkg/reconciler/interceptor/interceptor.go:68-76 | sorts a fresh list in place into the sorted order of the argument, which is not modified |
| `Handlers.SortedContextIsWellFormed` | pkg/reconciler/interceptor/interceptor.go:68-76 | the sorted list is a priority order of the spec, so every protocol result applies to it |
| `Handlers.SortDenotes` | pkg/reconciler/interceptor/interceptor.go:69-75 | sorting lists of pointers and lists of values moves corresponding entries alike |
| `Handlers.FindInterceptorIndex` | pkg/reconciler/interceptor/interceptor.go:100-107 | first index of the class, or -1 |
| `Handlers.SelectInterceptor` | pkg/reconciler/interceptor/interceptor.go:79-83 | the class pointer is set into the sorted list and written |
| `Handlers.HandleCompletedInterceptor` | pkg/reconciler/interceptor/interceptor.go:86-97 | next in order, or eviction |
| `Handlers.CheckInterceptorTimeout` | pkg/reconciler/interceptor/interceptor.go:117-128 | reads the clock only with deadline and heartbeat; completed ends up true if and only if the heartbeat is more than that many seconds of 1_000_000_000 ns old, else it waits |
| `Handlers.MarkInterceptorAsCompleted` | pkg/reconciler/interceptor/interceptor.go:131-137 | sets the flag and writes |
| `Handlers.UpdateEvictionRequestStatus` | pkg/reconciler/interceptor/interceptor.go:140-147 | one write of the object, which itself stays unchanged |
| `Handlers.Perform` | pkg/reconciler/eviction/eviction.go:54-91 | second lookup, eviction call of the pod found, true report, errors of the report ignored, all as the script has it; without a pod reference a Ready condition is written, nothing is looked up or evicted, and the call fails |
| `Handlers.UpsertCondition` | pkg/reconciler/status/status.go:40-78 | condition upserted in place or appended, policy defaulted, one write, its error returned |
| `Handlers.PutCondition` | pkg/reconciler/status/status.go:50-66 | the scan equals the functional upsert |
| `Handlers.IncrementFailedEvictionCounter` | pkg/reconciler/status/status.go:81-97 | counter created if missing and incremented with wrap-around, condition Evicted False with reason EvictionFailed, one write |
| `Objects.EvictionRequest.DeepCopy` | apis/evictionrequest/v1alpha1/zz_generated.deepcopy.go:14-31 | equal value, all pointees fresh, nil slices and pointers kept nil |
| `Objects.DeepCopySpec` | apis/evictionrequest/v1alpha1/zz_generated.deepcopy.go:75-96 | spec struct of equal value with fresh pointees |
| `Objects.DeepCopyStatus` | apis/evictionrequest/v1alpha1/zz_generated.deepcopy.go:109-137 | status struct of equal value with fresh pointees, also when the class points into a list |
| `Objects.CopyInterceptors` | apis/evictionrequest/v1alpha1/zz_generated.deepcopy.go:83-89 | elements copied one by one, each with its own role |
| `Worker.Enqueue` | pkg/worker/worker.go:53-73 | a request is appended as a new deep copy of the same name and version, never merged with another; other objects are ignored |
| `Worker.ProcessNextWorkItem` | pkg/worker/worker.go:100-146 | Get, one reconcile, requeue if and only if it fails, Done; the object keeps version, name, namespace and spec; a foreign item is dropped |
| `Worker.SyncCopy` | pkg/worker/worker.go:127-135 | any number of attempts on a queued copy, each from what the last one left, always of the version copied |
| `Worker.CacheIsIsolated` | pkg/worker/worker.go:72 | however often its queued copy is synced, the cached object keeps its fields and its value |
| `Queue.QueueConserves` | pkg/worker/worker.go:100-146 | under any interleaving no item is queued twice or held by two workers, none is lost before shutdown, Get and Done match, and an item is gone for good only after a sync without error or as invalid |
| `Queue.ShutdownDropsRetries` | pkg/worker/worker.go:76-89 | after shutdown an item whose sync fails is nowhere in the queue and not retired |
| `Queue.RetiredForGood` | pkg/worker/worker.go:133-137 | an item that is gone stays gone, with the same outcome |
| `Queue.LifeCycle` | pkg/worker/worker.go:100-146 | until shutdown every step of the pool moves a copy through queued, in sync, and queued again or gone, as the protocol's steps do |
| `Queue.UninterruptedPass` | pkg/worker/worker.go:100-138 | a worker's pass that nothing interrupts is Get, outcome and Done of the machine |

## Left out

- Generated clients, listers, informers and the fake clientset: replaced by an abstract versioned store and lookups.
- Leader election, lifecycle hooks and informer start-up (pkg/controller/controller.go): only "an event enqueues a copy of some stored version" is kept.
- Wiring and configuration (cmd/main.go, pkg/config, module files), logging and contexts.
- Real time: the clock is a monotone integer, rate-limiter delays are an unordered set of waiting items.
- Liveness: the controller does not requeue itself while it waits, so progress in real time depends on resyncs.
- Handlers.ReconcileEvictionRequest: a nil `podRef` is excluded, since the code dereferences the reference before any check of it.
- Handlers.SortInterceptors: insertion sort instead of Go's algorithm; the protocol results hold for every order of equal priorities.
- Handlers.PutCondition: an append always moves to a new array, while Go may use spare capacity of the object's own array.
- Worker.ProcessNextWorkItem: other workers do not interleave inside the method; interleavings are in `Queue.QueueConserves` and in the system of `System.dfy`.
- Worker.Enqueue: an object without a usable key is not told apart from one of another type; both are ignored.
- Objects.EvictionRequest.DeepCopy: object metadata is reduced to namespace, name and version; lists of requests and the other copied types add nothing new.
- Several requests at once: objects are independent of each other except through the pod cache and the clock, which are arbitrary here.
- Deletion and recreation of a request: a write to a deleted object is one that fails without effect.
- Documented features without code: clearing the active class, the `Complete` condition, requester cancellation, priority intervals.
