# Scheduler: a verified model

`Scheduler<T>` takes pairs (due time, callable). It runs each callable at its
due time, or as soon as possible when it is running behind. Whenever the
dispatcher looks, it hands on the earliest due task first. Tasks with equal due
times run in the order they arrived, for submissions that do not overlap (as in
`testRunWithSameTime`). A task that arrives after a later-due task was already
handed on still runs after that task.

A scheduler is single-shot:

- it is started once;
- it is stopped once;
- it cannot be restarted.

A dispatcher thread moves due tasks from a priority queue (the pending store)
to a FIFO ready queue. A worker thread takes tasks from the ready queue, runs
them, and completes each task's `CompletableFuture` with the result or with the
exception thrown.

This project models that class in Dafny and proves properties of the model.

| file | module | what it holds |
|---|---|---|
| `tasks.dfy` | `Tasks` | `Task` and its order; the pending store as a bag with min-extraction (peek = `MinIndex`, take = `RemoveAt`); `Dispatch`, the dispatcher loop run to quiescence at a fixed `now`; `TieOrder`, equal due times dispatched in arrival order |
| `lifecycle.dfy` | `Lifecycle` | the `started`/`stopped` flags, the guards of start, stop and schedule, their exceptions and messages, runs of calls, `Option` (a reference that may be `null`) and `Result` (a value or the error raised) |
| `primitives.dfy` | `Primitives` | `CompletableFuture` (a single-assignment handle) and `AtomicLong` (the task counter), reduced to their sequential behaviour |
| `invariants.dfy` | `Invariants` | `Layout`, the invariant over the collections, and one lemma per operation showing that the operation keeps it |
| `scheduler.dfy` | `Schedulers` | class `Scheduler<T>` with `Start`, `Stop`, `Schedule`, and one pass of each thread loop: `DispatchStep(now)` and `WorkerStep(outcome)` |

The two thread loops become atomic steps that the caller drives:

- the clock reading is the parameter `now`;
- the callable's result is the parameter `outcome`, either a value or a thrown exception;
- an exception raised by a public operation becomes a returned error (`Lifecycle.Error`), carrying its exception class and its message;
- a `null` argument becomes `None`.

Ghost fields record the history of the tasks:

- `submitted`: every accepted task;
- `dispatched`: every task moved to the ready queue;
- `executed`: every task the worker ran;
- `slots`: every handle ever returned.

The object invariant `Valid()` ties these to the real fields.

## Model

| member | source | states |
|---|---|---|
| Tasks.CompareValues | src/main/java/Scheduler.java:174-178 | the sign of the time comparison and `Long.compare`: negative, zero or positive exactly when the first value is below, equal to or above the second |
| Tasks.Compare | src/main/java/Scheduler.java:173-182 | an earlier due time orders first; seqNum decides only when the due times are equal; the result is 0 exactly when both time and seqNum are equal |
| Tasks.CompareAntisymmetric | src/main/java/Scheduler.java:173-182 | swapping the two tasks negates the comparison |
| Tasks.CompareTransitive | src/main/java/Scheduler.java:173-182 | the order is transitive, and strictly so when either step is strict |
| Tasks.CompareZeroSubstitutes | src/main/java/Scheduler.java:173-182 | tasks that compare equal compare the same against every third task |
| Tasks.PrecedingTaskIsDue | src/main/java/Scheduler.java:49-52 | a task ordered before a due task is itself due: the order fact behind the comment at lines 50-51; the interleaving itself is not modelled |
| Tasks.MinIndex | src/main/java/Scheduler.java:44 | `peek` of the pending store: a position whose task is ordered before or equal to every pending task |
| Tasks.RemoveAt | src/main/java/Scheduler.java:49 | `take` of the pending store: removes exactly one occurrence of that task and nothing else (multiset difference) |
| Tasks.RemoveAtKeys | src/main/java/Scheduler.java:49 | removing one task keeps the seqNums distinct and removes exactly that task's seqNum |
| Tasks.AppendKeys | src/main/java/Scheduler.java:52 | appending a task with a new seqNum keeps the seqNums distinct and adds exactly that seqNum |
| Tasks.Dispatch | src/main/java/Scheduler.java:43-62 | the dispatcher loop run at one instant until nothing more is due: as many tasks come out (left or moved) as went in, and when nothing moves the store is left as it was; its other properties are the three lemmas below |
| Tasks.DispatchConserves | src/main/java/Scheduler.java:43-62 | running the dispatcher loop at one instant loses and invents no task: what stays pending plus what moved is exactly what was pending |
| Tasks.DispatchMovesExactlyDue | src/main/java/Scheduler.java:44-58 | running the loop at `now` moves every task with `time <= now` and no other task |
| Tasks.DispatchAscending | src/main/java/Scheduler.java:43-62 | tasks move in strictly increasing (time, seqNum) order, and each moved task is ordered before every task left pending |
| Tasks.TieOrderAfterSubmit | src/main/java/Scheduler.java:20-21 | a task numbered above every earlier one keeps equal-time tasks in arrival order when it joins the pending store: every dispatched task of its time has a smaller number |
| Tasks.TieOrderAfterDispatch | src/main/java/Scheduler.java:43-52 | taking the smallest pending task keeps equal-time tasks in arrival order: it follows every dispatched task of its time and precedes every pending one |
| Tasks.DispatchedInArrivalOrder | src/main/java/Scheduler.java:176-178 | of two dispatched tasks due at the same time, the one with the smaller seqNum (the earlier arrival) was dispatched first |
| Lifecycle.Error.Exception | src/main/java/Scheduler.java:87-127 | the two missing-argument errors are `NullPointerException`s (from `Objects.requireNonNull`); the five lifecycle errors are `IllegalStateException`s |
| Lifecycle.Error.Message | src/main/java/Scheduler.java:87-127 | every error carries a non-empty message, the exact text of the source (see `MessagesDistinguishErrors` and the two test sequences) |
| Lifecycle.MessagesDistinguishErrors | src/main/java/Scheduler.java:87-127 | no two of the seven errors share a message |
| Lifecycle.Start | src/main/java/Scheduler.java:87-97 | a stopped scheduler gives "Cannot restart", checked first; a started one gives "Already started"; otherwise the scheduler becomes started and not stopped; every refusal is an `IllegalStateException` |
| Lifecycle.Stop | src/main/java/Scheduler.java:99-113 | a scheduler never started gives "Not started yet", checked first; a stopped one gives "Already stopped"; otherwise it becomes stopped; every refusal is an `IllegalStateException` |
| Lifecycle.Admit | src/main/java/Scheduler.java:122-127 | guard order of schedule: "Stopped" before any null check, then "time can not be null", then "callable can not be null"; success needs no `started` and keeps the flags; a refusal is a `NullPointerException` exactly when the scheduler is not stopped |
| Lifecycle.RunKeepsConsistent | src/main/java/Scheduler.java:87-113 | no sequence of calls reaches "stopped but never started" |
| Lifecycle.StartedIsPermanent | src/main/java/Scheduler.java:87-97 | once started, a scheduler stays started and every later start fails |
| Lifecycle.StoppedIsFinal | src/main/java/Scheduler.java:87-127 | once stopped, the flags never change again; every start gives "Cannot restart" and every schedule gives "Stopped" |
| Lifecycle.IllegalStateSequence | src/test/java/SchedulerTest.java:14-29 | the test's misuse sequence (stop, start, start, stop, stop, start, schedule) raises exactly the errors the test asserts, in order, each an `IllegalStateException` with the message the test asserts |
| Lifecycle.NullArgumentSequence | src/test/java/SchedulerTest.java:32-44 | on a started scheduler, a missing time and then a missing callable are refused with `NullPointerException`s carrying the test's two messages, and the scheduler still stops normally |
| Primitives.CompletableFuture.constructor | src/main/java/Scheduler.java:131 | a new handle is unresolved |
| Primitives.CompletableFuture.Complete | src/main/java/Scheduler.java:72 | resolves an unresolved handle with the value; leaves a resolved handle as it was; reports which of the two happened |
| Primitives.CompletableFuture.CompleteExceptionally | src/main/java/Scheduler.java:74 | the same as Complete, with the exception |
| Primitives.CompletableFuture.Settle | src/main/java/Scheduler.java:71-75 | completes with the value a callable returned, or exceptionally with what it threw |
| Primitives.AtomicCounter.constructor | src/main/java/Scheduler.java:21 | the counter starts at 0 |
| Primitives.AtomicCounter.IncrementAndGet | src/main/java/Scheduler.java:129 | adds one and returns the new value |
| Invariants.LayoutAfterSubmit | src/main/java/Scheduler.java:129-133 | adding a task numbered one above the counter, with a new handle, keeps the invariant with the counter one higher |
| Invariants.LayoutAfterDispatch | src/main/java/Scheduler.java:49-52 | moving any pending task to the tail of the ready queue keeps the invariant |
| Invariants.LayoutAfterClaim | src/main/java/Scheduler.java:69-70 | popping the ready head, and dropping its results entry, keeps the invariant; the head has a results entry and has never been executed |
| Invariants.EqualTimesRunInArrivalOrder | src/main/java/Scheduler.java:12 | under the invariant, if a task has run, every task submitted before it with the same due time has run too, and earlier (what `testRunWithSameTime` observes) |
| Invariants.NothingDue | src/main/java/Scheduler.java:44-57 | when the smallest pending task is not yet due, no pending task is due |
| Schedulers.Scheduler.constructor | src/main/java/Scheduler.java:19-41 | a new scheduler is not started, and its pending store, ready queue and results are empty |
| Schedulers.Scheduler.Start | src/main/java/Scheduler.java:87-97 | the flags move as `Lifecycle.Start` says and the error is the one it gives; only `started` may change |
| Schedulers.Scheduler.Stop | src/main/java/Scheduler.java:99-113 | the flags move as `Lifecycle.Stop` says; only `stopped` may change, so the pending store, ready queue and results are not cleared |
| Schedulers.Scheduler.Schedule | src/main/java/Scheduler.java:122-140 | refuses exactly when `Lifecycle.Admit` does, with its error, and then changes nothing (counter included); accepted, it is `Submit` |
| Schedulers.Scheduler.Submit | src/main/java/Scheduler.java:129-133 | the counter goes up by one and its new value is the seqNum, above every number used before; exactly one task joins the pending store and exactly one fresh, unresolved handle joins results under that seqNum |
| Schedulers.Scheduler.DispatchStep | src/main/java/Scheduler.java:43-62 | when running, a task moves exactly when some pending task is due; the one that moves is the minimum, it is due, and it goes to the tail of the ready queue; otherwise nothing changes; the pass is the first step of `Dispatch` |
| Schedulers.Scheduler.MoveToReady | src/main/java/Scheduler.java:49-52 | `take` + `add` of the smallest pending task: it leaves the pending store and is appended to the ready queue, with the invariant (arrival order of equal times included) kept |
| Schedulers.Scheduler.WorkerStep | src/main/java/Scheduler.java:67-79 | when running with a non-empty ready queue, the head (never run before) leaves the queue; its entry leaves results; its handle gets the outcome unless already complete; every other handle, whether looked up in `results` or in the history, and the pending store are untouched; otherwise nothing changes |
| Schedulers.Scheduler.RunHead | src/main/java/Scheduler.java:69-75 | the worker pass on a non-empty ready queue, with the same promises as WorkerStep |
| Schedulers.Scheduler.Claim | src/main/java/Scheduler.java:69-70 | `take` then `results.remove`: the head leaves the queue and its entry leaves results; it joins the executed tasks, never having been executed before |

`Valid()` is the object invariant. Every method above keeps it. It states the following:

- every seqNum is in exactly one of pending, ready and executed;
- the `results` key set equals the seqNums of pending ∪ ready, and those seqNums are distinct;
- `results` maps each key to that task's own handle;
- no two seqNums share a handle;
- the tasks dispatched so far are the executed ones followed by the ready ones (FIFO);
- the submitted tasks are, as a multiset, the pending ones plus the dispatched ones;
- seqNums grow in submission order and never exceed the counter;
- `TieOrder`: among the dispatched tasks, equal due times appear in increasing seqNum, and each dispatched task has a smaller seqNum than every pending task with the same due time.

## Left out

- Threads are not modelled. This covers `park`/`parkNanos`/`unpark`, `interrupt`, `volatile` and the `InterruptedException` branches (Scheduler.java:53-60, 76-78, 95-96, 111-112, 134-138). Each loop body is one atomic step that the caller drives, and a step taken while the scheduler is not running does nothing.
- Each `schedule` call is also one atomic step (Scheduler.java:129-133). Two concurrent callers can draw their numbers in one order and insert their tasks in the other. A due task with the larger number can then be dispatched and run before the one with the smaller number is inserted. That race is not modelled, so `TieOrder` and `EqualTimesRunInArrivalOrder` hold only for submissions that do not overlap.
- Liveness is not modelled: that every due task is eventually moved and run depends on the threads being scheduled.
- `LocalDateTime` is not modelled. An instant is an integer number of nanoseconds, only the sign of a time comparison is kept, and `delay <= 0` is `time - now <= 0`. An `ArithmeticException` from `until` on instants centuries apart is left out.
- `AtomicLong` wrap-around after 2^63 increments is left out: the counter is an unbounded integer. The counter is a separate object, because the source's counter is static and shared by every scheduler.
- The heap inside `PriorityBlockingQueue` is not modelled. The pending store is a sequence used as a bag: peek is `MinIndex` and take is `RemoveAt` at the peeked position. A task inserted between the peek and the take is not modelled, because each dispatcher pass is atomic; `PrecedingTaskIsDue` only states the order fact behind it.
- The callable itself is not run: the step receives its outcome. `Throwable` is reduced to a class name and a message. `join` and the other methods of `CompletableFuture` are left out.
- The worker's `NullPointerException` path, taken when `results.remove` finds no entry, is not modelled, because `Valid()` rules it out.
- Schedulers.Scheduler.WorkerStep: does not promise that the handle was still unresolved. A caller holding the handle can complete it first, and `complete` then leaves it as it is. The invariant therefore tracks where each handle sits, not its state. What the model does promise is that the worker completes each handle at most once: a task is never executed twice, and its entry leaves `results` when it runs.
- `Main.java` is not part of this model: it is a logging demo. The timing tests of `SchedulerTest.java` are not modelled either.
