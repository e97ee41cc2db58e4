/**
 * The scheduler: callers submit (time, callable) pairs; a dispatcher moves each
 * task from the pending store to the FIFO ready queue once it is due, smallest
 * (time, seqNum) first; a worker takes tasks from the ready queue, claims
 * their result handle and resolves it with the computation's outcome.
 *
 * The dispatcher and the worker are threads in the source. Here each pass of
 * their loops is one atomic step, taken when the caller chooses, with the
 * clock's reading passed in as `now`.
 */
module Schedulers {

  import opened Tasks
  import opened Primitives
  import opened Lifecycle
  import opened Invariants

  class Scheduler<T> {
    /** The task counter. It is static in the source, so schedulers may share it. */
    const counter: AtomicCounter

    var started: bool
    var stopped: bool

    /** The pending store: a priority queue, here a bag peeked by MinIndex. */
    var scheduledTasks: seq<Task>
    /** The ready queue, head first. */
    var runnableTasks: seq<Task>
    /** The result handles of the tasks not yet claimed by the worker. */
    var results: map<int, CompletableFuture<T>>

    /** Every task schedule accepted, in the order it accepted them. */
    ghost var submitted: seq<Task>
    /** Every task the dispatcher moved to the ready queue, in that order. */
    ghost var dispatched: seq<Task>
    /** Every task the worker claimed, in that order. */
    ghost var executed: seq<Task>
    /** Every result handle schedule returned, by sequence number. */
    ghost var slots: map<int, CompletableFuture<T>>

    function Phase(): Lifecycle.Flags
      reads this
    {
      Lifecycle.Flags(started, stopped)
    }

    /** The two threads run between a successful start and stop. */
    predicate Running()
      reads this
    {
      started && !stopped
    }

    /** The object invariant: the lifecycle flags are consistent, the stages
        and handles are laid out as Layout says, and tasks with equal due
        times are dispatched in arrival order. The states of the handles are
        not part of it: a caller holding a handle may complete it at any time. */
    ghost predicate Valid()
      reads this, counter
    {
      && Lifecycle.Consistent(Phase())
      && Layout(scheduledTasks, runnableTasks, executed, dispatched, submitted, results, slots, counter.value)
      && TieOrder(scheduledTasks, dispatched)
    }

    /** A new scheduler: not started, nothing pending, nothing ready. */
    constructor (counter: AtomicCounter)
      ensures Valid()
      ensures this.counter == counter
      ensures Phase() == Lifecycle.Initial
      ensures scheduledTasks == [] && runnableTasks == [] && results == map[]
      ensures submitted == [] && slots == map[]
    {
      this.counter := counter;
      started, stopped := false, false;
      scheduledTasks, runnableTasks, results := [], [], map[];
      submitted, dispatched, executed, slots := [], [], [], map[];
    }

    /** start(): the flags move as Lifecycle.Start says; on success the two
        threads begin taking steps. */
    method Start() returns (err: Option<Lifecycle.Error>)
      requires Valid()
      modifies this`started
      ensures Valid()
      ensures Phase() == Lifecycle.After(old(Phase()), Lifecycle.Start(old(Phase())))
      ensures err == Lifecycle.ErrorOf(Lifecycle.Start(old(Phase())))
    {
      if stopped {
        return Some(Lifecycle.CannotRestart);
      }
      if started {
        return Some(Lifecycle.AlreadyStarted);
      }
      started := true;
      err := None;
    }

    /** stop(): the flags move as Lifecycle.Stop says. The pending store, the
        ready queue and the results map are left as they are: tasks already
        admitted stay unresolved. */
    method Stop() returns (err: Option<Lifecycle.Error>)
      requires Valid()
      modifies this`stopped
      ensures Valid()
      ensures Phase() == Lifecycle.After(old(Phase()), Lifecycle.Stop(old(Phase())))
      ensures err == Lifecycle.ErrorOf(Lifecycle.Stop(old(Phase())))
    {
      if !started {
        return Some(Lifecycle.NotStartedYet);
      }
      if stopped {
        return Some(Lifecycle.AlreadyStopped);
      }
      stopped := true;
      err := None;
    }

    /** schedule(time, callable): after the guards of Lifecycle.Admit, draws
        the next sequence number, registers a fresh unresolved handle under it,
        adds the task to the pending store and returns the handle. A refused
        call changes nothing. */
    method Schedule(time: Option<Instant>, callable: Option<CallableRef>) returns (r: Result<CompletableFuture<T>>)
      requires Valid()
      modifies this`scheduledTasks, this`results, this`submitted, this`slots, counter
      ensures Valid()
      ensures var guard := Lifecycle.Admit(Phase(), time.Some?, callable.Some?);
        && (guard.Err? ==> r.Err? && r.error == guard.error)
        && (guard.Ok? ==> r.Ok?)
      ensures r.Err? ==>
        && counter.value == old(counter.value)
        && scheduledTasks == old(scheduledTasks) && results == old(results)
        && submitted == old(submitted) && slots == old(slots)
      ensures r.Ok? ==>
        var t := Task(old(counter.value) + 1, time.value, callable.value);
        && counter.value == old(counter.value) + 1
        && (forall k :: k in old(slots) ==> k < t.seqNum)
        && scheduledTasks == old(scheduledTasks) + [t]
        && results == old(results)[t.seqNum := r.value]
        && fresh(r.value) && r.value.state.Unresolved?
        && submitted == old(submitted) + [t]
        && slots == old(slots)[t.seqNum := r.value]
    {
      if stopped {
        return Err(Lifecycle.Stopped);
      }
      if time.None? {
        return Err(Lifecycle.TimeIsNull);
      }
      if callable.None? {
        return Err(Lifecycle.CallableIsNull);
      }
      var result := Submit(time.value, callable.value);
      r := Ok(result);
    }

    /** Admitted submission: draws the next sequence number, creates the
        unresolved handle, records it and adds the task to the pending store. */
    method Submit(time: Instant, callable: CallableRef) returns (result: CompletableFuture<T>)
      requires Valid()
      modifies this`scheduledTasks, this`results, this`submitted, this`slots, counter
      ensures Valid()
      ensures var t := Task(old(counter.value) + 1, time, callable);
        && counter.value == old(counter.value) + 1
        && (forall k :: k in old(slots) ==> k < t.seqNum)
        && scheduledTasks == old(scheduledTasks) + [t]
        && results == old(results)[t.seqNum := result]
        && fresh(result) && result.state.Unresolved?
        && submitted == old(submitted) + [t]
        && slots == old(slots)[t.seqNum := result]
    {
      var taskNumber := counter.IncrementAndGet();
      var task := Task(taskNumber, time, callable);
      result := new CompletableFuture<T>();
      LayoutAfterSubmit(scheduledTasks, runnableTasks, executed, dispatched, submitted, results, slots,
                        taskNumber - 1, task, result);
      TieOrderAfterSubmit(scheduledTasks, dispatched, submitted, taskNumber - 1, task);
      results := results[taskNumber := result];
      slots := slots[taskNumber := result];
      scheduledTasks := scheduledTasks + [task];
      submitted := submitted + [task];
    }

    /** One pass of the dispatcher loop at time `now`: if the smallest pending
        task is due, it is taken from the pending store and appended to the
        ready queue; otherwise nothing moves. */
    method DispatchStep(now: Instant) returns (moved: Option<Task>)
      requires Valid()
      modifies this`scheduledTasks, this`runnableTasks, this`dispatched
      ensures Valid()
      ensures old(Running()) ==> (moved.Some? <==> exists t :: t in old(scheduledTasks) && t.time <= now)
      ensures !old(Running()) ==> moved.None?
      ensures moved.None? ==>
        && scheduledTasks == old(scheduledTasks)
        && runnableTasks == old(runnableTasks) && dispatched == old(dispatched)
      ensures moved.Some? ==>
        var t := moved.value;
        && |old(scheduledTasks)| > 0
        && t == old(scheduledTasks)[MinIndex(old(scheduledTasks))]
        && t.time <= now
        && (forall u :: u in old(scheduledTasks) ==> Compare(t, u) <= 0)
        && scheduledTasks == RemoveAt(old(scheduledTasks), MinIndex(old(scheduledTasks)))
        && runnableTasks == old(runnableTasks) + [t]
        && dispatched == old(dispatched) + [t]
      // a pass is one step of Dispatch: draining at `now` from here moves t first
      ensures old(Running()) ==>
        var before := Dispatch(old(scheduledTasks), now);
        var after := Dispatch(scheduledTasks, now);
        if moved.Some? then before == (after.0, [moved.value] + after.1) else before.1 == []
    {
      if !started || stopped || |scheduledTasks| == 0 {
        return None;
      }
      var i := MinIndex(scheduledTasks);
      var task := scheduledTasks[i];
      if task.time - now > 0 {
        // the source parks here until the delay has passed or it is woken
        NothingDue(scheduledTasks, i, now);
        return None;
      }
      MoveToReady(i);
      moved := Some(task);
    }

    /** take + add: moves the smallest pending task, at position i, to the tail
        of the ready queue. */
    method MoveToReady(i: nat)
      requires Valid() && |scheduledTasks| > 0 && i == MinIndex(scheduledTasks)
      modifies this`scheduledTasks, this`runnableTasks, this`dispatched
      ensures Valid()
      ensures scheduledTasks == RemoveAt(old(scheduledTasks), i)
      ensures runnableTasks == old(runnableTasks) + [old(scheduledTasks)[i]]
      ensures dispatched == old(dispatched) + [old(scheduledTasks)[i]]
    {
      var task := scheduledTasks[i];
      LayoutAfterDispatch(scheduledTasks, runnableTasks, executed, dispatched, submitted, results, slots,
                          counter.value, i);
      TieOrderAfterDispatch(scheduledTasks, dispatched, i);
      scheduledTasks := RemoveAt(scheduledTasks, i);
      runnableTasks := runnableTasks + [task];
      dispatched := dispatched + [task];
    }

    /** One pass of the worker loop, given the outcome of running the head
        task's callable: the head leaves the ready queue, its handle leaves the
        results map, and the handle is completed with that outcome unless it
        was already complete. The pending store, the rest of the ready queue
        and every other handle are untouched, and no task is run twice. */
    method WorkerStep(outcome: Outcome<T>) returns (ran: Option<Task>)
      requires Valid()
      modifies this`runnableTasks, this`results, this`executed, results.Values
      ensures Valid()
      ensures ran.Some? <==> old(Running()) && |old(runnableTasks)| > 0
      ensures ran.None? ==>
        && runnableTasks == old(runnableTasks) && results == old(results)
        && executed == old(executed)
      ensures ran.Some? ==>
        var t := old(runnableTasks)[0];
        && ran.value == t
        && t.seqNum in old(results) && t.seqNum !in Keys(old(executed))
        && runnableTasks == old(runnableTasks)[1..]
        && results == old(results) - {t.seqNum}
        && executed == old(executed) + [t]
        && old(results)[t.seqNum].state ==
             if old(results[t.seqNum].state).Unresolved? then Resolved(outcome) else old(results[t.seqNum].state)
      ensures forall k :: k in old(slots) && (ran.None? || k != ran.value.seqNum) ==>
        slots[k].state == old(slots[k].state)
      ensures forall k :: k in old(results) && (ran.None? || k != ran.value.seqNum) ==>
        old(results)[k].state == old(results[k].state)
    {
      if !started || stopped || |runnableTasks| == 0 {
        return None;
      }
      var task := RunHead(outcome);
      ran := Some(task);
    }

    /** The worker's pass once the ready queue has a head: claim it, then
        complete its handle with the outcome. */
    method RunHead(outcome: Outcome<T>) returns (task: Task)
      requires Valid() && |runnableTasks| > 0
      modifies this`runnableTasks, this`results, this`executed, results.Values
      ensures Valid()
      ensures task == old(runnableTasks)[0]
      ensures task.seqNum in old(results) && task.seqNum !in Keys(old(executed))
      ensures runnableTasks == old(runnableTasks)[1..]
      ensures results == old(results) - {task.seqNum}
      ensures executed == old(executed) + [task]
      ensures old(results)[task.seqNum].state ==
        if old(results[task.seqNum].state).Unresolved? then Resolved(outcome) else old(results[task.seqNum].state)
      ensures forall k :: k in old(slots) && k != task.seqNum ==> slots[k].state == old(slots[k].state)
      ensures forall k :: k in old(results) && k != task.seqNum ==> old(results)[k].state == old(results[k].state)
    {
      // the handle results.remove hands back
      var result := results[runnableTasks[0].seqNum];
      task := Claim();
      var changed := result.Settle(outcome);
      forall k | k in slots && k != task.seqNum
        ensures slots[k] != result
      {
      }
    }

    /** take from the ready queue, then remove the task's entry from the
        results map. The task joins the executed ones; it had never run before. */
    method Claim() returns (task: Task)
      requires Valid() && |runnableTasks| > 0
      modifies this`runnableTasks, this`results, this`executed
      ensures task == old(runnableTasks)[0]
      ensures task.seqNum in old(results) && task.seqNum !in Keys(old(executed))
      ensures runnableTasks == old(runnableTasks)[1..]
      ensures results == old(results) - {task.seqNum}
      ensures executed == old(executed) + [task]
      ensures Valid()
    {
      task := runnableTasks[0];
      LayoutAfterClaim(scheduledTasks, runnableTasks, executed, dispatched, submitted, results, slots,
                       counter.value);
      runnableTasks := runnableTasks[1..];
      results := results - {task.seqNum};
      executed := executed + [task];
    }
  }
}
