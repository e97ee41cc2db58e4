/**
 * The two concurrency primitives the scheduler relies on, reduced to their
 * sequential behaviour: a single-assignment result handle (CompletableFuture)
 * and a counter that is only ever incremented (AtomicLong).
 */
module Primitives {

  /** A Throwable raised by a computation: its class name and its message. */
  datatype Throwable = Throwable(className: string, message: string)

  /** What running a computation gave: a value, or the exception it threw. */
  datatype Outcome<T> = Value(value: T) | Thrown(error: Throwable)

  /** The state of a result handle: unresolved, or resolved with an outcome. */
  datatype FutureState<T> = Unresolved | Resolved(outcome: Outcome<T>)

  /** A result handle: unresolved until completed, then resolved for good with
      a value or an exception. */
  class CompletableFuture<T> {
    var state: FutureState<T>

    constructor ()
      ensures state == Unresolved
    {
      state := Unresolved;
    }

    /** complete(v): resolves an unresolved handle with v; a resolved handle
        is left as it was. Reports whether this call resolved it. */
    method Complete(v: T) returns (changed: bool)
      modifies this
      ensures changed <==> old(state).Unresolved?
      ensures state == if changed then Resolved(Value(v)) else old(state)
    {
      changed := state.Unresolved?;
      if changed {
        state := Resolved(Value(v));
      }
    }

    /** completeExceptionally(e): as Complete, with an exception. */
    method CompleteExceptionally(e: Throwable) returns (changed: bool)
      modifies this
      ensures changed <==> old(state).Unresolved?
      ensures state == if changed then Resolved(Thrown(e)) else old(state)
    {
      changed := state.Unresolved?;
      if changed {
        state := Resolved(Thrown(e));
      }
    }

    /** Completes the handle with an outcome: normally with a value, or
        exceptionally with the exception thrown. */
    method Settle(o: Outcome<T>) returns (changed: bool)
      modifies this
      ensures changed <==> old(state).Unresolved?
      ensures state == if changed then Resolved(o) else old(state)
    {
      match o {
        case Value(v) =>
          changed := Complete(v);
        case Thrown(e) =>
          changed := CompleteExceptionally(e);
      }
    }
  }

  /** The task counter: an AtomicLong that starts at 0 and is only incremented. */
  class AtomicCounter {
    var value: int

    constructor ()
      ensures value == 0
    {
      value := 0;
    }

    /** incrementAndGet(): adds one and returns the new value. */
    method IncrementAndGet() returns (v: int)
      modifies this
      ensures value == old(value) + 1
      ensures v == value
    {
      value := value + 1;
      v := value;
    }
  }
}
