/**
 * The scheduler's lifecycle: the two flags `started` and `stopped`, the guards
 * of start, stop and schedule, and the errors they raise. The scheduler is
 * single-shot: once stopped it cannot be restarted and accepts no more tasks.
 */
module Lifecycle {

  /** A value that may be absent: a Java reference that may be null. */
  datatype Option<T> = None | Some(value: T)

  /** The Java exception class an error is raised as. */
  datatype ExceptionClass = IllegalStateException | NullPointerException

  /** Every error the scheduler's public operations raise. */
  datatype Error =
    | CannotRestart
    | AlreadyStarted
    | NotStartedYet
    | AlreadyStopped
    | Stopped
    | TimeIsNull
    | CallableIsNull
  {
    /** The class of the exception raised: a missing argument is reported by
        Objects.requireNonNull, every misuse of the lifecycle by an
        IllegalStateException. */
    function Exception(): (c: ExceptionClass)
      ensures c == NullPointerException <==> this == TimeIsNull || this == CallableIsNull
    {
      match this
      case TimeIsNull | CallableIsNull => NullPointerException
      case _ => IllegalStateException
    }

    /** The exception's message. */
    function Message(): (m: string)
      ensures |m| > 0
    {
      match this
      case CannotRestart => "Cannot restart"
      case AlreadyStarted => "Already started"
      case NotStartedYet => "Not started yet"
      case AlreadyStopped => "Already stopped"
      case Stopped => "Stopped"
      case TimeIsNull => "time can not be null"
      case CallableIsNull => "callable can not be null"
    }
  }

  /** Each misuse is reported by its own message: the message identifies the error. */
  lemma MessagesDistinguishErrors(e1: Error, e2: Error)
    requires e1.Message() == e2.Message()
    ensures e1 == e2
  {
  }

  /** The outcome of an operation: its value (for a lifecycle transition, the
      new flags), or the error raised, in which case nothing changes. */
  datatype Result<T> = Ok(value: T) | Err(error: Error)

  /** The scheduler's two lifecycle flags. */
  datatype Flags = Flags(started: bool, stopped: bool)

  /** A freshly constructed scheduler. */
  const Initial: Flags := Flags(false, false)

  /** The flag combinations a scheduler can be in: it is never stopped without
      having been started. */
  predicate Consistent(f: Flags)
  {
    f.stopped ==> f.started
  }

  /** start(): refuses a stopped scheduler first, then a started one. */
  function Start(f: Flags): (r: Result<Flags>)
    ensures r.Ok? <==> !f.started && !f.stopped
    ensures r.Ok? ==> r.value.started && !r.value.stopped
    ensures f.stopped ==> r == Err(CannotRestart)
    ensures f.started && !f.stopped ==> r == Err(AlreadyStarted)
    ensures r.Err? ==> r.error.Exception() == IllegalStateException
  {
    if f.stopped then Err(CannotRestart)
    else if f.started then Err(AlreadyStarted)
    else Ok(f.(started := true))
  }

  /** stop(): refuses a scheduler not yet started first, then a stopped one. */
  function Stop(f: Flags): (r: Result<Flags>)
    ensures r.Ok? <==> f.started && !f.stopped
    ensures r.Ok? ==> r.value.started && r.value.stopped
    ensures !f.started ==> r == Err(NotStartedYet)
    ensures f.started && f.stopped ==> r == Err(AlreadyStopped)
    ensures r.Err? ==> r.error.Exception() == IllegalStateException
  {
    if !f.started then Err(NotStartedYet)
    else if f.stopped then Err(AlreadyStopped)
    else Ok(f.(stopped := true))
  }

  /** The guards of schedule(time, callable): a stopped scheduler is refused
      before the arguments are looked at; then a missing time, then a missing
      callable. Being started is not required. */
  function Admit(f: Flags, timeGiven: bool, callableGiven: bool): (r: Result<Flags>)
    ensures r.Ok? <==> !f.stopped && timeGiven && callableGiven
    ensures r.Ok? ==> r.value == f
    ensures f.stopped ==> r == Err(Stopped)
    ensures !f.stopped && !timeGiven ==> r == Err(TimeIsNull)
    ensures !f.stopped && timeGiven && !callableGiven ==> r == Err(CallableIsNull)
    ensures r.Err? ==> (r.error.Exception() == NullPointerException <==> !f.stopped)
  {
    if f.stopped then Err(Stopped)
    else if !timeGiven then Err(TimeIsNull)
    else if !callableGiven then Err(CallableIsNull)
    else Ok(f)
  }

  /** A call of one of the public operations, as far as the lifecycle sees it. */
  datatype Call = StartCall | StopCall | ScheduleCall(timeGiven: bool, callableGiven: bool)

  /** The effect of one call: the transition, or the error with the flags unchanged. */
  function Step(f: Flags, c: Call): Result<Flags>
  {
    match c
    case StartCall => Start(f)
    case StopCall => Stop(f)
    case ScheduleCall(timeGiven, callableGiven) => Admit(f, timeGiven, callableGiven)
  }

  /** The error a result reports, if any. */
  function ErrorOf(r: Result<Flags>): Option<Error>
  {
    if r.Ok? then None else Some(r.error)
  }

  /** The flags after a result: the new ones, or the old ones on an error. */
  function After(f: Flags, r: Result<Flags>): Flags
  {
    if r.Ok? then r.value else f
  }

  /** What a sequence of calls leaves behind: the final flags and, per call,
      the error it raised (None if it succeeded). */
  datatype Trace = Trace(final: Flags, errors: seq<Option<Error>>)

  function Run(f: Flags, calls: seq<Call>): (t: Trace)
    ensures |t.errors| == |calls|
    decreases calls
  {
    if calls == [] then Trace(f, [])
    else
      var r := Step(f, calls[0]);
      var rest := Run(After(f, r), calls[1..]);
      Trace(rest.final, [ErrorOf(r)] + rest.errors)
  }

  /** Every call keeps the flags consistent, so no sequence of calls reaches
      "stopped but never started". */
  lemma {:induction false} RunKeepsConsistent(f: Flags, calls: seq<Call>)
    requires Consistent(f)
    ensures Consistent(Run(f, calls).final)
    decreases calls
  {
    if calls != [] {
      RunKeepsConsistent(After(f, Step(f, calls[0])), calls[1..]);
    }
  }

  /** Once started, a scheduler stays started and every later start fails. */
  lemma {:induction false} StartedIsPermanent(f: Flags, calls: seq<Call>)
    requires f.started
    ensures Run(f, calls).final.started
    ensures forall i :: 0 <= i < |calls| && calls[i] == StartCall ==> Run(f, calls).errors[i].Some?
    decreases calls
  {
    if calls != [] {
      var g := After(f, Step(f, calls[0]));
      StartedIsPermanent(g, calls[1..]);
      var t := Run(f, calls);
      forall i | 0 <= i < |calls| && calls[i] == StartCall
        ensures t.errors[i].Some?
      {
        if i > 0 {
          assert calls[1..][i - 1] == calls[i];
        }
      }
    }
  }

  /** Once stopped, a scheduler is stopped for good: the flags never change
      again, every start fails with "Cannot restart" and every schedule with
      "Stopped". */
  lemma {:induction false} StoppedIsFinal(f: Flags, calls: seq<Call>)
    requires f.stopped
    ensures Run(f, calls).final == f
    ensures forall i :: 0 <= i < |calls| && calls[i] == StartCall ==> Run(f, calls).errors[i] == Some(CannotRestart)
    ensures forall i :: 0 <= i < |calls| && calls[i].ScheduleCall? ==> Run(f, calls).errors[i] == Some(Stopped)
    decreases calls
  {
    if calls != [] {
      StoppedIsFinal(f, calls[1..]);
      var t := Run(f, calls);
      forall i | 0 <= i < |calls| && calls[i] != StopCall
        ensures t.errors[i] == Some(if calls[i] == StartCall then CannotRestart else Stopped)
      {
        if i > 0 {
          assert calls[1..][i - 1] == calls[i];
        }
      }
    }
  }

  /** The misuse sequence of the scheduler's own test: stop before start, start
      twice, stop twice, start after stop, schedule after stop; each refusal
      with the class and message the test expects. */
  lemma IllegalStateSequence()
    ensures Run(Initial, [StopCall, StartCall, StartCall, StopCall, StopCall, StartCall, ScheduleCall(true, true)]).errors
         == [Some(NotStartedYet), None, Some(AlreadyStarted), None, Some(AlreadyStopped), Some(CannotRestart), Some(Stopped)]
    ensures forall e :: e in Run(Initial, [StopCall, StartCall, StartCall, StopCall, StopCall, StartCall, ScheduleCall(true, true)]).errors && e.Some? ==>
      e.value.Exception() == IllegalStateException
    ensures [NotStartedYet.Message(), AlreadyStarted.Message(), AlreadyStopped.Message(), CannotRestart.Message(), Stopped.Message()]
         == ["Not started yet", "Already started", "Already stopped", "Cannot restart", "Stopped"]
  {
  }

  /** The null-argument sequence of the scheduler's own test: on a started
      scheduler, a missing time and then a missing callable are each refused
      with a NullPointerException, and the scheduler still stops normally. */
  lemma NullArgumentSequence()
    ensures Run(Initial, [StartCall, ScheduleCall(false, true), ScheduleCall(true, false), StopCall]).errors
         == [None, Some(TimeIsNull), Some(CallableIsNull), None]
    ensures TimeIsNull.Exception() == NullPointerException && CallableIsNull.Exception() == NullPointerException
    ensures TimeIsNull.Message() == "time can not be null" && CallableIsNull.Message() == "callable can not be null"
  {
  }
}
