/**
The protocol between a caller and the hypervisor handler thread (Linux): two unbounded
FIFO channels, the flags `running` and `run_cancelled`, the guards the handler holds while
the guest runs, timeouts and cancellation. Every atomic action of either thread is a
`Step`; a run is any interleaving of them. Timeouts, guest behaviour, lock failures and
the results of runs are nondeterministic.
*/
module Handler {
  import opened Bytes

  type Image = seq<byte>

  datatype Action = Initialise | Dispatch | TerminateThread

  /** `HandlerMsg`; an error is either `ExecutionCanceledByHost` or some other. */
  datatype Msg = Finished | Canceled | OtherError

  datatype Response = Response(id: nat, msg: Msg)

  /** Actions are numbered in the order they are sent. */
  datatype Request = Request(id: nat, action: Action)

  /** How far the handler is with the action it has taken off the channel. */
  datatype Stage =
    | Taken        // about to store running = true
    | RunningSet   // about to store run_cancelled = false
    | Cleared      // about to take the lock on the memory manager
    | Locked       // about to take the read guard on memory
    | InGuest      // in VirtualCPU::run
    | CancelSeen   // a cancelled exit: running = false is stored, run_cancelled is not
    | Returned     // the run has a result; both guards are still held
    | MemDropped   // the memory guard is dropped
    | LockDropped  // both are dropped; about to store running = false
    | Stopped      // about to send the response

  datatype HandlerPc =
    | Idle
    | Busy(id: nat, action: Action, stage: Stage, msg: Msg)
    | Exited
    | Crashed(id: nat)

  /** What a call to the handler returned. */
  datatype Outcome =
    | Answered(msg: Msg)
    | TimedOut
    | CancelAttemptOnFinished
    | SignalFailed
    | Hung
    | RestoreFailed
    | ReinitFailed
    | Reinitialised(was: Msg)      // `Ok(..)`: ExecutionCanceledByHost exactly when `was` is `Canceled`
    | ReinitialisedUnanswered      // `Ok(..)` after waiting in vain for the cancelled response

  /** Where the caller is; `id` is its action. */
  datatype CallerPc =
    | Ready
    | Waiting(id: nat, action: Action)
    | Terminating(id: nat)                     // timed out: about to check running
    | Signalling(id: nat, count: nat)          // in the signal loop
    | FinalCheck(id: nat)                      // after the loop: about to check run_cancelled once more
    | Sleeping(id: nat)                        // terminate_execution returned Ok
    | Receiving(id: nat)                       // waiting for the cancelled response
    | Restoring(id: nat, got: Option<Msg>)     // about to restore the last snapshot
    | SendingInit(id: nat, got: Option<Msg>)   // about to send Initialise
    | WaitingInit(id: nat, got: Option<Msg>)   // waiting for its response
    | Returning(outcome: Outcome)

  datatype State = State(
    caller: CallerPc, handler: HandlerPc,
    requests: seq<Request>, responses: seq<Response>,
    running: bool, runCancelled: bool, lockHeld: bool, memGuard: bool,
    mem: Image, snapshots: seq<Image>,
    limit: nat,                  // max_wait_for_cancellation / 500 microseconds
    // history
    sent: nat, received: seq<Response>, cleared: Option<nat>)

  predicate Init(s: State) {
    s.caller == Ready && s.handler == Idle && s.requests == [] && s.responses == [] && !s.running && !s.runCancelled &&
    !s.lockHeld && !s.memGuard && s.sent == 0 && s.received == [] && s.cleared == None
  }

  datatype Step =
    // the handler thread
    | Take | SetRunning | ClearCancelled | LockManager | EnterGuest(guard: bool) | GuestWrites(mem: Image)
    | GuestReturns(msg: Msg) | CancelledExit | SetCancelled | DropMem | DropLock | StoreStopped | Respond | Crash
    // the caller
    | HostWrites(mem: Image) | PushSnapshot | Begin(action: Action) | Receive | Timeout | CheckRunning | Poll
    | SignalError | CheckCancelled | CheckStopped | Restore(ok: bool) | SendInit | Return

  predicate At(s: State, stage: Stage) {
    s.handler.Busy? && s.handler.stage == stage
  }

  predicate Awaiting(s: State) {
    s.caller.Waiting? || s.caller.Receiving? || s.caller.WaitingInit?
  }

  predicate Enabled(s: State, step: Step) {
    match step
    case Take => s.handler.Idle? && s.requests != []
    case SetRunning => At(s, Taken) && s.handler.action != TerminateThread
    case ClearCancelled => At(s, RunningSet)
    case LockManager => At(s, Cleared)
    case EnterGuest(_) => At(s, Locked)
    case GuestWrites(_) => At(s, InGuest)
    case GuestReturns(_) => At(s, InGuest)
    case CancelledExit => At(s, InGuest)
    case SetCancelled => At(s, CancelSeen)
    case DropMem => At(s, Returned)
    case DropLock => At(s, MemDropped)
    case StoreStopped => At(s, LockDropped)
    case Respond => At(s, Stopped) || (At(s, Taken) && s.handler.action == TerminateThread)
    case Crash => (At(s, Taken) && s.handler.action == Initialise) || At(s, Cleared) || At(s, Locked)
    case HostWrites(_) => s.caller.Ready?
    case PushSnapshot => s.caller.Ready? && !s.memGuard
    case Begin(_) => s.caller.Ready?
    case Receive => Awaiting(s) && s.responses != []
    case Timeout => Awaiting(s)
    case CheckRunning => s.caller.Terminating?
    case Poll => s.caller.Signalling?
    case SignalError => s.caller.Signalling?
    case CheckCancelled => s.caller.FinalCheck?
    case CheckStopped => s.caller.Sleeping?
    case Restore(ok) => s.caller.Restoring? && (ok ==> s.snapshots != [] && !s.memGuard)
    case SendInit => s.caller.SendingInit?
    case Return => s.caller.Returning?
  }

  function Send(s: State, action: Action): State {
    s.(requests := s.requests + [Request(s.sent, action)], sent := s.sent + 1)
  }

  function To(s: State, stage: Stage): State
    requires s.handler.Busy?
  {
    s.(handler := s.handler.(stage := stage))
  }

  /** Where a caller goes with a message, or with `None` when it gave up waiting. */
  function Continue(pc: CallerPc, got: Option<Msg>): CallerPc
    requires pc.Waiting? || pc.Receiving? || pc.WaitingInit?
  {
    match pc
    case Waiting(id, action) =>
      if got.Some? then Returning(Answered(got.value))
      else if action == Dispatch then Terminating(id) else Returning(TimedOut)
    case Receiving(id) => Restoring(id, got)
    case WaitingInit(id, was) =>
      if got != Some(Finished) then Returning(ReinitFailed)
      else if was.Some? then Returning(Reinitialised(was.value)) else Returning(ReinitialisedUnanswered)
  }

  function Apply(s: State, step: Step): State
    requires Enabled(s, step)
  {
    match step
    case Take => s.(handler := Busy(s.requests[0].id, s.requests[0].action, Taken, Finished), requests := s.requests[1..])
    case SetRunning => To(s, RunningSet).(running := true)
    case ClearCancelled => To(s, Cleared).(runCancelled := false, cleared := Some(s.handler.id))
    case LockManager => To(s, Locked).(lockHeld := true)
    case EnterGuest(guard) => To(s, InGuest).(memGuard := guard)
    case GuestWrites(mem) => s.(mem := mem)
    case GuestReturns(msg) => s.(handler := s.handler.(stage := Returned, msg := msg))
    case CancelledExit => To(s, CancelSeen).(running := false)
    case SetCancelled => s.(handler := s.handler.(stage := Returned, msg := Canceled), runCancelled := true)
    case DropMem => To(s, MemDropped).(memGuard := false)
    case DropLock => To(s, LockDropped).(lockHeld := false)
    case StoreStopped => To(s, Stopped).(running := false)
    case Respond =>
      if s.handler.stage == Stopped
      then s.(handler := Idle, responses := s.responses + [Response(s.handler.id, s.handler.msg)])
      else s.(handler := Exited, responses := s.responses + [Response(s.handler.id, Finished)])
    case Crash => s.(handler := Crashed(s.handler.id), lockHeld := false)
    case HostWrites(mem) => s.(mem := mem)
    case PushSnapshot => s.(snapshots := s.snapshots + [s.mem])
    case Begin(action) => Send(s, action).(caller := Waiting(s.sent, action))
    case Receive =>
      s.(caller := Continue(s.caller, Some(s.responses[0].msg)), responses := s.responses[1..],
         received := s.received + [s.responses[0]])
    case Timeout => s.(caller := Continue(s.caller, None))
    case CheckRunning =>
      s.(caller := if s.running then Signalling(s.caller.id, 0) else Returning(CancelAttemptOnFinished))
    case Poll =>
      s.(caller := if s.runCancelled || s.caller.count + 1 > s.limit then FinalCheck(s.caller.id)
                   else Signalling(s.caller.id, s.caller.count + 1))
    case SignalError => s.(caller := Returning(SignalFailed))
    case CheckCancelled => s.(caller := if s.runCancelled then Sleeping(s.caller.id) else Returning(Hung))
    case CheckStopped => s.(caller := if s.running then Returning(Hung) else Receiving(s.caller.id))
    case Restore(ok) =>
      if ok then s.(mem := s.snapshots[|s.snapshots| - 1], caller := SendingInit(s.caller.id, s.caller.got))
      else s.(caller := Returning(RestoreFailed))
    case SendInit => Send(s, Initialise).(caller := WaitingInit(s.caller.id, s.caller.got))
    case Return => s.(caller := Ready)
  }

  predicate OfHandler(step: Step) {
    step.Take? || step.SetRunning? || step.ClearCancelled? || step.LockManager? || step.EnterGuest? ||
    step.GuestWrites? || step.GuestReturns? || step.CancelledExit? || step.SetCancelled? || step.DropMem? ||
    step.DropLock? || step.StoreStopped? || step.Respond? || step.Crash?
  }

  /** The handler's steps leave the caller's side alone; only a running guest writes memory. */
  lemma HandlerFrame(s: State, step: Step)
    requires Enabled(s, step) && OfHandler(step)
    ensures var s' := Apply(s, step);
            s'.caller == s.caller && s'.received == s.received && s'.sent == s.sent && s'.snapshots == s.snapshots &&
            (s'.mem == s.mem || s.handler.Busy?)
  {
    match step {
      case Take | SetRunning | ClearCancelled | LockManager | EnterGuest(_) | GuestWrites(_) | GuestReturns(_) =>
      case CancelledExit | SetCancelled | DropMem | DropLock | StoreStopped | Respond | Crash =>
      case _ =>
    }
  }

  /** A run: any interleaving of enabled steps. */
  ghost predicate IsRun(states: seq<State>, steps: seq<Step>) {
    |states| == |steps| + 1 &&
    forall i | 0 <= i < |steps| :: Enabled(states[i], steps[i]) && states[i + 1] == Apply(states[i], steps[i])
  }

  // ----------------------------------------------------------------- the invariant

  /** All responses ever sent, in order. */
  function Done(s: State): seq<Response> {
    s.received + s.responses
  }

  /** One for the action the handler has taken and not answered, answered or lost. */
  function InProgress(s: State): nat {
    if s.handler.Busy? || s.handler.Crashed? then 1 else 0
  }

  /**
   Conservation, with order: the k-th response ever sent answers action k, the action in
   progress is the next one, and the queued actions are those after it.
   */
  ghost predicate Conserved(s: State) {
    (forall k | 0 <= k < |Done(s)| :: Done(s)[k].id == k) &&
    (InProgress(s) == 1 ==> s.handler.id == |Done(s)|) &&
    (forall k | 0 <= k < |s.requests| :: s.requests[k].id == |Done(s)| + InProgress(s) + k) &&
    s.sent == |Done(s)| + InProgress(s) + |s.requests|
  }

  /** The flags and guards at each stage; a crashed handler may leave `running` behind. */
  ghost predicate FlagsMatch(s: State) {
    match s.handler
    case Busy(_, _, stage, _) =>
      (s.running ==> stage in {RunningSet, Cleared, Locked, InGuest, Returned, MemDropped, LockDropped}) &&
      (s.lockHeld <==> stage in {Locked, InGuest, CancelSeen, Returned, MemDropped}) &&
      (s.memGuard ==> stage in {InGuest, CancelSeen, Returned})
    case Crashed(_) => !s.lockHeld && !s.memGuard
    case _ => !s.running && !s.lockHeld && !s.memGuard
  }

  /** Action `n` ended as cancelled: its one response is on its way, queued or received. */
  ghost predicate EndedCancelled(s: State, n: nat) {
    (s.handler.Busy? && s.handler.id == n && s.handler.msg == Canceled &&
     s.handler.stage in {Returned, MemDropped, LockDropped, Stopped}) ||
    (n < |Done(s)| && Done(s)[n] == Response(n, Canceled))
  }

  /** `run_cancelled` is set only when the action that last cleared it ended as cancelled. */
  ghost predicate CancelledIsTrue(s: State) {
    (s.runCancelled ==> s.cleared.Some? && EndedCancelled(s, s.cleared.value)) &&
    (s.handler.Busy? && s.handler.stage !in {Taken, RunningSet} ==> s.cleared == Some(s.handler.id)) &&
    (s.cleared.Some? ==> s.cleared.value < |Done(s)| + InProgress(s))
  }

  /** The caller's own action is the last one sent, and it has signalled at most `limit` times. */
  ghost predicate CallerMatches(s: State) {
    match s.caller
    case Waiting(id, _) => s.sent == id + 1
    case Terminating(id) => s.sent == id + 1
    case Signalling(id, count) => s.sent == id + 1 && count <= s.limit
    case FinalCheck(id) => s.sent == id + 1
    case Sleeping(id) => s.sent == id + 1
    case Receiving(id) => s.sent == id + 1
    case Restoring(id, _) => s.sent == id + 1
    case SendingInit(id, _) => s.sent == id + 1
    case WaitingInit(id, _) => s.sent == id + 2
    case _ => true
  }

  ghost predicate Inv(s: State) {
    Conserved(s) && FlagsMatch(s) && CancelledIsTrue(s) && CallerMatches(s)
  }

  lemma InitInv(s: State)
    requires Init(s)
    ensures Inv(s)
  {
  }

  /** Only a response lengthens the list of all responses. */
  lemma DoneStep(s: State, step: Step)
    requires Enabled(s, step)
    ensures Done(Apply(s, step)) ==
            if step != Respond then Done(s)
            else Done(s) + [Response(s.handler.id, if s.handler.stage == Stopped then s.handler.msg else Finished)]
  {
    match step {
      case Take | SetRunning | ClearCancelled | LockManager | EnterGuest(_) | GuestWrites(_) | GuestReturns(_) =>
      case CancelledExit | SetCancelled | DropMem | DropLock | StoreStopped | Crash =>
      case Respond =>
      case Receive =>
      case _ =>
    }
  }

  lemma ConservedStep(s: State, step: Step)
    requires Conserved(s) && FlagsMatch(s) && Enabled(s, step)
    ensures Conserved(Apply(s, step))
  {
    hide FlagsMatch;
    DoneStep(s, step);
    hide Done;
    match step {
      case Take =>
      case SetRunning | ClearCancelled | LockManager | EnterGuest(_) | GuestWrites(_) | GuestReturns(_) =>
      case CancelledExit | SetCancelled | DropMem | DropLock | StoreStopped | Crash =>
      case Respond =>
      case _ =>
    }
  }

  lemma FlagsStep(s: State, step: Step)
    requires FlagsMatch(s) && Enabled(s, step)
    ensures FlagsMatch(Apply(s, step))
  {
    match step {
      case Take | SetRunning | ClearCancelled | LockManager | EnterGuest(_) | GuestWrites(_) | GuestReturns(_) =>
      case CancelledExit | SetCancelled | DropMem | DropLock | StoreStopped | Respond | Crash =>
      case _ =>
    }
  }

  /** What has ended as cancelled stays so. */
  lemma CancelledStays(s: State, step: Step, n: nat)
    requires Conserved(s) && Enabled(s, step) && EndedCancelled(s, n)
    ensures EndedCancelled(Apply(s, step), n)
  {
    DoneStep(s, step);
    hide Done;
    match step {
      case Take | SetRunning | ClearCancelled | LockManager | EnterGuest(_) | GuestWrites(_) | GuestReturns(_) =>
      case CancelledExit | SetCancelled | DropMem | DropLock | StoreStopped | Crash =>
      case Respond =>
      case _ =>
    }
  }

  lemma CancelTakesEffect(s: State)
    requires Enabled(s, SetCancelled)
    ensures EndedCancelled(Apply(s, SetCancelled), s.handler.id)
  {
  }

  lemma CancelledStep(s: State, step: Step)
    requires Inv(s) && Enabled(s, step)
    ensures CancelledIsTrue(Apply(s, step))
  {
    if s.cleared.Some? && s.runCancelled {
      CancelledStays(s, step, s.cleared.value);
    }
    DoneStep(s, step);
    hide Done, FlagsMatch, CallerMatches, EndedCancelled;
    if step == SetCancelled {
      assert EndedCancelled(Apply(s, step), s.handler.id) by { CancelTakesEffect(s); }
    }
    match step {
      case Take | SetRunning | ClearCancelled | LockManager | EnterGuest(_) | GuestWrites(_) | GuestReturns(_) =>
      case CancelledExit | SetCancelled | DropMem | DropLock | StoreStopped | Crash =>
      case Respond =>
      case _ =>
    }
  }

  lemma InvStep(s: State, step: Step)
    requires Inv(s) && Enabled(s, step)
    ensures Inv(Apply(s, step))
  {
    ConservedStep(s, step);
    FlagsStep(s, step);
    CancelledStep(s, step);
    CallerStep(s, step);
  }

  lemma CallerStep(s: State, step: Step)
    requires CallerMatches(s) && Enabled(s, step)
    ensures CallerMatches(Apply(s, step))
  {
    if OfHandler(step) {
      HandlerFrame(s, step);
    } else {
      match step {
        case Receive | Timeout =>
        case Begin(_) | SendInit | Restore(_) | Return =>
        case _ =>
      }
    }
  }

  /** The invariant holds in every state of every run. */
  lemma {:induction false} RunInv(states: seq<State>, steps: seq<Step>, i: nat)
    requires IsRun(states, steps) && Inv(states[0]) && i < |states|
    ensures Inv(states[i])
    decreases i
  {
    if i == 0 {
    } else {
      RunInv(states, steps, i - 1);
      InvStep(states[i - 1], steps[i - 1]);
    }
  }

  // ----------------------------------------------------------------- whose response?

  /** Responses arrive in the order of the actions they answer. */
  lemma NextResponse(s: State)
    requires Inv(s) && s.responses != []
    ensures s.responses[0].id == |s.received|
  {
    assert Done(s)[|s.received|] == s.responses[0];
  }

  /**
   A waiting caller gets the response to its own action exactly when no earlier response
   was outstanding: with `u` of them outstanding it gets the one `u` actions back.
   */
  lemma OwnResponseIff(s: State, u: nat)
    requires Inv(s) && s.caller.Waiting? && Enabled(s, Receive) && s.sent == |s.received| + 1 + u
    ensures s.responses[0].id == s.caller.id - u
    ensures s.responses[0].id == s.caller.id <==> u == 0
  {
    NextResponse(s);
  }

  /** Without timeouts every call is answered before the next begins. */
  ghost predicate InStep(s: State) {
    match s.caller
    case Waiting(id, _) => |s.received| == id
    case Ready => |s.received| == s.sent
    case Returning(_) => |s.received| == s.sent
    case _ => false
  }

  lemma {:induction false} RunInStep(states: seq<State>, steps: seq<Step>, i: nat)
    requires IsRun(states, steps) && Inv(states[0]) && InStep(states[0]) && Timeout !in steps && i < |states|
    ensures Inv(states[i]) && InStep(states[i])
    decreases i
  {
    hide Inv, InStep, Enabled, Apply;
    if i == 0 {
    } else {
      RunInStep(states, steps, i - 1);
      InvStep(states[i - 1], steps[i - 1]);
      assert steps[i - 1] != Timeout;
      InStepStep(states[i - 1], steps[i - 1]);
    }
  }

  lemma InStepStep(s: State, step: Step)
    requires Inv(s) && InStep(s) && Enabled(s, step) && step != Timeout
    ensures InStep(Apply(s, step))
  {
    hide Conserved, FlagsMatch, CancelledIsTrue;
    if OfHandler(step) {
      HandlerFrame(s, step);
      hide Apply, Enabled;
    }
  }

  /**
   In a run without timeouts every caller gets the response to its own action, and by
   then the handler is no longer running and has released both guards.
   */
  lemma NoTimeoutsOwnResponse(states: seq<State>, steps: seq<Step>, i: nat)
    requires IsRun(states, steps) && Init(states[0]) && Timeout !in steps && i < |steps| && steps[i] == Receive
    ensures states[i].caller.Waiting? && states[i].responses[0].id == states[i].caller.id
    ensures !states[i + 1].running && !states[i + 1].lockHeld && !states[i + 1].memGuard
  {
    InitInv(states[0]);
    RunInStep(states, steps, i);
    RunInv(states, steps, i + 1);
    NextResponse(states[i]);
    AllAnswered(states[i + 1]);
  }

  /** When everything sent has been answered and received, nothing is in flight. */
  lemma AllAnswered(s: State)
    requires Inv(s) && |s.received| == s.sent
    ensures s.requests == [] && s.responses == [] && (s.handler.Idle? || s.handler.Exited?)
    ensures !s.running && !s.lockHeld && !s.memGuard
  {
  }

  // -------------------------------------------------------- a timed-out dispatch

  predicate Synchronised(s: State) {
    s.requests == [] && s.responses == [] && s.handler.Idle? && |s.received| == s.sent
  }

  /** The handler has not been told to terminate. */
  ghost predicate Alive(s: State) {
    !s.handler.Exited? && (s.handler.Busy? ==> s.handler.action != TerminateThread) &&
    forall k | 0 <= k < |s.requests| :: s.requests[k].action != TerminateThread
  }

  /** A flag that was clear at the start is set only on account of action `id`. */
  ghost predicate FlagIsOwn(s: State, id: nat, clean: bool) {
    clean ==> s.runCancelled ==> s.cleared == Some(id)
  }

  /**
   The states of a dispatch with number `id` that began synchronised, up to its return;
   `clean` says that `run_cancelled` was false at the beginning.
   */
  ghost predicate OwnCall(s: State, id: nat, clean: bool) {
    Alive(s) &&
    match s.caller
    case Waiting(i, a) => i == id && a == Dispatch && |s.received| == id && FlagIsOwn(s, id, clean)
    case Terminating(i) => i == id && |s.received| == id && FlagIsOwn(s, id, clean)
    case Signalling(i, _) => i == id && |s.received| == id && FlagIsOwn(s, id, clean)
    case FinalCheck(i) => i == id && |s.received| == id && FlagIsOwn(s, id, clean)
    case Sleeping(i) => i == id && |s.received| == id && (clean ==> EndedCancelled(s, id))
    case Receiving(i) => i == id && |s.received| == id
    case Restoring(i, got) => i == id && (got.Some? ==> |s.received| == s.sent)
    case SendingInit(i, got) =>
      i == id && (got.Some? ==> |s.received| == s.sent && s.snapshots != [] && s.mem == s.snapshots[|s.snapshots| - 1])
    case WaitingInit(i, got) => i == id && (got.Some? ==> |s.received| + 1 == s.sent)
    case Returning(outcome) =>
      (outcome.Reinitialised? || outcome.Answered? ==> |s.received| == s.sent) &&
      (outcome in {CancelAttemptOnFinished, SignalFailed, Hung} ==> |s.received| == id && s.sent == id + 1)
    case Ready => false
  }

  lemma AliveStep(s: State, step: Step)
    requires Alive(s) && Enabled(s, step) && !step.Begin?
    ensures Alive(Apply(s, step))
  {
    match step {
      case Take =>
      case SetRunning | ClearCancelled | LockManager | EnterGuest(_) | GuestWrites(_) | GuestReturns(_) =>
      case CancelledExit | SetCancelled | DropMem | DropLock | StoreStopped | Respond | Crash =>
      case SendInit =>
      case _ =>
    }
  }

  /** While action `id` is the only one out, the handler can only be working on it. */
  lemma OnlyOneOut(s: State, id: nat)
    requires Inv(s) && s.sent == id + 1 && |s.received| == id && s.handler.Busy?
    ensures s.handler.id == id
  {
  }

  lemma FlagStep(s: State, step: Step, id: nat, clean: bool)
    requires Inv(s) && Enabled(s, step) && s.sent == id + 1 && |s.received| == id && FlagIsOwn(s, id, clean)
    ensures FlagIsOwn(Apply(s, step), id, clean)
  {
    if s.handler.Busy? {
      OnlyOneOut(s, id);
    }
  }

  lemma OwnCallStep(s: State, step: Step, id: nat, clean: bool)
    requires Inv(s) && OwnCall(s, id, clean) && Enabled(s, step) && step != Return
    ensures OwnCall(Apply(s, step), id, clean)
  {
    hide Conserved, FlagsMatch, Alive, EndedCancelled, FlagIsOwn, CancelledIsTrue;
    OutOfReady(s, step, id, clean);
    AliveStep(s, step);
    if s.sent == id + 1 && |s.received| == id && FlagIsOwn(s, id, clean) {
      FlagStep(s, step, id, clean);
    }
    if s.caller.Sleeping? && clean {
      CancelledStays(s, step, id);
    }
    if OfHandler(step) {
      HandlerStepInCall(s, step, id, clean);
    } else {
      CallerStepInCall(s, step, id, clean);
    }
  }

  lemma OutOfReady(s: State, step: Step, id: nat, clean: bool)
    requires OwnCall(s, id, clean) && Enabled(s, step)
    ensures !step.Begin?
  {
  }

  lemma HandlerStepInCall(s: State, step: Step, id: nat, clean: bool)
    requires Inv(s) && OwnCall(s, id, clean) && Enabled(s, step) && OfHandler(step) && Alive(Apply(s, step))
    requires s.sent == id + 1 && |s.received| == id && FlagIsOwn(s, id, clean) ==> FlagIsOwn(Apply(s, step), id, clean)
    requires s.caller.Sleeping? && clean ==> EndedCancelled(Apply(s, step), id)
    ensures OwnCall(Apply(s, step), id, clean)
  {
    HandlerFrame(s, step);
    if |s.received| == s.sent {
      AllAnswered(s);
    }
    hide Apply, Enabled, Conserved, FlagsMatch, Alive, EndedCancelled, FlagIsOwn, CancelledIsTrue;
  }

  lemma CallerStepInCall(s: State, step: Step, id: nat, clean: bool)
    requires Inv(s) && OwnCall(s, id, clean) && Enabled(s, step) && !OfHandler(step) && step != Return
    requires Alive(Apply(s, step))
    requires s.sent == id + 1 && |s.received| == id && FlagIsOwn(s, id, clean) ==> FlagIsOwn(Apply(s, step), id, clean)
    ensures OwnCall(Apply(s, step), id, clean)
  {
    hide Conserved, FlagsMatch, Alive;
    if step == CheckCancelled && s.runCancelled && clean {
      assert EndedCancelled(Apply(s, step), id);
    }
    hide EndedCancelled, FlagIsOwn, CancelledIsTrue;
    match step {
      case Receive | Timeout =>
      case SendInit | Restore(_) =>
      case _ =>
    }
  }

  /** `t` is reached from `s` within one call, that is, before the caller returns. */
  ghost predicate Within(s: State, t: State) {
    exists states, steps :: WithinBy(s, t, states, steps)
  }

  ghost predicate WithinBy(s: State, t: State, states: seq<State>, steps: seq<Step>) {
    IsRun(states, steps) && states[0] == s && states[|steps|] == t && Return !in steps
  }

  lemma {:induction false} OwnCallRun(states: seq<State>, steps: seq<Step>, i: nat, id: nat, clean: bool)
    requires IsRun(states, steps) && Return !in steps && Inv(states[0]) && OwnCall(states[0], id, clean) && i < |states|
    ensures Inv(states[i]) && OwnCall(states[i], id, clean)
    decreases i
  {
    hide Inv, OwnCall;
    if i == 0 {
    } else {
      OwnCallRun(states, steps, i - 1, id, clean);
      InvStep(states[i - 1], steps[i - 1]);
      assert steps[i - 1] != Return;
      OwnCallStep(states[i - 1], steps[i - 1], id, clean);
    }
  }

  lemma BeginsOwnCall(s: State)
    requires Inv(s) && Synchronised(s) && s.caller.Ready?
    ensures Inv(Apply(s, Begin(Dispatch)))
    ensures OwnCall(Apply(s, Begin(Dispatch)), s.sent, !s.runCancelled)
  {
  }

  /**
   From a synchronised dispatch that timed out: if terminating and re-initialising returns
   Ok(ExecutionCanceledByHost), the system is synchronised again, and on the way
   Initialise was sent with memory equal to the last snapshot.
   */
  lemma ReinitialiseRestores(s: State, states: seq<State>, steps: seq<Step>)
    requires Inv(s) && Synchronised(s) && s.caller.Ready?
    requires IsRun(states, steps) && Return !in steps && states[0] == Apply(s, Begin(Dispatch))
    requires states[|steps|].caller == Returning(Reinitialised(Canceled))
    ensures Synchronised(states[|steps|])
    ensures exists k | 0 <= k < |steps| ::
              steps[k] == SendInit && states[k].caller == SendingInit(s.sent, Some(Canceled)) &&
              states[k].snapshots != [] && states[k].mem == states[k].snapshots[|states[k].snapshots| - 1] &&
              Synchronised(states[k])
  {
    BeginsOwnCall(s);
    var n := |steps|;
    OwnCallRun(states, steps, n, s.sent, !s.runCancelled);
    AllAnswered(states[n]);
    var k := SendBefore(states, steps, n, Canceled);
    OwnCallRun(states, steps, k, s.sent, !s.runCancelled);
    AllAnswered(states[k]);
  }

  /**
   A dispatch that began synchronised and gave up on cancelling leaves exactly its own
   response unread, and the next call, whatever it is, waits for that one instead of its own.
   */
  lemma AbandonedCallMisleadsNext(s: State, t: State, next: Action, u: State)
    requires Inv(s) && Synchronised(s) && s.caller.Ready? && Within(Apply(s, Begin(Dispatch)), t)
    requires t.caller.Returning? && t.caller.outcome in {CancelAttemptOnFinished, SignalFailed, Hung}
    requires Within(Apply(Apply(t, Return), Begin(next)), u) && u.caller.Waiting? && u.responses != []
    ensures u.caller == Waiting(s.sent + 1, next) && u.responses[0].id == s.sent
  {
    var s1 := Apply(s, Begin(Dispatch));
    hide Apply, Enabled, OwnCall, Inv;
    BeginsOwnCall(s);
    var states, steps :| WithinBy(s1, t, states, steps);
    OwnCallRun(states, steps, |steps|, s.sent, !s.runCancelled);
    LeftOne(t, s.sent, !s.runCancelled, next);
    var v := Apply(Apply(t, Return), Begin(next));
    var states', steps' :| WithinBy(v, u, states', steps');
    StillWaiting(states', steps', |steps'|);
    RunInv(states', steps', |steps'|);
    NextResponse(u);
  }

  lemma LeftOne(t: State, id: nat, clean: bool, next: Action)
    requires Inv(t) && OwnCall(t, id, clean) && t.caller.Returning?
    requires t.caller.outcome in {CancelAttemptOnFinished, SignalFailed, Hung}
    ensures Enabled(t, Return) && Enabled(Apply(t, Return), Begin(next))
    ensures var u := Apply(Apply(t, Return), Begin(next));
            Inv(u) && u.caller == Waiting(id + 1, next) && |u.received| == id
  {
    InvStep(t, Return);
    InvStep(Apply(t, Return), Begin(next));
    hide Inv;
  }

  /** A caller still waiting within a call has received nothing since it began. */
  lemma {:induction false} StillWaiting(states: seq<State>, steps: seq<Step>, i: nat)
    requires IsRun(states, steps) && Return !in steps && i < |states| && states[0].caller.Waiting?
    ensures !states[i].caller.Ready?
    ensures states[i].caller.Waiting? ==> states[i].caller == states[0].caller && states[i].received == states[0].received
    decreases i
  {
    if i == 0 {
    } else {
      hide Apply, Enabled;
      StillWaiting(states, steps, i - 1);
      assert states[i] == Apply(states[i - 1], steps[i - 1]) && steps[i - 1] != Return;
      WaitingStep(states[i - 1], steps[i - 1]);
    }
  }

  lemma WaitingStep(s: State, step: Step)
    requires Enabled(s, step) && step != Return && !s.caller.Ready?
    ensures var s' := Apply(s, step);
            !s'.caller.Ready? && (s'.caller.Waiting? ==> s'.caller == s.caller && s'.received == s.received)
  {
    if OfHandler(step) {
      HandlerFrame(s, step);
      hide Apply, Enabled;
    }
  }

  /** A caller that has `was` in hand after sending Initialise sent it with `was` in hand. */
  lemma {:induction false} SendBefore(states: seq<State>, steps: seq<Step>, n: nat, was: Msg) returns (k: nat)
    requires IsRun(states, steps) && Return !in steps && n < |states| && states[0].caller.Waiting?
    requires InHand(states[n], was)
    ensures k < n && steps[k] == SendInit && states[k].caller.SendingInit? && states[k].caller.got == Some(was)
    decreases n
  {
    hide Enabled, Apply;
    assert n > 0;
    var step := steps[n - 1];
    assert Enabled(states[n - 1], step) && states[n] == Apply(states[n - 1], step);
    assert step != Return;
    CameFrom(states[n - 1], step, was);
    if step == SendInit {
      return n - 1;
    }
    k := SendBefore(states, steps, n - 1, was);
  }

  ghost predicate InHand(s: State, was: Msg) {
    s.caller == Returning(Reinitialised(was)) || (s.caller.WaitingInit? && s.caller.got == Some(was))
  }

  lemma CameFrom(s: State, step: Step, was: Msg)
    requires Enabled(s, step) && step != Return && InHand(Apply(s, step), was)
    ensures if step == SendInit then s.caller.SendingInit? && s.caller.got == Some(was) else InHand(s, was)
  {
    if OfHandler(step) {
      HandlerFrame(s, step);
      hide Apply, Enabled;
    }
  }

  // --------------------------------------------- when can a cancellation be trusted?

  lemma WithinSelf(s: State)
    ensures Within(s, s)
  {
    assert WithinBy(s, s, [s], []);
  }

  lemma WithinStep(s: State, t: State, step: Step)
    requires Within(s, t) && Enabled(t, step) && step != Return
    ensures Within(s, Apply(t, step))
  {
    hide Enabled, Apply;
    var states, steps :| WithinBy(s, t, states, steps);
    var states', steps' := states + [Apply(t, step)], steps + [step];
    forall i | 0 <= i < |steps'| ensures Enabled(states'[i], steps'[i]) && states'[i + 1] == Apply(states'[i], steps'[i]) {
      if i < |steps| {
        assert Enabled(states[i], steps[i]) && states[i + 1] == Apply(states[i], steps[i]);
      }
    }
    assert WithinBy(s, Apply(t, step), states', steps');
  }

  /** The call that starts at `s1` reports its action `id` terminated only if it was cancelled. */
  ghost predicate Trustworthy(s1: State, id: nat) {
    forall t | Within(s1, t) && t.caller.Sleeping? :: EndedCancelled(t, id)
  }

  /**
   From a synchronised dispatch, `terminate_execution` returning Ok means that the action
   was cancelled, in every interleaving, exactly when `run_cancelled` was false when the
   action was sent. A flag left over from an earlier cancelled action can be mistaken for
   this one's, between the handler's two stores at the start of the action.
   */
  lemma TrustworthyIffFlagClear(s: State)
    requires Inv(s) && Synchronised(s) && s.caller.Ready?
    ensures Trustworthy(Apply(s, Begin(Dispatch)), s.sent) <==> !s.runCancelled
  {
    var s1 := Apply(s, Begin(Dispatch));
    BeginsOwnCall(s);
    if s.runCancelled {
      var t := StaleFlagMisleads(s);
    } else {
      forall t | Within(s1, t) && t.caller.Sleeping? ensures EndedCancelled(t, s.sent) {
        var states, steps :| WithinBy(s1, t, states, steps);
        OwnCallRun(states, steps, |steps|, s.sent, true);
      }
    }
  }

  /** The interleaving in which a left-over flag is taken for the new action's. */
  lemma StaleFlagMisleads(s: State) returns (t: State)
    requires Inv(s) && Synchronised(s) && s.caller.Ready? && s.runCancelled
    ensures Within(Apply(s, Begin(Dispatch)), t) && t.caller == Sleeping(s.sent) && !EndedCancelled(t, s.sent)
  {
    var s1 := Apply(s, Begin(Dispatch));
    var u := HandlerSetsRunning(s, s1);
    t := CallerSeesBothFlags(s1, u, s.sent);
  }

  /** The handler takes the action and stores `running`, and not yet `run_cancelled`. */
  lemma HandlerSetsRunning(s: State, s1: State) returns (u: State)
    requires Synchronised(s) && s.caller.Ready? && s.runCancelled && s1 == Apply(s, Begin(Dispatch))
    ensures Within(s1, u) && u.caller == Waiting(s.sent, Dispatch) && u.handler == Busy(s.sent, Dispatch, RunningSet, Finished)
    ensures u.running && u.runCancelled && |Done(u)| == s.sent
  {
    hide Within;
    WithinSelf(s1);
    WithinStep(s1, s1, Take);
    u := Apply(s1, Take);
    WithinStep(s1, u, SetRunning);
    u := Apply(u, SetRunning);
  }

  /** The caller times out, sees both flags set and believes its action cancelled. */
  lemma CallerSeesBothFlags(s1: State, u: State, id: nat) returns (t: State)
    requires Within(s1, u) && u.caller == Waiting(id, Dispatch) && u.handler == Busy(id, Dispatch, RunningSet, Finished)
    requires u.running && u.runCancelled && |Done(u)| == id
    ensures Within(s1, t) && t.caller == Sleeping(id) && !EndedCancelled(t, id)
  {
    hide Within, EndedCancelled;
    WithinStep(s1, u, Timeout);
    var v := Apply(u, Timeout);
    assert v == u.(caller := Terminating(id));
    WithinStep(s1, v, CheckRunning);
    v := Apply(v, CheckRunning);
    assert v == u.(caller := Signalling(id, 0));
    t := SignalLoopEnds(s1, v, id);
  }

  lemma SignalLoopEnds(s1: State, u: State, id: nat) returns (t: State)
    requires Within(s1, u) && u.caller == Signalling(id, 0) && u.handler == Busy(id, Dispatch, RunningSet, Finished)
    requires u.runCancelled && |Done(u)| == id
    ensures Within(s1, t) && t.caller == Sleeping(id) && !EndedCancelled(t, id)
  {
    hide Within;
    WithinStep(s1, u, Poll);
    var v := Apply(u, Poll);
    assert v == u.(caller := FinalCheck(id));
    WithinStep(s1, v, CheckCancelled);
    t := Apply(v, CheckCancelled);
    assert t == u.(caller := Sleeping(id));
  }

  /** States some run reaches from an initial one. */
  ghost predicate Reachable(s: State) {
    exists states, steps :: IsRun(states, steps) && Init(states[0]) && states[|steps|] == s
  }

  /**
   In every reachable state every action sent is queued, in progress (or lost with a
   crashed handler), answered and waiting, or answered and received; a set `run_cancelled`
   means that the action that last cleared it ended as cancelled; and the signal loop
   has sent no more signals than its limit.
   */
  lemma ReachableInv(s: State)
    requires Reachable(s)
    ensures Inv(s)
    ensures s.sent == |s.requests| + InProgress(s) + |s.responses| + |s.received|
    ensures s.runCancelled ==> s.cleared.Some? && EndedCancelled(s, s.cleared.value)
    ensures s.caller.Signalling? ==> s.caller.count <= s.limit
  {
    hide Init;
    var states, steps :| IsRun(states, steps) && Init(states[0]) && states[|steps|] == s;
    InitInv(states[0]);
    RunInv(states, steps, |steps|);
  }

  lemma ReachableStep(s: State, step: Step)
    requires Reachable(s) && Enabled(s, step)
    ensures Reachable(Apply(s, step))
  {
    hide Enabled, Apply, Init;
    var states, steps :| IsRun(states, steps) && Init(states[0]) && states[|steps|] == s;
    var states', steps' := states + [Apply(s, step)], steps + [step];
    forall i | 0 <= i < |steps'| ensures Enabled(states'[i], steps'[i]) && states'[i + 1] == Apply(states'[i], steps'[i]) {
      if i < |steps| {
        assert Enabled(states[i], steps[i]) && states[i + 1] == Apply(states[i], steps[i]);
      }
    }
    assert IsRun(states', steps') && Init(states'[0]) && states'[|steps'|] == Apply(s, step);
  }

  /** Action `id` is the only one out, its caller waits and the handler is at `stage`. */
  ghost predicate Alone(s: State, id: nat, stage: Stage, msg: Msg) {
    Reachable(s) && s.caller == Waiting(id, Initialise) && s.handler == Busy(id, Initialise, stage, msg) &&
    s.requests == [] && s.responses == [] && |s.received| == id && s.sent == id + 1
  }

  lemma Advance(s: State, id: nat, stage: Stage, msg: Msg, step: Step) returns (t: State)
    requires Alone(s, id, stage, msg) && Enabled(s, step) && OfHandler(step) && !step.Respond? && !step.Crash?
    ensures t == Apply(s, step) && t.handler.Busy? && Alone(t, id, t.handler.stage, t.handler.msg)
  {
    ReachableStep(s, step);
    hide Reachable;
    t := Apply(s, step);
  }

  /**
   The left-over flag is real: any reachable synchronised state is followed by one in
   which an initialisation has been cancelled and answered and the flag is still set.
   */
  lemma StaleFlagIsReachable(s: State) returns (t: State)
    requires Reachable(s) && Synchronised(s) && s.caller.Ready?
    ensures Reachable(t) && Synchronised(t) && t.caller.Ready? && t.runCancelled
  {
    var u := ActionTaken(s);
    hide Alone;
    u := Advance(u, s.sent, Taken, Finished, SetRunning);
    u := Advance(u, s.sent, RunningSet, Finished, ClearCancelled);
    u := Advance(u, s.sent, Cleared, Finished, LockManager);
    u := Advance(u, s.sent, Locked, Finished, EnterGuest(true));
    u := Advance(u, s.sent, InGuest, Finished, CancelledExit);
    u := Advance(u, s.sent, CancelSeen, Finished, SetCancelled);
    t := WindsDown(u, s.sent);
  }

  lemma ActionTaken(s: State) returns (u: State)
    requires Reachable(s) && Synchronised(s) && s.caller.Ready?
    ensures Alone(u, s.sent, Taken, Finished) && At(u, Taken) && u.handler.action == Initialise
  {
    hide Reachable;
    ReachableStep(s, Begin(Initialise));
    u := Apply(s, Begin(Initialise));
    ReachableStep(u, Take);
    u := Apply(u, Take);
  }

  lemma WindsDown(s: State, id: nat) returns (t: State)
    requires Alone(s, id, Returned, Canceled) && s.runCancelled
    ensures Reachable(t) && Synchronised(t) && t.caller.Ready? && t.runCancelled
  {
    var u := Advance(s, id, Returned, Canceled, DropMem);
    u := Advance(u, id, MemDropped, Canceled, DropLock);
    u := Advance(u, id, LockDropped, Canceled, StoreStopped);
    hide Reachable;
    t := Answer(u, id);
  }

  lemma Answer(s: State, id: nat) returns (t: State)
    requires Alone(s, id, Stopped, Canceled) && s.runCancelled
    ensures Reachable(t) && Synchronised(t) && t.caller.Ready? && t.runCancelled
  {
    hide Reachable;
    ReachableStep(s, Respond);
    t := Apply(s, Respond);
    ReachableStep(t, Receive);
    t := Apply(t, Receive);
    ReachableStep(t, Return);
    t := Apply(t, Return);
  }

  // ------------------------------------------------ "finished while trying to cancel it"

  /** The exact stages at which `running` is set. */
  ghost predicate RunningExact(s: State) {
    match s.handler
    case Busy(id, _, stage, _) =>
      (s.running <==> stage in {RunningSet, Cleared, Locked, InGuest} ||
                      (stage in {Returned, MemDropped, LockDropped} && !s.runCancelled)) &&
      (stage in {Cleared, Locked, InGuest, CancelSeen} ==> !s.runCancelled) &&
      (stage == Taken ==> s.cleared != Some(id))
    case Crashed(id) => s.running <==> s.cleared == Some(id)
    case _ => !s.running
  }

  /** The action the handler takes next is not the one that last cleared `run_cancelled`. */
  lemma FreshId(s: State)
    requires Inv(s) && Enabled(s, Take)
    ensures s.cleared != Some(s.requests[0].id)
  {
    hide Done, FlagsMatch, CallerMatches, EndedCancelled;
  }

  lemma RunningStep(s: State, step: Step)
    requires Inv(s) && RunningExact(s) && Enabled(s, step)
    ensures RunningExact(Apply(s, step))
  {
    if step == Take {
      FreshId(s);
    }
    hide Inv;
    match step {
      case Take | SetRunning | ClearCancelled | LockManager | EnterGuest(_) | GuestWrites(_) | GuestReturns(_) =>
      case CancelledExit | SetCancelled | DropMem | DropLock | StoreStopped | Respond | Crash =>
      case _ =>
    }
  }

  lemma {:induction false} RunRunning(states: seq<State>, steps: seq<Step>, i: nat)
    requires IsRun(states, steps) && Inv(states[0]) && RunningExact(states[0]) && i < |states|
    ensures RunningExact(states[i])
    decreases i
  {
    hide Inv, RunningExact, Enabled, Apply;
    if i == 0 {
    } else {
      RunRunning(states, steps, i - 1);
      RunInv(states, steps, i - 1);
      RunningStep(states[i - 1], steps[i - 1]);
    }
  }

  lemma ReachableRunning(s: State)
    requires Reachable(s)
    ensures RunningExact(s)
  {
    var states, steps :| IsRun(states, steps) && Init(states[0]) && states[|steps|] == s;
    InitInv(states[0]);
    RunRunning(states, steps, |steps|);
  }

  /** The handler has not begun the one action that is out: it is queued, just taken, or lost at that point. */
  ghost predicate NotBegun(s: State, id: nat) {
    s.requests != [] || At(s, Taken) || (s.handler.Crashed? && s.cleared != Some(id))
  }

  /** The guest no longer runs it: it is answered, about to be, or was cancelled. */
  ghost predicate Over(s: State, id: nat) {
    id < |Done(s)| || At(s, CancelSeen) || At(s, Stopped) ||
    (s.runCancelled && (At(s, Returned) || At(s, MemDropped) || At(s, LockDropped)))
  }

  /**
   A timed-out call with nothing else outstanding is told that execution finished while
   it tried to cancel it exactly when the action is over or has not even begun.
   */
  lemma FinishedReportIff(s: State, id: nat)
    requires Reachable(s) && s.caller == Terminating(id) && |s.received| == id
    ensures Apply(s, CheckRunning).caller == Returning(CancelAttemptOnFinished) <==> NotBegun(s, id) || Over(s, id)
    ensures !(NotBegun(s, id) && Over(s, id))
  {
    ReachableInv(s);
    ReachableRunning(s);
    hide Reachable, FlagsMatch, EndedCancelled;
  }

  /** Within the call that began at `v`, whose caller waits, the handler is at `stage` of an earlier action. */
  ghost predicate Behind(v: State, u: State, id: nat, next: Action, stage: Stage) {
    Within(v, u) && u.caller == Waiting(id + 1, next) && u.handler == Busy(id, Dispatch, stage, Finished) && u.responses == []
  }

  /** The handler's next step in an action whose guest run succeeds, and how many are left. */
  function NextStep(stage: Stage): (Step, Stage, nat) {
    match stage
    case Taken => (SetRunning, RunningSet, 8)
    case RunningSet => (ClearCancelled, Cleared, 7)
    case Cleared => (LockManager, Locked, 6)
    case Locked => (EnterGuest(true), InGuest, 5)
    case InGuest => (GuestReturns(Finished), Returned, 4)
    case Returned => (DropMem, MemDropped, 3)
    case MemDropped => (DropLock, LockDropped, 2)
    case LockDropped => (StoreStopped, Stopped, 1)
    case _ => (Respond, Stopped, 0)
  }

  lemma AdvanceBehind(v: State, u: State, id: nat, next: Action, stage: Stage) returns (u': State)
    requires Behind(v, u, id, next, stage) && stage !in {CancelSeen, Stopped}
    ensures Behind(v, u', id, next, NextStep(stage).1)
  {
    var step := NextStep(stage).0;
    assert Enabled(u, step);
    WithinStep(v, u, step);
    hide Within, Enabled;
    u' := Apply(u, step);
  }

  /** The handler runs the earlier action to its end while the next call waits. */
  lemma {:induction false} FinishBehind(v: State, u: State, id: nat, next: Action, stage: Stage) returns (u': State)
    requires Behind(v, u, id, next, stage) && stage != CancelSeen
    ensures Within(v, u') && u'.caller == Waiting(id + 1, next) && u'.responses == [Response(id, Finished)]
    decreases NextStep(stage).2
  {
    if stage == Stopped {
      WithinStep(v, u, Respond);
      hide Within;
      u' := Apply(u, Respond);
    } else {
      hide Behind, Within;
      u' := AdvanceBehind(v, u, id, next, stage);
      u' := FinishBehind(v, u', id, next, NextStep(stage).1);
    }
  }

  /**
   From every synchronised state a dispatch can be told that it finished although the
   handler has not taken it, and the next call, whatever it is, then finds the response
   to that dispatch in place of its own.
   */
  lemma AbandonedCallIsReachable(s: State, next: Action) returns (t: State, u: State)
    requires Inv(s) && Synchronised(s) && s.caller.Ready?
    ensures Within(Apply(s, Begin(Dispatch)), t) && t.caller == Returning(CancelAttemptOnFinished)
    ensures t.handler.Idle? && t.requests == [Request(s.sent, Dispatch)] && NotBegun(t, s.sent)
    ensures Within(Apply(Apply(t, Return), Begin(next)), u)
    ensures u.caller == Waiting(s.sent + 1, next) && u.responses == [Response(s.sent, Finished)]
  {
    t := FinishedTooEarly(s);
    u := OldResponseArrives(t, s.sent, next);
  }

  lemma FinishedTooEarly(s: State) returns (t: State)
    requires Inv(s) && Synchronised(s) && s.caller.Ready?
    ensures Within(Apply(s, Begin(Dispatch)), t)
    ensures t == s.(caller := Returning(CancelAttemptOnFinished), requests := [Request(s.sent, Dispatch)], sent := s.sent + 1)
  {
    assert !s.running;
    hide Within, Inv;
    t := GivesUp(Apply(s, Begin(Dispatch)), s.sent);
  }

  lemma GivesUp(s1: State, id: nat) returns (t: State)
    requires s1.caller == Waiting(id, Dispatch) && !s1.running
    ensures Within(s1, t) && t == s1.(caller := Returning(CancelAttemptOnFinished))
  {
    WithinSelf(s1);
    hide Within;
    WithinStep(s1, s1, Timeout);
    t := Apply(s1, Timeout);
    WithinStep(s1, t, CheckRunning);
    t := Apply(t, CheckRunning);
  }

  lemma OldResponseArrives(t: State, id: nat, next: Action) returns (u: State)
    requires t.caller.Returning? && t.handler.Idle? && t.requests == [Request(id, Dispatch)] && t.responses == []
    requires t.sent == id + 1
    ensures Within(Apply(Apply(t, Return), Begin(next)), u)
    ensures u.caller == Waiting(id + 1, next) && u.responses == [Response(id, Finished)]
  {
    var v := Apply(Apply(t, Return), Begin(next));
    u := TakenBehind(v, id, next);
    hide Behind, Within;
    u := FinishBehind(v, u, id, next, Taken);
  }

  lemma TakenBehind(v: State, id: nat, next: Action) returns (u: State)
    requires v.caller == Waiting(id + 1, next) && v.handler.Idle? && v.responses == []
    requires |v.requests| > 0 && v.requests[0] == Request(id, Dispatch)
    ensures Behind(v, u, id, next, Taken)
  {
    WithinSelf(v);
    hide Within;
    WithinStep(v, v, Take);
    u := Apply(v, Take);
  }
}
