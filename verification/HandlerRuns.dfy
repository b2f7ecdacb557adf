/**
What whole runs of the handler protocol tell the caller: the message it gets for an action
is how the guest run of that action ended, no snapshot is taken or restored under a guest
that holds the memory guard, memory is what was last written or restored, and the signal
loop sends exactly as many signals as it may.
*/
module HandlerRuns {
  import opened Bytes
  import opened Handler

  /** One step of a run. */
  lemma StepAt(states: seq<State>, steps: seq<Step>, i: nat)
    requires IsRun(states, steps) && i < |steps|
    ensures |states| == |steps| + 1 && Enabled(states[i], steps[i]) && states[i + 1] == Apply(states[i], steps[i])
  {
    hide Enabled, Apply;
  }

  // ------------------------------------------------------------- how an action ends

  /** Step `step` ends action `id`, of kind `action`, from state `s`. */
  ghost predicate Ends(s: State, step: Step, id: nat, action: Action) {
    s.handler.Busy? && s.handler.id == id && s.handler.action == action &&
    (step.GuestReturns? || step == SetCancelled || (step == Respond && action == TerminateThread && At(s, Stage.Taken)))
  }

  /** What the end means: the guest's own result, cancelled, or an orderly termination. */
  function Ending(step: Step): Msg {
    match step
    case GuestReturns(msg) => msg
    case SetCancelled => Canceled
    case _ => Finished
  }

  /** Step `step` sends action number `n`, of kind `action`, from state `s`. */
  ghost predicate IsSend(s: State, step: Step, n: nat, action: Action) {
    s.sent == n && (step == Begin(action) || (step == SendInit && action == Initialise))
  }

  ghost predicate Sends(states: seq<State>, steps: seq<Step>, i: nat, n: nat, action: Action)
    requires i <= |steps| < |states|
  {
    exists b | 0 <= b < i :: IsSend(states[b], steps[b], n, action)
  }

  ghost predicate Ended(states: seq<State>, steps: seq<Step>, i: nat, n: nat, action: Action, msg: Msg)
    requires i <= |steps| < |states|
  {
    exists k | 0 <= k < i :: Ends(states[k], steps[k], n, action) && Ending(steps[k]) == msg
  }

  /** Response `r` was sent for an action that was sent, and tells how it ended. */
  ghost predicate Tells(states: seq<State>, steps: seq<Step>, i: nat, r: Response)
    requires i <= |steps| < |states|
  {
    exists action :: Sends(states, steps, i, r.id, action) && Ended(states, steps, i, r.id, action, r.msg)
  }

  /** The stages of an action whose guest run is over. */
  predicate WindingDown(stage: Stage) {
    stage in {Returned, MemDropped, LockDropped, Stopped}
  }

  ghost predicate QueueKnown(states: seq<State>, steps: seq<Step>, i: nat)
    requires i <= |steps| < |states|
  {
    forall k | 0 <= k < |states[i].requests| ::
      Sends(states, steps, i, states[i].requests[k].id, states[i].requests[k].action)
  }

  ghost predicate WorkKnown(states: seq<State>, steps: seq<Step>, i: nat)
    requires i <= |steps| < |states|
  {
    match states[i].handler
    case Busy(id, action, stage, msg) =>
      Sends(states, steps, i, id, action) && (WindingDown(stage) ==> Ended(states, steps, i, id, action, msg))
    case _ => true
  }

  ghost predicate AnswersKnown(states: seq<State>, steps: seq<Step>, i: nat)
    requires i <= |steps| < |states|
  {
    forall n | 0 <= n < |Done(states[i])| :: Tells(states, steps, i, Done(states[i])[n])
  }

  ghost predicate CallKnown(states: seq<State>, steps: seq<Step>, i: nat)
    requires i <= |steps| < |states|
  {
    match states[i].caller
    case Waiting(id, action) => Sends(states, steps, i, id, action)
    case Terminating(id) => Sends(states, steps, i, id, Dispatch)
    case Signalling(id, _) => Sends(states, steps, i, id, Dispatch)
    case FinalCheck(id) => Sends(states, steps, i, id, Dispatch)
    case Sleeping(id) => Sends(states, steps, i, id, Dispatch)
    case Receiving(id) => Sends(states, steps, i, id, Dispatch)
    case Restoring(id, _) => Sends(states, steps, i, id, Dispatch)
    case SendingInit(id, _) => Sends(states, steps, i, id, Dispatch)
    case WaitingInit(id, _) => Sends(states, steps, i, id, Dispatch)
    case _ => true
  }

  lemma SendsLater(states: seq<State>, steps: seq<Step>, i: nat, n: nat, action: Action)
    requires i < |steps| < |states| && Sends(states, steps, i, n, action)
    ensures Sends(states, steps, i + 1, n, action)
  {
  }

  lemma EndedLater(states: seq<State>, steps: seq<Step>, i: nat, n: nat, action: Action, msg: Msg)
    requires i < |steps| < |states| && Ended(states, steps, i, n, action, msg)
    ensures Ended(states, steps, i + 1, n, action, msg)
  {
  }

  lemma TellsLater(states: seq<State>, steps: seq<Step>, i: nat, r: Response)
    requires i < |steps| < |states| && Tells(states, steps, i, r)
    ensures Tells(states, steps, i + 1, r)
  {
    hide Sends, Ended;
    var action :| Sends(states, steps, i, r.id, action) && Ended(states, steps, i, r.id, action, r.msg);
    SendsLater(states, steps, i, r.id, action);
    EndedLater(states, steps, i, r.id, action, r.msg);
  }

  lemma SendsNow(states: seq<State>, steps: seq<Step>, i: nat, n: nat, action: Action)
    requires i < |steps| < |states| && IsSend(states[i], steps[i], n, action)
    ensures Sends(states, steps, i + 1, n, action)
  {
  }

  lemma EndsNow(states: seq<State>, steps: seq<Step>, i: nat, n: nat, action: Action)
    requires i < |steps| < |states| && Ends(states[i], steps[i], n, action)
    ensures Ended(states, steps, i + 1, n, action, Ending(steps[i]))
  {
  }

  lemma TellsIntro(states: seq<State>, steps: seq<Step>, i: nat, r: Response, action: Action)
    requires i <= |steps| < |states| && Sends(states, steps, i, r.id, action) && Ended(states, steps, i, r.id, action, r.msg)
    ensures Tells(states, steps, i, r)
  {
  }

  /** What a step adds to the queue. */
  lemma QueueStep(s: State, step: Step)
    requires Enabled(s, step)
    ensures var q := Apply(s, step).requests;
            match step
            case Take => q == s.requests[1..]
            case Begin(action) => q == s.requests + [Request(s.sent, action)]
            case SendInit => q == s.requests + [Request(s.sent, Initialise)]
            case _ => q == s.requests
  {
  }

  lemma QueueKnownStep(states: seq<State>, steps: seq<Step>, i: nat)
    requires IsRun(states, steps) && i < |steps| && QueueKnown(states, steps, i)
    ensures QueueKnown(states, steps, i + 1)
  {
    var s, step := states[i], steps[i];
    QueueStep(s, step);
    hide Apply, Enabled, Sends;
    var q := states[i + 1].requests;
    forall k | 0 <= k < |q| ensures Sends(states, steps, i + 1, q[k].id, q[k].action) {
      if step == Take {
        SendsLater(states, steps, i, s.requests[k + 1].id, s.requests[k + 1].action);
      } else if k < |s.requests| {
        SendsLater(states, steps, i, s.requests[k].id, s.requests[k].action);
      } else {
        SendsNow(states, steps, i, q[k].id, q[k].action);
      }
    }
  }

  /** What a step does to the action in hand. */
  lemma WorkStep(s: State, step: Step)
    requires Enabled(s, step)
    ensures var h := Apply(s, step).handler;
            h.Busy? ==>
              if step == Take then h == Busy(s.requests[0].id, s.requests[0].action, Taken, Finished)
              else s.handler.Busy? && h.id == s.handler.id && h.action == s.handler.action &&
                   if step.GuestReturns? || step == SetCancelled then h.stage == Returned && h.msg == Ending(step)
                   else h.msg == s.handler.msg && (WindingDown(h.stage) ==> WindingDown(s.handler.stage))
  {
    match step {
      case Take | SetRunning | ClearCancelled | LockManager | EnterGuest(_) | GuestWrites(_) | GuestReturns(_) =>
      case CancelledExit | SetCancelled | DropMem | DropLock | StoreStopped | Respond | Crash =>
      case _ =>
    }
  }

  lemma WorkKnownStep(states: seq<State>, steps: seq<Step>, i: nat)
    requires IsRun(states, steps) && i < |steps| && WorkKnown(states, steps, i) && QueueKnown(states, steps, i)
    ensures WorkKnown(states, steps, i + 1)
  {
    var s, step := states[i], steps[i];
    WorkStep(s, step);
    var h := states[i + 1].handler;
    if h.Busy? {
      if step == Take {
        SendsLater(states, steps, i, s.requests[0].id, s.requests[0].action);
      } else {
        hide Apply, Enabled, Sends, Ended;
        SendsLater(states, steps, i, h.id, h.action);
        if step.GuestReturns? || step == SetCancelled {
          EndsNow(states, steps, i, h.id, h.action);
        } else if WindingDown(h.stage) {
          EndedLater(states, steps, i, h.id, h.action, h.msg);
        }
      }
    }
  }

  lemma AnswersKnownStep(states: seq<State>, steps: seq<Step>, i: nat)
    requires IsRun(states, steps) && i < |steps| && AnswersKnown(states, steps, i) && WorkKnown(states, steps, i)
    ensures AnswersKnown(states, steps, i + 1)
  {
    var s, step := states[i], steps[i];
    assert Enabled(s, step) && states[i + 1] == Apply(s, step);
    DoneStep(s, step);
    var last := Response(0, Finished);
    if step == Respond {
      last := NewAnswer(states, steps, i);
    }
    hide Apply, Enabled, Sends, Ended, Tells, Done;
    var d := Done(states[i + 1]);
    forall n | 0 <= n < |d| ensures Tells(states, steps, i + 1, d[n]) {
      if n < |Done(s)| {
        TellsLater(states, steps, i, Done(s)[n]);
      }
    }
  }

  /** The response a step sends tells how its action ended. */
  lemma NewAnswer(states: seq<State>, steps: seq<Step>, i: nat) returns (r: Response)
    requires IsRun(states, steps) && i < |steps| && steps[i] == Respond && WorkKnown(states, steps, i)
    ensures states[i].handler.Busy?
    ensures r == Response(states[i].handler.id, if states[i].handler.stage == Stopped then states[i].handler.msg else Finished)
    ensures Tells(states, steps, i + 1, r)
  {
    var h := states[i].handler;
    assert Enabled(states[i], steps[i]);
    hide Apply, Sends, Ended;
    SendsLater(states, steps, i, h.id, h.action);
    if h.stage == Stopped {
      r := Response(h.id, h.msg);
      EndedLater(states, steps, i, h.id, h.action, h.msg);
    } else {
      r := Response(h.id, Finished);
      EndsNow(states, steps, i, h.id, h.action);
    }
    TellsIntro(states, steps, i + 1, r, h.action);
  }

  /** Where a step takes the caller, as far as its action goes. */
  lemma CallStep(s: State, step: Step)
    requires Enabled(s, step)
    ensures var pc := Apply(s, step).caller;
            if step.Begin? then pc == Waiting(s.sent, step.action)
            else (pc.Waiting? ==> s.caller == pc) &&
                 (OnDispatch(pc).Some? && OnDispatch(pc) != OnDispatch(s.caller) ==>
                    step == Timeout && s.caller.Waiting? && s.caller.action == Dispatch && OnDispatch(pc) == Some(s.caller.id))
  {
    if OfHandler(step) {
      HandlerFrame(s, step);
      hide Apply, Enabled;
    }
  }

  /** The dispatch a caller is trying to terminate. */
  function OnDispatch(pc: CallerPc): Option<nat> {
    match pc
    case Terminating(id) => Some(id)
    case Signalling(id, _) => Some(id)
    case FinalCheck(id) => Some(id)
    case Sleeping(id) => Some(id)
    case Receiving(id) => Some(id)
    case Restoring(id, _) => Some(id)
    case SendingInit(id, _) => Some(id)
    case WaitingInit(id, _) => Some(id)
    case _ => None
  }

  lemma CallKnownStep(states: seq<State>, steps: seq<Step>, i: nat)
    requires IsRun(states, steps) && i < |steps| && CallKnown(states, steps, i)
    ensures CallKnown(states, steps, i + 1)
  {
    var s, step := states[i], steps[i];
    CallStep(s, step);
    assert states[i + 1] == Apply(s, step);
    hide Apply, Enabled, Sends;
    var pc := states[i + 1].caller;
    if step.Begin? {
      SendsNow(states, steps, i, s.sent, step.action);
    } else if pc.Waiting? {
      SendsLater(states, steps, i, pc.id, pc.action);
    } else if OnDispatch(pc).Some? {
      SendsLater(states, steps, i, OnDispatch(pc).value, Dispatch);
    }
  }

  ghost predicate Known(states: seq<State>, steps: seq<Step>, i: nat)
    requires i <= |steps| < |states|
  {
    QueueKnown(states, steps, i) && WorkKnown(states, steps, i) && AnswersKnown(states, steps, i) && CallKnown(states, steps, i)
  }

  lemma {:induction false} RunKnown(states: seq<State>, steps: seq<Step>, i: nat)
    requires IsRun(states, steps) && Init(states[0]) && i <= |steps|
    ensures Known(states, steps, i)
    decreases i
  {
    if i == 0 {
    } else {
      hide QueueKnown, WorkKnown, AnswersKnown, CallKnown, Init;
      RunKnown(states, steps, i - 1);
      QueueKnownStep(states, steps, i - 1);
      WorkKnownStep(states, steps, i - 1);
      AnswersKnownStep(states, steps, i - 1);
      CallKnownStep(states, steps, i - 1);
    }
  }

  // --------------------------------------------------------- once sent, once ended

  lemma SentStep(s: State, step: Step)
    requires Enabled(s, step)
    ensures Apply(s, step).sent == s.sent + (if step.Begin? || step == SendInit then 1 else 0)
  {
    if OfHandler(step) {
      HandlerFrame(s, step);
      hide Apply, Enabled;
    } else {
      match step {
        case Receive | Timeout =>
        case Begin(_) | SendInit | Restore(_) | Return =>
        case _ =>
      }
    }
  }

  lemma {:induction false} SentGrows(states: seq<State>, steps: seq<Step>, j: nat, i: nat)
    requires IsRun(states, steps) && j <= i <= |steps|
    ensures states[j].sent <= states[i].sent
    decreases i - j
  {
    hide Apply, Enabled, IsRun;
    if j == i {
    } else {
      StepAt(states, steps, i - 1);
      SentGrows(states, steps, j, i - 1);
      SentStep(states[i - 1], steps[i - 1]);
    }
  }

  /** The run of action `n` is over. */
  ghost predicate IsOver(s: State, n: nat) {
    n < |Done(s)| || (s.handler.Busy? && s.handler.id == n && WindingDown(s.handler.stage))
  }

  lemma OverStays(s: State, step: Step, n: nat)
    requires Conserved(s) && Enabled(s, step) && IsOver(s, n)
    ensures IsOver(Apply(s, step), n)
  {
    DoneStep(s, step);
    hide Done;
    match step {
      case Take | SetRunning | ClearCancelled | LockManager | EnterGuest(_) | GuestWrites(_) | GuestReturns(_) =>
      case CancelledExit | SetCancelled | DropMem | DropLock | StoreStopped | Crash =>
      case Respond =>
      case _ =>
    }
  }

  lemma EndMakesOver(s: State, step: Step, n: nat, action: Action)
    requires Conserved(s) && Enabled(s, step) && Ends(s, step, n, action)
    ensures IsOver(Apply(s, step), n) && !IsOver(s, n)
  {
    DoneStep(s, step);
  }

  lemma {:induction false} OverRun(states: seq<State>, steps: seq<Step>, j: nat, i: nat, n: nat)
    requires IsRun(states, steps) && Inv(states[0]) && j <= i <= |steps| && IsOver(states[j], n)
    ensures IsOver(states[i], n)
    decreases i - j
  {
    hide IsOver, Enabled, Apply;
    if j == i {
    } else {
      OverRun(states, steps, j, i - 1, n);
      RunInv(states, steps, i - 1);
      OverStays(states[i - 1], steps[i - 1], n);
    }
  }

  /** An action ends at most once. */
  lemma EndsOnce(states: seq<State>, steps: seq<Step>, k: nat, k': nat, n: nat, a: Action, a': Action)
    requires IsRun(states, steps) && Inv(states[0]) && k < |steps| && k' < |steps|
    requires Ends(states[k], steps[k], n, a) && Ends(states[k'], steps[k'], n, a')
    ensures k == k'
  {
    var first, second := if k <= k' then k else k', if k <= k' then k' else k;
    hide Apply, Enabled, Ends, IsOver, Inv;
    if first < second {
      assert states[first + 1] == Apply(states[first], steps[first]) && Enabled(states[first], steps[first]);
      assert Enabled(states[second], steps[second]);
      Conserves(states, steps, first);
      Conserves(states, steps, second);
      EndMakesOver(states[first], steps[first], n, if k <= k' then a else a');
      EndMakesOver(states[second], steps[second], n, if k <= k' then a' else a);
      OverRun(states, steps, first + 1, second, n);
      assert false;
    }
  }

  lemma Conserves(states: seq<State>, steps: seq<Step>, i: nat)
    requires IsRun(states, steps) && Inv(states[0]) && i <= |steps|
    ensures Conserved(states[i])
  {
    RunInv(states, steps, i);
  }

  // ------------------------------------------------------------- what the caller learns

  /**
   In every run, the response a caller receives was sent for an action that some step `b`
   sent, and its message is what the one step `k` that ended that action says: the guest's
   result, cancelled, or finished for a termination.
   */
  lemma ResponseTellsHowItEnded(states: seq<State>, steps: seq<Step>, i: nat) returns (b: nat, k: nat, action: Action)
    requires IsRun(states, steps) && Init(states[0]) && i < |steps| && steps[i] == Receive
    ensures states[i].responses != [] && b < k < i
    ensures IsSend(states[b], steps[b], states[i].responses[0].id, action)
    ensures Ends(states[k], steps[k], states[i].responses[0].id, action)
    ensures states[i].responses[0].msg == Ending(steps[k])
    ensures forall k': nat, a | k' < |steps| && Ends(states[k'], steps[k'], states[i].responses[0].id, a) :: k' == k
  {
    assert Enabled(states[i], steps[i]);
    var r := states[i].responses[0];
    RunKnown(states, steps, i);
    assert r == Done(states[i])[|states[i].received|];
    assert Tells(states, steps, i, r);
    hide Known, Apply, Enabled, Inv, Done;
    InitInv(states[0]);
    b, k, action := Origins(states, steps, i, r);
    forall k': nat, a | k' < |steps| && Ends(states[k'], steps[k'], r.id, a) ensures k' == k {
      EndsOnce(states, steps, k, k', r.id, action, a);
    }
  }

  lemma Origins(states: seq<State>, steps: seq<Step>, i: nat, r: Response) returns (b: nat, k: nat, action: Action)
    requires IsRun(states, steps) && Inv(states[0]) && i <= |steps| && Tells(states, steps, i, r)
    ensures b < k < i && IsSend(states[b], steps[b], r.id, action) && Ends(states[k], steps[k], r.id, action)
    ensures r.msg == Ending(steps[k])
  {
    hide Apply, Enabled;
    action :| Sends(states, steps, i, r.id, action) && Ended(states, steps, i, r.id, action, r.msg);
    b :| 0 <= b < i && IsSend(states[b], steps[b], r.id, action);
    k :| 0 <= k < i && Ends(states[k], steps[k], r.id, action) && Ending(steps[k]) == r.msg;
    Conserves(states, steps, k);
    if k <= b {
      SentGrows(states, steps, k, b);
      assert false;
    }
  }

  /**
   In a run without timeouts, a call that returns gets the end of its own action: it began
   with step `b`, which sent the action it asked for, and its outcome is what step `k`, the
   only one that ended that action, says.
   */
  lemma CallerLearnsHowItEnded(states: seq<State>, steps: seq<Step>, i: nat) returns (b: nat, k: nat)
    requires IsRun(states, steps) && Init(states[0]) && Timeout !in steps && i < |steps| && steps[i] == Receive
    ensures states[i].caller.Waiting? && b < k < i
    ensures steps[b] == Begin(states[i].caller.action) && states[b].sent == states[i].caller.id
    ensures Ends(states[k], steps[k], states[i].caller.id, states[i].caller.action)
    ensures states[i + 1].caller == Returning(Answered(Ending(steps[k])))
    ensures forall k': nat, a | k' < |steps| && Ends(states[k'], steps[k'], states[i].caller.id, a) :: k' == k
  {
    NoTimeoutsOwnResponse(states, steps, i);
    var action;
    b, k, action := ResponseTellsHowItEnded(states, steps, i);
    RunKnown(states, steps, i);
    assert states[i + 1] == Apply(states[i], Receive);
    hide Enabled, Inv, Ends, QueueKnown, WorkKnown, AnswersKnown;
    var pc := states[i].caller;
    var b' :| 0 <= b' < i && IsSend(states[b'], steps[b'], pc.id, pc.action);
    SendsOnce(states, steps, b, b', pc.id, action, pc.action);
    if steps[b] == SendInit {
      NoSendInit(states, steps, b);
    }
  }

  /** An action number is used once. */
  lemma SendsOnce(states: seq<State>, steps: seq<Step>, b: nat, b': nat, n: nat, a: Action, a': Action)
    requires IsRun(states, steps) && b < |steps| && b' < |steps|
    requires IsSend(states[b], steps[b], n, a) && IsSend(states[b'], steps[b'], n, a')
    ensures b == b' && a == a'
  {
    hide Apply, Enabled;
    if b < b' {
      SentStepAt(states, steps, b);
      SentGrows(states, steps, b + 1, b');
      assert false;
    } else if b' < b {
      SentStepAt(states, steps, b');
      SentGrows(states, steps, b' + 1, b);
      assert false;
    }
  }

  lemma SentStepAt(states: seq<State>, steps: seq<Step>, b: nat)
    requires IsRun(states, steps) && b < |steps| && (steps[b].Begin? || steps[b] == SendInit)
    ensures states[b + 1].sent == states[b].sent + 1
  {
    hide Apply, Enabled;
    assert Enabled(states[b], steps[b]) && states[b + 1] == Apply(states[b], steps[b]);
    SentStep(states[b], steps[b]);
  }

  lemma NoSendInit(states: seq<State>, steps: seq<Step>, b: nat)
    requires IsRun(states, steps) && Init(states[0]) && Timeout !in steps && b < |steps|
    ensures steps[b] != SendInit
  {
    InitInv(states[0]);
    RunInStep(states, steps, b);
    assert Enabled(states[b], steps[b]);
    hide Inv;
  }

  /** Every outcome of a call has its own cause: which step brings it about, and in what state. */
  lemma OutcomeTells(s: State, step: Step, outcome: Outcome)
    requires Enabled(s, step) && !s.caller.Returning?
    ensures Apply(s, step).caller == Returning(outcome) <==>
            match outcome
            case Answered(msg) => s.caller.Waiting? && step == Receive && s.responses[0].msg == msg
            case TimedOut => s.caller.Waiting? && step == Timeout && s.caller.action != Dispatch
            case CancelAttemptOnFinished => step == CheckRunning && !s.running
            case SignalFailed => step == SignalError
            case Hung => (step == CheckCancelled && !s.runCancelled) || (step == CheckStopped && s.running)
            case RestoreFailed => step == Restore(false)
            case ReinitFailed => s.caller.WaitingInit? && (step == Timeout || (step == Receive && s.responses[0].msg != Finished))
            case Reinitialised(was) =>
              s.caller.WaitingInit? && step == Receive && s.responses[0].msg == Finished && s.caller.got == Some(was)
            case ReinitialisedUnanswered =>
              s.caller.WaitingInit? && step == Receive && s.responses[0].msg == Finished && s.caller.got == None
  {
    if OfHandler(step) {
      HandlerFrame(s, step);
      hide Apply, Enabled;
    } else {
      match step {
        case Receive | Timeout =>
        case Begin(_) | SendInit | Restore(_) | Return =>
        case _ =>
      }
    }
  }

  // ------------------------------------------------------- after a cancelled dispatch

  /** What the caller has in hand is what it received last. */
  ghost predicate InHandIsReceived(s: State) {
    var n := |s.received|;
    match s.caller
    case Restoring(_, got) => got.Some? ==> n > 0 && s.received[n - 1].msg == got.value
    case SendingInit(_, got) => got.Some? ==> n > 0 && s.received[n - 1].msg == got.value
    case WaitingInit(_, got) => got.Some? ==> n > 0 && s.received[n - 1].msg == got.value
    case Returning(outcome) =>
      (outcome.Answered? ==> n > 0 && s.received[n - 1].msg == outcome.msg) &&
      (outcome.Reinitialised? ==> n > 1 && s.received[n - 2].msg == outcome.was && s.received[n - 1].msg == Finished) &&
      (outcome.ReinitialisedUnanswered? ==> n > 0 && s.received[n - 1].msg == Finished)
    case _ => true
  }

  lemma InHandStep(s: State, step: Step)
    requires InHandIsReceived(s) && Enabled(s, step)
    ensures InHandIsReceived(Apply(s, step))
  {
    if OfHandler(step) {
      HandlerFrame(s, step);
      hide Apply, Enabled;
    } else {
      match step {
        case Receive | Timeout =>
        case Begin(_) | SendInit | Restore(_) | Return =>
        case _ =>
      }
    }
  }

  lemma {:induction false} InHandRun(states: seq<State>, steps: seq<Step>, i: nat)
    requires IsRun(states, steps) && InHandIsReceived(states[0]) && i <= |steps|
    ensures InHandIsReceived(states[i])
    decreases i
  {
    hide InHandIsReceived, Apply, Enabled;
    if i == 0 {
    } else {
      InHandRun(states, steps, i - 1);
      InHandStep(states[i - 1], steps[i - 1]);
    }
  }

  /**
   A dispatch that began synchronised and returns Ok(ExecutionCanceledByHost) has received
   two responses: its own, which says cancelled, and that of Initialise, which says finished.
   */
  lemma ReinitialisedMeans(s: State, states: seq<State>, steps: seq<Step>, was: Msg)
    requires Inv(s) && Synchronised(s) && s.caller.Ready?
    requires IsRun(states, steps) && Return !in steps && states[0] == Apply(s, Begin(Dispatch))
    requires states[|steps|].caller == Returning(Reinitialised(was))
    ensures var received := states[|steps|].received;
            |received| == s.sent + 2 && received[s.sent] == Response(s.sent, was) &&
            received[s.sent + 1] == Response(s.sent + 1, Finished)
  {
    var n := |steps|;
    BeginsOwnCall(s);
    OwnCallRun(states, steps, n, s.sent, !s.runCancelled);
    RunInv(states, steps, n);
    InHandRun(states, steps, n);
    SentTwice(states, steps, n, was);
    hide Apply, Enabled;
    var t := states[n];
    assert forall k | 0 <= k < |t.received| :: Done(t)[k] == t.received[k];
  }

  /** Until it returns, a call sends at most Initialise. */
  lemma {:induction false} SentTwice(states: seq<State>, steps: seq<Step>, i: nat, was: Msg)
    requires IsRun(states, steps) && Return !in steps && i <= |steps| && states[0].caller.Waiting?
    ensures !states[i].caller.Ready?
    ensures states[i].sent == states[0].sent + (if Reinitialising(states[i]) then 1 else 0) ||
            (states[i].caller.Returning? && !states[i].caller.outcome.Reinitialised?)
    decreases i
  {
    hide Apply, Enabled, Reinitialising;
    if i == 0 {
      assert !Reinitialising(states[0]) by { NotYet(states[0]); }
    } else {
      SentTwice(states, steps, i - 1, was);
      assert steps[i - 1] != Return;
      assert Enabled(states[i - 1], steps[i - 1]) && states[i] == Apply(states[i - 1], steps[i - 1]);
      ReinitialisingStep(states[i - 1], steps[i - 1]);
    }
  }

  ghost predicate Reinitialising(s: State) {
    s.caller.WaitingInit? || (s.caller.Returning? && s.caller.outcome.Reinitialised?)
  }

  lemma NotYet(s: State)
    requires s.caller.Waiting?
    ensures !Reinitialising(s)
  {
  }

  lemma ReinitialisingStep(s: State, step: Step)
    requires Enabled(s, step) && step != Return && !s.caller.Ready?
    ensures var t := Apply(s, step);
            !t.caller.Ready? && (s.caller.Returning? ==> t.caller == s.caller) &&
            (t.sent == s.sent + (if Reinitialising(t) then 1 else 0) - (if Reinitialising(s) then 1 else 0) ||
             (t.caller.Returning? && !t.caller.outcome.Reinitialised?))
  {
    if OfHandler(step) {
      HandlerFrame(s, step);
      hide Apply, Enabled;
    }
  }

  // --------------------------------------------------------------- the memory guard

  /** From entering the guest with the guard to dropping it, the guard is held. */
  lemma {:induction false} GuardHeld(states: seq<State>, steps: seq<Step>, j: nat, i: nat)
    requires IsRun(states, steps) && j < i <= |steps| && steps[j] == EnterGuest(true)
    requires forall k | j < k < i :: steps[k] != DropMem
    ensures states[i].memGuard && (At(states[i], InGuest) || At(states[i], CancelSeen) || At(states[i], Returned))
    decreases i
  {
    hide Apply, Enabled, At, IsRun;
    StepAt(states, steps, i - 1);
    if i == j + 1 {
      EnterHolds(states[j]);
    } else {
      GuardHeld(states, steps, j, i - 1);
      GuardStep(states[i - 1], steps[i - 1]);
    }
  }

  lemma EnterHolds(s: State)
    requires Enabled(s, EnterGuest(true))
    ensures var t := Apply(s, EnterGuest(true)); t.memGuard && At(t, InGuest)
  {
  }

  lemma GuardStep(s: State, step: Step)
    requires Enabled(s, step) && step != DropMem && s.memGuard && (At(s, InGuest) || At(s, CancelSeen) || At(s, Returned))
    ensures var t := Apply(s, step); t.memGuard && (At(t, InGuest) || At(t, CancelSeen) || At(t, Returned))
  {
    match step {
      case Take | SetRunning | ClearCancelled | LockManager | EnterGuest(_) | GuestWrites(_) | GuestReturns(_) =>
      case CancelledExit | SetCancelled | DropLock | StoreStopped | Respond | Crash =>
      case _ =>
    }
  }

  /** While it is held no snapshot is taken and none is restored. */
  lemma GuardExcludesSnapshots(states: seq<State>, steps: seq<Step>, j: nat, i: nat)
    requires IsRun(states, steps) && j < i < |steps| && steps[j] == EnterGuest(true)
    requires forall k | j < k < i :: steps[k] != DropMem
    ensures steps[i] != PushSnapshot && steps[i] != Restore(true)
  {
    GuardHeld(states, steps, j, i);
    assert Enabled(states[i], steps[i]);
  }

  // ----------------------------------------------------------------- memory over a run

  /** The images the first `i` steps of a run have taken, oldest first. */
  ghost function ImagesTaken(states: seq<State>, steps: seq<Step>, i: nat): seq<Image>
    requires i <= |steps| < |states|
  {
    if i == 0 then []
    else ImagesTaken(states, steps, i - 1) + (if steps[i - 1] == PushSnapshot then [states[i - 1].mem] else [])
  }

  lemma MemoryStep(s: State, step: Step)
    requires Enabled(s, step)
    ensures Apply(s, step).snapshots == s.snapshots + (if step == PushSnapshot then [s.mem] else [])
    ensures match step
            case GuestWrites(m) => Apply(s, step).mem == m
            case HostWrites(m) => Apply(s, step).mem == m
            case Restore(ok) => if ok then s.snapshots != [] && Apply(s, step).mem == s.snapshots[|s.snapshots| - 1]
                                else Apply(s, step).mem == s.mem
            case _ => Apply(s, step).mem == s.mem
  {
    match step {
      case Take | SetRunning | ClearCancelled | LockManager | EnterGuest(_) | GuestWrites(_) | GuestReturns(_) =>
      case CancelledExit | SetCancelled | DropMem | DropLock | StoreStopped | Respond | Crash =>
      case Receive | Timeout =>
      case Begin(_) | SendInit | Restore(_) | Return =>
      case _ =>
    }
  }

  lemma {:induction false} SnapshotsOfRun(states: seq<State>, steps: seq<Step>, i: nat)
    requires IsRun(states, steps) && i <= |steps|
    ensures states[i].snapshots == states[0].snapshots + ImagesTaken(states, steps, i)
    decreases i
  {
    hide Apply, Enabled, IsRun;
    if i == 0 {
    } else {
      StepAt(states, steps, i - 1);
      SnapshotsOfRun(states, steps, i - 1);
      MemoryStep(states[i - 1], steps[i - 1]);
    }
  }

  /** The last of the first `i` steps that wrote or restored memory, or none. */
  ghost function LastWrite(steps: seq<Step>, i: nat): Option<nat>
    requires i <= |steps|
  {
    if i == 0 then None
    else if steps[i - 1].GuestWrites? || steps[i - 1].HostWrites? || steps[i - 1] == Restore(true) then Some(i - 1)
    else LastWrite(steps, i - 1)
  }

  /**
   Memory at any point of a run is what the last writing step wrote; if that was a restore,
   it is the newest image taken before it, that is, memory as it was at that snapshot.
   */
  lemma {:induction false} MemoryOfRun(states: seq<State>, steps: seq<Step>, i: nat)
    requires IsRun(states, steps) && i <= |steps|
    ensures match LastWrite(steps, i)
            case None => states[i].mem == states[0].mem
            case Some(w) =>
              w < i &&
              match steps[w]
              case GuestWrites(m) => states[i].mem == m
              case HostWrites(m) => states[i].mem == m
              case _ => var images := states[0].snapshots + ImagesTaken(states, steps, w);
                        images != [] && states[i].mem == images[|images| - 1]
    decreases i
  {
    hide Apply, Enabled, ImagesTaken, IsRun;
    if i == 0 {
    } else {
      StepAt(states, steps, i - 1);
      MemoryOfRun(states, steps, i - 1);
      MemoryStep(states[i - 1], steps[i - 1]);
      SnapshotsOfRun(states, steps, i - 1);
    }
  }

  // ------------------------------------------------------------------- the signal loop

  /** How many of the steps from `j` up to `i` are rounds of the signal loop. */
  function Rounds(steps: seq<Step>, j: nat, i: nat): nat
    requires j <= i <= |steps|
    decreases i - j
  {
    if i == j then 0 else Rounds(steps, j, i - 1) + (if steps[i - 1] == Poll then 1 else 0)
  }

  lemma {:induction false} CountsRounds(states: seq<State>, steps: seq<Step>, j: nat, i: nat, id: nat)
    requires IsRun(states, steps) && j <= i <= |steps| && states[j].caller == Signalling(id, 0)
    requires (forall k | j <= k < i :: steps[k] != Return) && states[i].caller.Signalling?
    ensures states[i].caller == Signalling(id, Rounds(steps, j, i))
    decreases i - j
  {
    hide Apply, Enabled, IsRun;
    if i == j {
    } else {
      StepAt(states, steps, i - 1);
      SignallingStep(states[i - 1], steps[i - 1]);
      if states[i - 1].caller.Signalling? {
        CountsRounds(states, steps, j, i - 1, id);
      } else {
        StillTerminating(states, steps, j, i - 1);
        assert false;
      }
    }
  }

  lemma SignallingStep(s: State, step: Step)
    requires Enabled(s, step) && Apply(s, step).caller.Signalling?
    ensures if s.caller.Signalling?
            then Apply(s, step).caller == Signalling(s.caller.id, s.caller.count + (if step == Poll then 1 else 0))
            else s.caller.Terminating?
  {
    if OfHandler(step) {
      HandlerFrame(s, step);
      hide Apply, Enabled;
    }
  }

  /** A call that has begun to signal does not begin again before it returns. */
  lemma {:induction false} StillTerminating(states: seq<State>, steps: seq<Step>, j: nat, i: nat)
    requires IsRun(states, steps) && j <= i <= |steps| && states[j].caller.Signalling?
    requires forall k | j <= k < i :: steps[k] != Return
    ensures !states[i].caller.Terminating? && !states[i].caller.Waiting? && !states[i].caller.Ready?
    decreases i - j
  {
    hide Apply, Enabled, IsRun;
    if i == j {
    } else {
      StepAt(states, steps, i - 1);
      StillTerminating(states, steps, j, i - 1);
      assert steps[i - 1] != Return;
      NeverBack(states[i - 1], steps[i - 1]);
    }
  }

  lemma NeverBack(s: State, step: Step)
    requires Enabled(s, step) && step != Return && !s.caller.Terminating? && !s.caller.Waiting? && !s.caller.Ready?
    ensures var pc := Apply(s, step).caller; !pc.Terminating? && !pc.Waiting? && !pc.Ready?
  {
    if OfHandler(step) {
      HandlerFrame(s, step);
      hide Apply, Enabled;
    }
  }

  /** The loop ends with the flag set or after exactly `limit` signals. */
  lemma LoopEndsIff(states: seq<State>, steps: seq<Step>, j: nat, i: nat, id: nat)
    requires IsRun(states, steps) && Inv(states[0]) && j <= i < |steps| && states[j].caller == Signalling(id, 0)
    requires (forall k | j <= k < i :: steps[k] != Return) && states[i].caller.Signalling? && steps[i] == Poll
    ensures Rounds(steps, j, i) <= states[i].limit
    ensures states[i + 1].caller == FinalCheck(id) <==> states[i].runCancelled || Rounds(steps, j, i) == states[i].limit
  {
    CountsRounds(states, steps, j, i, id);
    RunInv(states, steps, i);
    assert states[i + 1] == Apply(states[i], steps[i]);
  }

  /** After the wait for a cancellation the caller goes on exactly when the handler no longer runs the action. */
  lemma StillRunningIff(s: State, id: nat)
    requires Reachable(s) && s.caller == Sleeping(id) && |s.received| == id
    ensures Apply(s, CheckStopped).caller == if NotBegun(s, id) || Over(s, id) then Receiving(id) else Returning(Hung)
  {
    ReachableInv(s);
    ReachableRunning(s);
    hide Reachable, FlagsMatch, EndedCancelled;
  }

  // ------------------------------------------------------- a cancellation that succeeds

  /** Within the call that began at `v`: the caller is at `pc` and the handler at `stage` of the one action that is out. */
  ghost predicate Track(v: State, u: State, pc: CallerPc, id: nat, action: Action, stage: Stage, msg: Msg) {
    Within(v, u) && Reachable(u) && u.caller == pc && u.handler == Busy(id, action, stage, msg) &&
    u.requests == [] && u.responses == [] && u.snapshots != [] && u.sent == id + 1 &&
    (WindingDown(stage) ==> u.runCancelled == (msg == Canceled))
  }

  lemma BothStep(v: State, u: State, step: Step)
    requires Within(v, u) && Reachable(u) && Enabled(u, step) && step != Return
    ensures Within(v, Apply(u, step)) && Reachable(Apply(u, step))
  {
    hide Within, Reachable, Enabled, Apply;
    WithinStep(v, u, step);
    ReachableStep(u, step);
  }

  lemma AdvanceTrack(v: State, u: State, pc: CallerPc, id: nat, action: Action, stage: Stage, msg: Msg) returns (u': State)
    requires Track(v, u, pc, id, action, stage, msg) && action != TerminateThread && stage !in {CancelSeen, Stopped}
    requires WindingDown(stage) || msg == Finished
    ensures Track(v, u', pc, id, action, NextStep(stage).1, msg)
  {
    ReachableRunning(u);
    hide Within, Reachable;
    var step := NextStep(stage).0;
    assert Enabled(u, step);
    BothStep(v, u, step);
    hide Enabled;
    u' := Apply(u, step);
  }

  /** The handler goes on to a later stage. */
  lemma {:induction false} ReachStage(v: State, u: State, pc: CallerPc, id: nat, action: Action, stage: Stage, msg: Msg, goal: Stage)
    returns (u': State)
    requires Track(v, u, pc, id, action, stage, msg) && action != TerminateThread && stage != CancelSeen && goal != CancelSeen
    requires (WindingDown(stage) || msg == Finished) && NextStep(goal).2 <= NextStep(stage).2
    ensures Track(v, u', pc, id, action, goal, msg)
    decreases NextStep(stage).2
  {
    hide Track;
    if stage == goal {
      u' := u;
    } else {
      u' := AdvanceTrack(v, u, pc, id, action, stage, msg);
      u' := ReachStage(v, u', pc, id, action, NextStep(stage).1, msg, goal);
    }
  }

  lemma TakeTrack(v: State, u: State, pc: CallerPc, id: nat, action: Action) returns (u': State)
    requires Between(v, u, pc, id + 1, [Request(id, action)])
    ensures Track(v, u', pc, id, action, Stage.Taken, Finished)
  {
    hide Within, Reachable;
    BothStep(v, u, Take);
    u' := Apply(u, Take);
  }

  /** The caller times out while the guest runs and begins to signal. */
  lemma BeginsToSignal(v: State, u: State, id: nat) returns (u': State)
    requires Track(v, u, Waiting(id, Dispatch), id, Dispatch, InGuest, Finished)
    ensures Track(v, u', Signalling(id, 0), id, Dispatch, InGuest, Finished)
  {
    ReachableRunning(u);
    hide Within, Reachable;
    BothStep(v, u, Timeout);
    u' := Apply(u, Timeout);
    BothStep(v, u', CheckRunning);
    u' := Apply(u', CheckRunning);
  }

  /** The signal makes the vCPU exit as cancelled. */
  lemma IsCancelled(v: State, u: State, pc: CallerPc, id: nat) returns (u': State)
    requires Track(v, u, pc, id, Dispatch, InGuest, Finished)
    ensures Track(v, u', pc, id, Dispatch, Returned, Canceled)
  {
    hide Within, Reachable;
    BothStep(v, u, CancelledExit);
    u' := Apply(u, CancelledExit);
    BothStep(v, u', SetCancelled);
    u' := Apply(u', SetCancelled);
  }

  /** The caller sees the flag. */
  lemma SeesFlag(v: State, u: State, id: nat) returns (u': State)
    requires Track(v, u, Signalling(id, 0), id, Dispatch, Returned, Canceled)
    ensures Track(v, u', Sleeping(id), id, Dispatch, Returned, Canceled)
  {
    hide Within, Reachable;
    BothStep(v, u, Poll);
    u' := Apply(u, Poll);
    BothStep(v, u', CheckCancelled);
    u' := Apply(u', CheckCancelled);
  }

  /** Between two actions, within the call that began at `v`. */
  ghost predicate Between(v: State, u: State, pc: CallerPc, id: nat, requests: seq<Request>) {
    Within(v, u) && Reachable(u) && u.caller == pc && u.handler.Idle? && u.requests == requests && u.responses == [] &&
    u.snapshots != [] && u.sent == id
  }

  lemma StopsWaiting(v: State, u: State, id: nat) returns (u': State)
    requires Track(v, u, Sleeping(id), id, Dispatch, Stopped, Canceled)
    ensures Track(v, u', Receiving(id), id, Dispatch, Stopped, Canceled)
  {
    ReachableRunning(u);
    hide Within, Reachable;
    BothStep(v, u, CheckStopped);
    u' := Apply(u, CheckStopped);
  }

  /** The caller receives the cancelled response. */
  lemma ReceivesCancelled(v: State, u: State, id: nat) returns (u': State)
    requires Track(v, u, Receiving(id), id, Dispatch, Stopped, Canceled)
    ensures Between(v, u', Restoring(id, Some(Canceled)), id + 1, [])
  {
    hide Within, Reachable;
    BothStep(v, u, Respond);
    u' := Apply(u, Respond);
    BothStep(v, u', Receive);
    u' := Apply(u', Receive);
  }

  /** It restores memory. */
  lemma Restores(v: State, u: State, id: nat) returns (u': State)
    requires Between(v, u, Restoring(id, Some(Canceled)), id + 1, [])
    ensures Between(v, u', SendingInit(id, Some(Canceled)), id + 1, [])
  {
    ReachableInv(u);
    assert !u.memGuard;
    hide Within, Reachable, Inv;
    BothStep(v, u, Restore(true));
    u' := Apply(u, Restore(true));
  }

  /** It sends Initialise. */
  lemma SendsInit(v: State, u: State, id: nat) returns (u': State)
    requires Between(v, u, SendingInit(id, Some(Canceled)), id + 1, [])
    ensures Between(v, u', WaitingInit(id, Some(Canceled)), id + 2, [Request(id + 1, Initialise)])
  {
    hide Within, Reachable;
    BothStep(v, u, SendInit);
    u' := Apply(u, SendInit);
  }

  /** The vCPU is initialised again and the call returns. */
  lemma ReturnsReinitialised(v: State, u: State, id: nat) returns (u': State)
    requires Track(v, u, WaitingInit(id, Some(Canceled)), id + 1, Initialise, Stopped, Finished)
    ensures Within(v, u') && u'.caller == Returning(Reinitialised(Canceled))
  {
    hide Within, Reachable;
    BothStep(v, u, Respond);
    u' := Apply(u, Respond);
    BothStep(v, u', Receive);
    u' := Apply(u', Receive);
  }

  lemma BeginsDispatch(s: State) returns (v: State)
    requires Reachable(s) && Synchronised(s) && s.caller.Ready? && s.snapshots != []
    ensures v == Apply(s, Begin(Dispatch)) && Between(v, v, Waiting(s.sent, Dispatch), s.sent + 1, [Request(s.sent, Dispatch)])
  {
    ReachableStep(s, Begin(Dispatch));
    hide Within, Reachable;
    v := Apply(s, Begin(Dispatch));
    WithinSelf(v);
  }

  lemma IsTerminated(v: State, u: State, id: nat) returns (t: State)
    requires Between(v, u, Waiting(id, Dispatch), id + 1, [Request(id, Dispatch)])
    ensures Track(v, t, Sleeping(id), id, Dispatch, Returned, Canceled)
  {
    hide Track, Between;
    t := TakeTrack(v, u, Waiting(id, Dispatch), id, Dispatch);
    t := ReachStage(v, t, Waiting(id, Dispatch), id, Dispatch, Stage.Taken, Finished, InGuest);
    t := BeginsToSignal(v, t, id);
    t := IsCancelled(v, t, Signalling(id, 0), id);
    t := SeesFlag(v, t, id);
  }

  lemma IsReinitialised(v: State, u: State, id: nat) returns (t: State)
    requires Track(v, u, Sleeping(id), id, Dispatch, Returned, Canceled)
    ensures Track(v, t, WaitingInit(id, Some(Canceled)), id + 1, Initialise, Stopped, Finished)
  {
    hide Track, Between;
    t := ReachStage(v, u, Sleeping(id), id, Dispatch, Returned, Canceled, Stopped);
    t := StopsWaiting(v, t, id);
    t := ReceivesCancelled(v, t, id);
    t := Restores(v, t, id);
    t := SendsInit(v, t, id);
    t := TakeTrack(v, t, WaitingInit(id, Some(Canceled)), id + 1, Initialise);
    t := ReachStage(v, t, WaitingInit(id, Some(Canceled)), id + 1, Initialise, Stage.Taken, Finished, Stopped);
  }

  /** From every reachable synchronised state with a snapshot, a dispatch can be cancelled and the vCPU reinitialised. */
  lemma CancellationCanSucceed(s: State) returns (t: State)
    requires Reachable(s) && Synchronised(s) && s.caller.Ready? && s.snapshots != []
    ensures Within(Apply(s, Begin(Dispatch)), t) && t.caller == Returning(Reinitialised(Canceled))
  {
    hide Within, Reachable, Track, Between;
    var v := BeginsDispatch(s);
    t := IsTerminated(v, v, s.sent);
    t := IsReinitialised(v, t, s.sent);
    t := ReturnsReinitialised(v, t, s.sent);
  }
}
