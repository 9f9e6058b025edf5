/**
 The one-slot authentication coordinator under any interleaving of `evaluate` calls, lifetime failures and
 session callbacks (agent/Sources/MacosAuthAgent/Authentication.swift). Each call makes at most one session,
 so a session is named by its call.
 */
module Coordinators {
  import opened Bytes
  import opened Lifetimes
  import opened Messages

  /** A result that is set once; `log` is the ghost list of all attempts to set it. */
  class LockedResult<T> {
    var result: Option<T>
    ghost var log: seq<T>

    ghost predicate Valid()
      reads this
    {
      result == if log == [] then None else Some(log[0])
    }

    constructor ()
      ensures Valid() && result == None && log == []
    {
      result, log := None, [];
    }

    method Complete(value: T)
      requires Valid()
      modifies this
      ensures Valid() && log == old(log) + [value]
    {
      if result == None { result := Some(value); }
      log := log + [value];
    }
  }

  function Completed(result: Option<Decision>, value: Decision): Option<Decision> {
    if result.None? then Some(value) else result
  }

  datatype Phase = Made | Posted | Confirming | Confirmed | Able | Ready | Evaluating | Stopped

  /** `completions` is every decision the session ever reported, in order. */
  datatype Session = Session(phase: Phase, confirmed: bool, result: Option<Decision>, completions: seq<Decision>,
                             cancelled: bool)

  datatype Outcome = Returned(decision: Decision) | Threw

  datatype Pc =
    | Waiting
    | Acquired
    | Checked
    | Created
    | Polling
    | Cancelling(outcome: Outcome)
    | Releasing(outcome: Outcome)
    | Finished(outcome: Outcome)

  /**
   `deadline` is that of the request's lifetime, and `dead` says that it has failed, for good. `checked` is what the
   last successful lifetime check read, and `seen` how many completions there were then.
   */
  datatype Call = Call(
    request: Request, requireConfirmation: bool, deadline: u64, pc: Pc, dead: bool, checked: Option<Reading>, seen: nat,
    session: Option<Session>)

  datatype State = State(slot: nat, calls: map<nat, Call>)

  const IDLE := State(1, map[])

  datatype Action =
    // the calling thread
    | Enter(request: Request, requireConfirmation: bool, deadline: u64)
    | WaitTimesOut(reading: Reading)
    | WaitSucceeds
    | CheckAfterWait(reading: Reading)
    | MakeSession
    | StartSession
    | Poll(reading: Reading)
    | FinalCheck(reading: Reading)
    | CancelSession
    | Release
    // the main run loop and LocalAuthentication, at any time after the session was started
    | MainLoopTurn(reading: Reading)
    | UserConfirms(yes: bool)
    | ConfirmationCheck(reading: Reading)
    | PolicyAvailable(available: bool)
    | EvaluationCheck(reading: Reading)
    | Callback(decision: Decision)
    // expiry or disconnection noticed elsewhere
    | LifetimeFails

  /** The outcome of a lifetime check: never success once it has failed. */
  predicate Passes(c: Call, r: Reading) { !c.dead && Good(r, c.deadline, c.request.expiresAtMs) }

  function AfterCheck(c: Call, r: Reading): Call {
    if Passes(c, r) then c.(checked := Some(r), seen := if c.session.Some? then |c.session.value.completions| else 0)
    else c.(dead := true)
  }

  /** What the main run loop or LocalAuthentication does. */
  predicate IsSessionAction(a: Action) {
    || a.MainLoopTurn? || a.UserConfirms? || a.ConfirmationCheck?
    || a.PolicyAvailable? || a.EvaluationCheck? || a.Callback?
  }

  /** One step of one call on its own fields; `None` if it is not possible there. */
  function CallStep(c: Call, a: Action): Option<Call> {
    if IsSessionAction(a) then
      if c.session.None? then None else SessionStep(c, c.session.value, a)
    else OwnStep(c, a)
  }

  /** What the calling thread does, and the lifetime failing. */
  function OwnStep(c: Call, a: Action): Option<Call> {
    match a
    case LifetimeFails => Some(c.(dead := true))
    case WaitTimesOut(r) =>
      if c.pc != Waiting then None else Some(AfterCheck(c, r).(pc := if Passes(c, r) then Waiting else Finished(Threw)))
    case WaitSucceeds => if c.pc != Waiting then None else Some(c.(pc := Acquired))
    case CheckAfterWait(r) =>
      if c.pc != Acquired then None
      else Some(AfterCheck(c, r).(pc := if Passes(c, r) then Checked else Releasing(Threw)))
    case MakeSession =>
      if c.pc != Checked then None
      else Some(c.(pc := Created, session := Some(Session(Made, false, None, [], false))))
    case StartSession =>
      if c.pc != Created || c.session.None? then None
      else Some(c.(pc := Polling, session := Some(c.session.value.(phase := Posted))))
    case Poll(r) =>
      if c.pc != Polling || c.session.None? || c.session.value.result.Some? then None
      else Some(AfterCheck(c, r).(pc := if Passes(c, r) then Polling else Cancelling(Threw)))
    case FinalCheck(r) =>
      if c.pc != Polling || c.session.None? || c.session.value.result.None? then None
      else
        var outcome := if Passes(c, r) then Returned(c.session.value.result.value) else Threw;
        Some(AfterCheck(c, r).(pc := Cancelling(outcome)))
    case CancelSession =>
      if !c.pc.Cancelling? || c.session.None? then None
      else Some(c.(pc := Releasing(c.pc.outcome), session := Some(c.session.value.(cancelled := true))))
    case Release => if !c.pc.Releasing? then None else Some(c.(pc := Finished(c.pc.outcome)))
    case _ => None
  }

  function Complete(s: Session, d: Decision): Session {
    s.(result := Completed(s.result, d), completions := s.completions + [d])
  }

  /** What the main run loop does for a session, in the order of `LocalAuthenticationSession.start`. */
  function SessionStep(c: Call, s: Session, a: Action): Option<Call> {
    match a
    case MainLoopTurn(r) =>
      var next := if c.requireConfirmation then Confirming else Confirmed;
      if s.phase != Posted then None else Some(CheckSession(c, s, r, next))
    case UserConfirms(yes) =>
      if s.phase != Confirming then None
      else if yes then Some(c.(session := Some(s.(phase := Confirmed, confirmed := true))))
      else Some(EndSession(c, s, Decision.Cancelled))
    case ConfirmationCheck(r) => if s.phase != Confirmed then None else Some(CheckSession(c, s, r, Able))
    case PolicyAvailable(available) =>
      if s.phase != Able then None
      else if available then Some(c.(session := Some(s.(phase := Ready))))
      else Some(EndSession(c, s, Decision.Unavailable))
    case EvaluationCheck(r) => if s.phase != Ready then None else Some(CheckSession(c, s, r, Evaluating))
    case Callback(d) => if s.phase != Evaluating then None else Some(c.(session := Some(Complete(s, d))))
    case _ => None
  }

  /** The session goes on if the lifetime passes a check, and silently stops if not. */
  function CheckSession(c: Call, s: Session, r: Reading, next: Phase): Call {
    AfterCheck(c, r).(session := Some(s.(phase := if Passes(c, r) then next else Stopped)))
  }

  /** The session reports a decision of its own and stops. */
  function EndSession(c: Call, s: Session, d: Decision): Call { c.(session := Some(Complete(s, d).(phase := Stopped))) }

  function Apply(s: State, i: nat, a: Action): Option<State> {
    if a.Enter? then
      if i in s.calls then None
      else Some(s.(calls := s.calls[i := Call(a.request, a.requireConfirmation, a.deadline, Waiting, false, None, 0,
                                              None)]))
    else if i !in s.calls || (a.WaitSucceeds? && s.slot == 0) then None
    else
      match CallStep(s.calls[i], a)
      case None => None
      case Some(c) =>
        Some(State(if a.WaitSucceeds? then s.slot - 1 else if a.Release? then s.slot + 1 else s.slot, s.calls[i := c]))
  }

  // ---- What always holds ----

  /** Between a successful wait and the signal. */
  predicate Holds(c: Call) {
    c.pc.Acquired? || c.pc.Checked? || c.pc.Created? || c.pc.Polling? || c.pc.Cancelling? || c.pc.Releasing?
  }

  /** A session that exists and was not cancelled. */
  predicate Live(c: Call) { c.session.Some? && !c.session.value.cancelled }

  function OutcomeOf(c: Call): Option<Outcome> {
    match c.pc
    case Cancelling(o) => Some(o)
    case Releasing(o) => Some(o)
    case Finished(o) => Some(o)
    case _ => None
  }

  predicate SessionOk(c: Call, s: Session) {
    && s.result == (if s.completions == [] then None else Some(s.completions[0]))
    && (!s.phase.Evaluating? && !s.phase.Stopped? ==> s.completions == [])
    && (c.requireConfirmation && (s.phase.Confirmed? || s.phase.Able? || s.phase.Ready? || s.phase.Evaluating?) ==>
        s.confirmed)
    && (Approved in s.completions ==> s.phase == Evaluating)
    && c.seen <= |s.completions|
  }

  /** The last successful check, if there was one, was good; there was one if it saw a completion. */
  predicate ChecksOk(c: Call) {
    && (c.checked.Some? ==> Good(c.checked.value, c.deadline, c.request.expiresAtMs))
    && (c.seen > 0 ==> c.checked.Some?)
  }

  predicate CallOk(c: Call) {
    && ChecksOk(c)
    && (c.pc.Waiting? || c.pc.Acquired? || c.pc.Checked? ==> c.session == None)
    && (c.pc.Created? || c.pc.Polling? || c.pc.Cancelling? ==> Live(c))
    && (c.pc.Created? ==> c.session.value.phase == Made)
    && (c.pc.Releasing? || c.pc.Finished? ==> !Live(c))
    && (c.session.Some? ==> SessionOk(c, c.session.value))
    && (c.session.None? ==> c.seen == 0)
    && (OutcomeOf(c).Some? && OutcomeOf(c).value.Returned? ==>
          && c.session.Some? && c.session.value.completions != []
          && OutcomeOf(c).value.decision == c.session.value.completions[0]
          && c.seen > 0)
  }

  ghost predicate SlotOk(s: State) {
    && s.slot <= 1
    && (forall i, j :: i in s.calls && j in s.calls && Holds(s.calls[i]) && Holds(s.calls[j]) ==> i == j)
    && (s.slot == 1 <==> forall i :: i in s.calls ==> !Holds(s.calls[i]))
  }

  ghost predicate Inv(s: State) {
    SlotOk(s) && forall i :: i in s.calls ==> CallOk(s.calls[i])
  }

  /** From `c` with session `s` to `d`: only the session has moved on, and its reports have only become more. */
  predicate SessionMoved(c: Call, s: Session, d: Call) {
    && d.session.Some? && SessionOk(d, d.session.value)
    && ChecksOk(d) && d.deadline == c.deadline
    && d.pc == c.pc && d.request == c.request && d.requireConfirmation == c.requireConfirmation
    && s.phase != Made && d.session.value.cancelled == s.cancelled
    && s.completions <= d.session.value.completions
    && d.seen >= c.seen
  }

  lemma CheckSessionKeeps(c: Call, s: Session, r: Reading, next: Phase)
    requires c.session == Some(s) && SessionOk(c, s) && ChecksOk(c) && s.phase != Made && s.phase != Evaluating
    requires s.phase != Stopped
    requires c.requireConfirmation && (next.Confirmed? || next.Able? || next.Ready? || next.Evaluating?) ==> s.confirmed
    ensures SessionMoved(c, s, CheckSession(c, s, r, next))
  {
  }

  lemma EndSessionKeeps(c: Call, s: Session, d: Decision)
    requires c.session == Some(s) && SessionOk(c, s) && ChecksOk(c) && s.completions == [] && s.phase != Made
    requires d != Approved
    ensures SessionMoved(c, s, EndSession(c, s, d))
  {
    assert Complete(s, d).completions == [d];
  }

  lemma CallbackKeeps(c: Call, s: Session, d: Decision)
    requires c.session == Some(s) && SessionOk(c, s) && ChecksOk(c) && s.phase == Evaluating
    ensures SessionMoved(c, s, c.(session := Some(Complete(s, d))))
  {
  }

  lemma SessionStepKeeps(c: Call, s: Session, a: Action)
    requires c.session == Some(s) && SessionOk(c, s) && ChecksOk(c) && SessionStep(c, s, a).Some?
    ensures SessionMoved(c, s, SessionStep(c, s, a).value)
  {
    match a
    case MainLoopTurn(r) => CheckSessionKeeps(c, s, r, if c.requireConfirmation then Confirming else Confirmed);
    case UserConfirms(yes) => if !yes { EndSessionKeeps(c, s, Decision.Cancelled); }
    case ConfirmationCheck(r) => CheckSessionKeeps(c, s, r, Able);
    case PolicyAvailable(available) => if !available { EndSessionKeeps(c, s, Decision.Unavailable); }
    case EvaluationCheck(r) => CheckSessionKeeps(c, s, r, Evaluating);
    case Callback(d) => CallbackKeeps(c, s, d);
  }

  /** A lifetime check leaves the call in order, and if it succeeds has seen what there was to see. */
  lemma CheckKeeps(c: Call, r: Reading)
    requires CallOk(c) && OutcomeOf(c).None?
    ensures CallOk(AfterCheck(c, r))
    ensures Passes(c, r) && c.session.Some? ==> AfterCheck(c, r).seen == |c.session.value.completions|
  {
  }

  /** The final check returns the first report. */
  lemma FinalCheckKeeps(c: Call, r: Reading)
    requires CallOk(c) && OwnStep(c, FinalCheck(r)).Some?
    ensures CallOk(OwnStep(c, FinalCheck(r)).value)
  {
    CheckKeeps(c, r);
  }

  /** Making, starting and cancelling the session. */
  lemma HandlingKeeps(c: Call, a: Action)
    requires CallOk(c) && OwnStep(c, a).Some? && (a.MakeSession? || a.StartSession? || a.CancelSession?)
    ensures CallOk(OwnStep(c, a).value)
  {
  }

  /** Waiting, checking before there is a session, and polling it. */
  lemma WaitingKeeps(c: Call, a: Action)
    requires CallOk(c) && OwnStep(c, a).Some? && (a.WaitTimesOut? || a.CheckAfterWait? || a.Poll?)
    ensures CallOk(OwnStep(c, a).value)
  {
    CheckKeeps(c, a.reading);
  }

  lemma OwnStepKeeps(c: Call, a: Action)
    requires CallOk(c) && OwnStep(c, a).Some?
    ensures CallOk(OwnStep(c, a).value)
  {
    if a.FinalCheck? { FinalCheckKeeps(c, a.reading); }
    else if a.WaitTimesOut? || a.CheckAfterWait? || a.Poll? { WaitingKeeps(c, a); }
    else if a.MakeSession? || a.StartSession? || a.CancelSession? { HandlingKeeps(c, a); }
  }

  lemma CallStepKeeps(c: Call, a: Action)
    requires CallOk(c) && CallStep(c, a).Some?
    ensures CallOk(CallStep(c, a).value)
  {
    if IsSessionAction(a) { SessionStepKeeps(c, c.session.value, a); } else { OwnStepKeeps(c, a); }
  }

  /** Only a successful wait takes the slot, and only the signal gives it back. */
  lemma CallStepHolds(c: Call, a: Action)
    requires CallStep(c, a).Some?
    ensures var d := CallStep(c, a).value;
            if a.WaitSucceeds? then !Holds(c) && Holds(d)
            else if a.Release? then Holds(c) && !Holds(d)
            else Holds(d) == Holds(c)
  {
  }

  /** Nobody but `i` holds the slot in `calls`. */
  ghost predicate OnlyHolder(calls: map<nat, Call>, i: nat) { forall j :: j in calls && Holds(calls[j]) ==> j == i }

  /** A step that neither takes nor gives back the slot. */
  lemma SlotStays(s: State, i: nat, c: Call)
    requires SlotOk(s) && (if i in s.calls then Holds(c) == Holds(s.calls[i]) else !Holds(c))
    ensures SlotOk(s.(calls := s.calls[i := c]))
  {
    var t := s.(calls := s.calls[i := c]);
    assert forall j :: j in t.calls && Holds(t.calls[j]) ==> j in s.calls && Holds(s.calls[j]);
    assert forall j :: j in s.calls && Holds(s.calls[j]) ==> j in t.calls && Holds(t.calls[j]);
  }

  lemma SlotTaken(s: State, i: nat, c: Call)
    requires SlotOk(s) && s.slot == 1 && Holds(c)
    ensures SlotOk(State(0, s.calls[i := c]))
  {
    assert OnlyHolder(s.calls[i := c], i);
    assert Holds(s.calls[i := c][i]);
  }

  lemma SlotGivenBack(s: State, i: nat, c: Call)
    requires SlotOk(s) && i in s.calls && Holds(s.calls[i]) && !Holds(c)
    ensures s.slot == 0 && SlotOk(State(1, s.calls[i := c]))
  {
    assert OnlyHolder(s.calls, i);
  }

  lemma SlotKeeps(s: State, i: nat, a: Action)
    requires SlotOk(s) && Apply(s, i, a).Some?
    ensures SlotOk(Apply(s, i, a).value)
  {
    var c := Apply(s, i, a).value.calls[i];
    if !a.Enter? { CallStepHolds(s.calls[i], a); }
    if a.WaitSucceeds? { SlotTaken(s, i, c); }
    else if a.Release? { SlotGivenBack(s, i, c); }
    else { SlotStays(s, i, c); }
  }

  lemma StepKeeps(s: State, i: nat, a: Action)
    requires Inv(s) && Apply(s, i, a).Some?
    ensures Inv(Apply(s, i, a).value)
  {
    SlotKeeps(s, i, a);
    if !a.Enter? { CallStepKeeps(s.calls[i], a); }
  }

  // ---- Whole runs ----

  datatype Step = Step(call: nat, action: Action)

  function Run(steps: seq<Step>): Option<State> {
    if steps == [] then Some(IDLE)
    else
      match Run(steps[..|steps| - 1])
      case None => None
      case Some(s) => Apply(s, steps[|steps| - 1].call, steps[|steps| - 1].action)
  }

  lemma {:induction false} RunKeeps(steps: seq<Step>)
    requires Run(steps).Some?
    ensures Inv(Run(steps).value)
  {
    if steps != [] {
      RunKeeps(steps[..|steps| - 1]);
      StepKeeps(Run(steps[..|steps| - 1]).value, steps[|steps| - 1].call, steps[|steps| - 1].action);
    }
  }

  /** In every reachable state at most one session is alive, and the slot is free exactly when nobody holds it. */
  lemma OneLiveSession(steps: seq<Step>, i: nat, j: nat)
    requires Run(steps).Some?
    ensures var s := Run(steps).value;
            && (i in s.calls && j in s.calls && Live(s.calls[i]) && Live(s.calls[j]) ==> i == j)
            && s.slot <= 1
            && (s.slot == 1 <==> forall k :: k in s.calls ==> !Holds(s.calls[k]))
  {
    RunKeeps(steps);
    assert forall k :: k in Run(steps).value.calls && Live(Run(steps).value.calls[k]) ==>
           Holds(Run(steps).value.calls[k]);
  }

  lemma ReleaseFollowsCancel(s: State, i: nat)
    requires Inv(s) && Apply(s, i, Release).Some?
    ensures i in s.calls && (s.calls[i].session.Some? ==> s.calls[i].session.value.cancelled)
    ensures s.slot == 0 && Apply(s, i, Release).value.slot == 1
  {
    assert CallOk(s.calls[i]) && Holds(s.calls[i]);
  }

  /** The slot is given back only after the session, if any, was cancelled; so also on every throw. */
  lemma CancelledBeforeRelease(steps: seq<Step>, i: nat)
    requires Run(steps).Some? && Run(steps + [Step(i, Release)]).Some?
    ensures var s := Run(steps).value;
            && i in s.calls && (s.calls[i].session.Some? ==> s.calls[i].session.value.cancelled)
            && s.slot == 0 && Run(steps + [Step(i, Release)]).value.slot == 1
  {
    assert (steps + [Step(i, Release)])[..|steps|] == steps;
    RunKeeps(steps);
    ReleaseFollowsCancel(Run(steps).value, i);
  }

  /**
   A finished call that returned gave the first completion, checked the lifetime after it, and approval went through
   confirmation.
   */
  lemma ReturnedIsFirstCompletion(steps: seq<Step>, i: nat)
    requires Run(steps).Some? && i in Run(steps).value.calls
    requires Run(steps).value.calls[i].pc.Finished? && Run(steps).value.calls[i].pc.outcome.Returned?
    ensures var c := Run(steps).value.calls[i];
            && c.session.Some? && c.session.value.cancelled
            && c.session.value.completions != [] && c.pc.outcome.decision == c.session.value.completions[0]
            && 0 < c.seen <= |c.session.value.completions|
            && c.checked.Some? && Good(c.checked.value, c.deadline, c.request.expiresAtMs)
            && (c.pc.outcome.decision == Approved && c.requireConfirmation ==> c.session.value.confirmed)
  {
    RunKeeps(steps);
  }

  lemma CallOutcomeIsFinal(c: Call, a: Action)
    requires CallOk(c) && OutcomeOf(c).Some? && CallStep(c, a).Some?
    ensures var d := CallStep(c, a).value;
            d.request == c.request && d.deadline == c.deadline && OutcomeOf(d) == OutcomeOf(c)
                && (c.pc.Finished? ==> d.pc == c.pc)
  {
    if IsSessionAction(a) {
      SessionStepKeeps(c, c.session.value, a);
    }
  }

  /** Nothing that happens later, callbacks included, changes an outcome. */
  lemma OutcomeIsFinal(s: State, i: nat, j: nat, a: Action)
    requires Inv(s) && Apply(s, i, a).Some? && j in s.calls && OutcomeOf(s.calls[j]).Some?
    ensures var t := Apply(s, i, a).value;
            && j in t.calls && t.calls[j].request == s.calls[j].request
                && OutcomeOf(t.calls[j]) == OutcomeOf(s.calls[j])
            && (s.calls[j].pc.Finished? ==> t.calls[j].pc == s.calls[j].pc)
  {
    if i == j && !a.Enter? { CallOutcomeIsFinal(s.calls[i], a); }
  }

  lemma SessionRequestIsFixed(c: Call, s: Session, a: Action)
    requires SessionStep(c, s, a).Some?
    ensures SessionStep(c, s, a).value.request == c.request && SessionStep(c, s, a).value.deadline == c.deadline
  {
  }

  lemma CallRequestIsFixed(c: Call, a: Action)
    requires CallStep(c, a).Some?
    ensures CallStep(c, a).value.request == c.request && CallStep(c, a).value.deadline == c.deadline
  {
    if IsSessionAction(a) { SessionRequestIsFixed(c, c.session.value, a); }
  }

  lemma RequestIsFixed(s: State, i: nat, j: nat, a: Action)
    requires Apply(s, i, a).Some? && j in s.calls
    ensures var t := Apply(s, i, a).value;
            j in t.calls && t.calls[j].request == s.calls[j].request && t.calls[j].deadline == s.calls[j].deadline
  {
    if i == j && !a.Enter? { CallRequestIsFixed(s.calls[i], a); }
  }

  lemma NoNewCalls(s: State, i: nat, a: Action)
    requires Apply(s, i, a).Some? && !a.Enter?
    ensures Apply(s, i, a).value.calls.Keys == s.calls.Keys
  {
  }
}
