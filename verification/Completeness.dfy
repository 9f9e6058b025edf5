/**
 The protocol can succeed: from every reachable state with a free authentication slot, a helper and an agent that
 follow the protocol in time, and a user who agrees, end in an approved login.
 */
module Completeness {
  import opened Bytes
  import opened Fields
  import opened Messages
  import opened SwiftMessages
  import opened Binding
  import opened Timing
  import opened Lifetimes
  import opened Protocol
  import opened EndToEnd
  import Auth = Coordinators
  import Runs = HelperRuns

  lemma Extend(p: Setup, steps: seq<Step>, s: State, i: nat, a: Action, t: State) returns (more: seq<Step>)
    requires Run(p, steps) == Some(s) && Apply(p, s, i, a) == Some(t)
    ensures Run(p, more) == Some(t)
  {
    more := steps + [Step(i, a)];
    RunAppend(p, steps, Step(i, a));
  }

  /** One step of the coordinator by call `c`, every other call staying as in `calls`. */
  lemma ExtendAuth(p: Setup, steps: seq<Step>, s: State, slot: nat, calls: map<nat, Auth.Call>, c: nat,
                   before: Auth.Call,
                   a: Auth.Action, after: Auth.Call) returns (more: seq<Step>)
    requires Run(p, steps) == Some(s.(auth := Auth.State(slot, calls[c := before])))
    requires !a.Enter? && Auth.CallStep(before, a) == Some(after) && (a.WaitSucceeds? ==> slot > 0)
    ensures Run(p, more) == Some(s.(auth := Auth.State(
                                      if a.WaitSucceeds? then slot - 1 else if a.Release? then slot + 1 else slot,
                                      calls[c := after])))
  {
    var now := s.(auth := Auth.State(slot, calls[c := before]));
    var then' := s.(auth := Auth.State(
                      if a.WaitSucceeds? then slot - 1 else if a.Release? then slot + 1 else slot, calls[c := after]));
    assert now.auth.calls[c := after] == calls[c := after];
    assert Auth.Apply(now.auth, c, a) == Some(then'.auth);
    more := Extend(p, steps, now, c, AuthStep(a), then');
  }

  /**
   A request to be authenticated: whether it needs confirmation, its lifetime's deadline, and what every check reads.
   */
  datatype Case = Case(request: Request, confirm: bool, deadline: u64, reading: Reading)

  predicate InLife(v: Case) { Good(v.reading, v.deadline, v.request.expiresAtMs) }

  function Entered(v: Case): Auth.Call {
    Auth.Call(v.request, v.confirm, v.deadline, Auth.Waiting, false, None, 0, None)
  }

  /** One step of connection `c` on its own, every other connection staying as in `conns`. */
  lemma ExtendConn(p: Setup, steps: seq<Step>, s: State, conns: map<nat, Conn>, c: nat, before: Conn, a: Action,
                   after: Conn)
      returns (more: seq<Step>)
    requires Run(p, steps) == Some(s.(conns := conns[c := before]))
    requires IsConnStep(a) && ConnStep(s.(conns := conns[c := before]), c, before, a) == Some(after)
    ensures Run(p, more) == Some(s.(conns := conns[c := after]))
  {
    var now := s.(conns := conns[c := before]);
    assert now.conns[c := after] == conns[c := after];
    more := Extend(p, steps, now, c, a, s.(conns := conns[c := after]));
  }

  /** The session in each of its phases, and the call that made it. */
  function Asking(v: Case, phase: Auth.Phase, confirmed: bool): Auth.Call {
    Auth.Call(v.request, v.confirm, v.deadline, Auth.Polling, false, Some(v.reading), 0,
              Some(Auth.Session(phase, confirmed, None, [], false)))
  }

  function Answered(v: Case, pc: Auth.Pc, seen: nat, cancelled: bool): Auth.Call {
    Auth.Call(v.request, v.confirm, v.deadline, pc, false, Some(v.reading), seen,
              Some(Auth.Session(Auth.Evaluating, v.confirm, Some(Approved), [Approved], cancelled)))
  }

  /** From the free slot to the posted session. */
  lemma SessionStarts(p: Setup, steps: seq<Step>, s: State, calls: map<nat, Auth.Call>, c: nat, v: Case)
      returns (more: seq<Step>)
    requires InLife(v) && Run(p, steps) == Some(s.(auth := Auth.State(1, calls[c := Entered(v)])))
    ensures Run(p, more) == Some(s.(auth := Auth.State(0, calls[c := Asking(v, Auth.Posted, false)])))
  {
    var call := Entered(v);
    var made := Auth.Session(Auth.Made, false, None, [], false);
    more := ExtendAuth(p, steps, s, 1, calls, c, call, Auth.WaitSucceeds, call.(pc := Auth.Acquired));
    more := ExtendAuth(p, more, s, 0, calls, c, call.(pc := Auth.Acquired), Auth.CheckAfterWait(v.reading),
                       call.(pc := Auth.Checked, checked := Some(v.reading)));
    more := ExtendAuth(p, more, s, 0, calls, c, call.(pc := Auth.Checked, checked := Some(v.reading)), Auth.MakeSession,
                       call.(pc := Auth.Created, checked := Some(v.reading), session := Some(made)));
    more := ExtendAuth(p, more, s, 0, calls, c,
                       call.(pc := Auth.Created, checked := Some(v.reading), session := Some(made)), Auth.StartSession,
                       Asking(v, Auth.Posted, false));
  }

  /** The confirmation, if it is asked for. */
  lemma UserConfirms(p: Setup, steps: seq<Step>, s: State, calls: map<nat, Auth.Call>, c: nat, v: Case)
      returns (more: seq<Step>)
    requires InLife(v) && Run(p, steps) == Some(s.(auth := Auth.State(0, calls[c := Asking(v, Auth.Posted, false)])))
    ensures Run(p, more) == Some(s.(auth := Auth.State(0, calls[c := Asking(v, Auth.Confirmed, v.confirm)])))
  {
    var next := if v.confirm then Auth.Confirming else Auth.Confirmed;
    more := ExtendAuth(p, steps, s, 0, calls, c, Asking(v, Auth.Posted, false), Auth.MainLoopTurn(v.reading),
                       Asking(v, next, false));
    if v.confirm {
      more := ExtendAuth(p, more, s, 0, calls, c, Asking(v, Auth.Confirming, false), Auth.UserConfirms(true),
                         Asking(v, Auth.Confirmed, v.confirm));
    }
  }

  lemma AskingSteps(v: Case)
    requires InLife(v)
    ensures Auth.CallStep(Asking(v, Auth.Confirmed, v.confirm), Auth.ConfirmationCheck(v.reading))
            == Some(Asking(v, Auth.Able, v.confirm))
    ensures Auth.CallStep(Asking(v, Auth.Able, v.confirm), Auth.PolicyAvailable(true))
            == Some(Asking(v, Auth.Ready, v.confirm))
    ensures Auth.CallStep(Asking(v, Auth.Ready, v.confirm), Auth.EvaluationCheck(v.reading))
            == Some(Asking(v, Auth.Evaluating, v.confirm))
  {
  }

  lemma AnsweredSteps(v: Case)
    requires InLife(v)
    ensures Auth.CallStep(Asking(v, Auth.Evaluating, v.confirm), Auth.Callback(Approved))
            == Some(Answered(v, Auth.Polling, 0, false))
    ensures Auth.CallStep(Answered(v, Auth.Polling, 0, false), Auth.FinalCheck(v.reading))
            == Some(Answered(v, Auth.Cancelling(Auth.Returned(Approved)), 1, false))
  {
    var none: seq<Decision> := [];
    assert none + [Approved] == [Approved];
  }

  lemma ClosingSteps(v: Case, o: Auth.Outcome)
    ensures Auth.CallStep(Answered(v, Auth.Cancelling(o), 1, false), Auth.CancelSession)
            == Some(Answered(v, Auth.Releasing(o), 1, true))
    ensures Auth.CallStep(Answered(v, Auth.Releasing(o), 1, true), Auth.Release)
            == Some(Answered(v, Auth.Finished(o), 1, true))
  {
  }

  /** From the posted session to the evaluation. */
  lemma UserIsAsked(p: Setup, steps: seq<Step>, s: State, calls: map<nat, Auth.Call>, c: nat, v: Case)
      returns (more: seq<Step>)
    requires InLife(v) && Run(p, steps) == Some(s.(auth := Auth.State(0, calls[c := Asking(v, Auth.Posted, false)])))
    ensures Run(p, more) == Some(s.(auth := Auth.State(0, calls[c := Asking(v, Auth.Evaluating, v.confirm)])))
  {
    AskingSteps(v);
    more := UserConfirms(p, steps, s, calls, c, v);
    more := ExtendAuth(p, more, s, 0, calls, c, Asking(v, Auth.Confirmed, v.confirm), Auth.ConfirmationCheck(v.reading),
                       Asking(v, Auth.Able, v.confirm));
    more := ExtendAuth(p, more, s, 0, calls, c, Asking(v, Auth.Able, v.confirm), Auth.PolicyAvailable(true),
                       Asking(v, Auth.Ready, v.confirm));
    more := ExtendAuth(p, more, s, 0, calls, c, Asking(v, Auth.Ready, v.confirm), Auth.EvaluationCheck(v.reading),
                       Asking(v, Auth.Evaluating, v.confirm));
  }

  /** From the evaluation to the approval, with the lifetime checked once more. */
  lemma UserApproves(p: Setup, steps: seq<Step>, s: State, calls: map<nat, Auth.Call>, c: nat, v: Case, o: Auth.Outcome)
      returns (more: seq<Step>)
    requires InLife(v) && o == Auth.Returned(Approved)
    requires Run(p, steps) == Some(s.(auth := Auth.State(0, calls[c := Asking(v, Auth.Evaluating, v.confirm)])))
    ensures Run(p, more) == Some(s.(auth := Auth.State(0, calls[c := Answered(v, Auth.Cancelling(o), 1, false)])))
  {
    AnsweredSteps(v);
    more := ExtendAuth(p, steps, s, 0, calls, c, Asking(v, Auth.Evaluating, v.confirm), Auth.Callback(Approved),
                       Answered(v, Auth.Polling, 0, false));
    more := ExtendAuth(p, more, s, 0, calls, c, Answered(v, Auth.Polling, 0, false), Auth.FinalCheck(v.reading),
                       Answered(v, Auth.Cancelling(o), 1, false));
  }

  /** From the evaluation to the returned approval and the free slot. */
  lemma UserAgrees(p: Setup, steps: seq<Step>, s: State, calls: map<nat, Auth.Call>, c: nat, v: Case)
      returns (more: seq<Step>)
    requires InLife(v)
    requires Run(p, steps) == Some(s.(auth := Auth.State(0, calls[c := Asking(v, Auth.Evaluating, v.confirm)])))
    ensures var done := Answered(v, Auth.Finished(Auth.Returned(Approved)), 1, true);
            Run(p, more) == Some(s.(auth := Auth.State(1, calls[c := done])))
  {
    var approved := Auth.Returned(Approved);
    ClosingSteps(v, approved);
    more := UserApproves(p, steps, s, calls, c, v, approved);
    more := ExtendAuth(p, more, s, 0, calls, c, Answered(v, Auth.Cancelling(approved), 1, false), Auth.CancelSession,
                       Answered(v, Auth.Releasing(approved), 1, true));
    more := ExtendAuth(p, more, s, 0, calls, c, Answered(v, Auth.Releasing(approved), 1, true), Auth.Release,
                       Answered(v, Auth.Finished(approved), 1, true));
  }

  // ---- The agent ----

  lemma ResponseFieldsFit(q: Request, r: Response)
    requires AllFit(RequestFields(q))
    requires r.requestId == q.requestId && r.nonce == q.nonce && r.hostId == q.hostId && r.service == q.service
             && r.user == q.user
    requires |r.requestHash| < U32_LIMIT && |r.agentKeyId| < U32_LIMIT && r.errorCode.None? && r.errorMessage.None?
    ensures AllFit(ResponseFields(r))
  {
    var fields := RequestFields(q);
    assert Fits(fields[2]) && Fits(fields[3]) && Fits(fields[6]) && Fits(fields[8]) && Fits(fields[9]);
  }

  /** The agent's answer can always be made and encoded while the request lives. */
  lemma AnswerEncodes(q: Request, d: Decision, wallMs: u64, agentKeyId: bytes, hash: Hash)
    requires EncodeRequest(q).Ok? && wallMs < q.expiresAtMs
    requires |agentKeyId| < U32_LIMIT && |hash(EncodeRequest(q).value)| < U32_LIMIT
    ensures Answer(q, d, wallMs, agentKeyId, hash).Some?
    ensures EncodeResponse(Answer(q, d, wallMs, agentKeyId, hash).value).Ok?
  {
    RustRequestsSurvive(q);
    SwiftAnswerIsSound(FromRustRequest(q), d, if d == Approved then SwiftBiometricOrWatch else SwiftNone, wallMs,
                       agentKeyId, hash);
    ResponseFieldsFit(q, Answer(q, d, wallMs, agentKeyId, hash).value);
  }

  /** A connection at some point of its way, with every check that succeeded reading the same. */
  function At(q: Request, admittedMs: u64, birth: Birth, pc: ConnPc, passed: nat, r: Reading): Conn {
    Conn(q, admittedMs, birth, pc, passed, Some(r), None, None, 0)
  }

  /** A request that verifies is admitted and survives its first check. */
  lemma AgentBegun(p: Setup, steps: seq<Step>, s: State, c: nat, q: Request, wallMs: u64, birth: Birth, r: Reading)
      returns (more: seq<Step>)
    requires Run(p, steps) == Some(s) && c !in s.conns && c !in s.auth.calls
    requires VerifierKey(p, q.hostId).Some? && SignedBy(s.signed, VerifierKey(p, q.hostId).value, p.codec.request(q))
    requires SwiftFresh(q.createdAtMs, q.expiresAtMs, wallMs, p.skewMs).Pass?
    requires Good(r, DeadlineOf(NewConn(q, wallMs, birth)), q.expiresAtMs)
    ensures Run(p, more) == Some(s.(conns := s.conns[c := At(q, wallMs, birth, Begun, 1, r)]))
  {
    var admitted, begun := NewConn(q, wallMs, birth), At(q, wallMs, birth, Begun, 1, r);
    var s1, s2 := s.(conns := s.conns[c := admitted]), s.(conns := s.conns[c := begun]);
    assert s1.conns[c := begun] == s2.conns;
    more := Extend(p, steps, s, c, AgentAdmits(q, true, wallMs, birth), s1);
    more := Extend(p, more, s1, c, AgentBegins(r), s2);
  }

  /** Then it enters the coordinator. */
  lemma AgentAsks(p: Setup, steps: seq<Step>, s: State, c: nat, v: Case, wallMs: u64, birth: Birth)
        returns (more: seq<Step>)
    requires Run(p, steps) == Some(s) && c !in s.conns && c !in s.auth.calls
    requires var q := v.request;
             && VerifierKey(p, q.hostId).Some? && SignedBy(s.signed, VerifierKey(p, q.hostId).value, p.codec.request(q))
             && SwiftFresh(q.createdAtMs, q.expiresAtMs, wallMs, p.skewMs).Pass?
             && v.deadline == DeadlineOf(NewConn(q, wallMs, birth)) && InLife(v)
    ensures Run(p, more) == Some(s.(
                              conns := s.conns[c := At(v.request, wallMs, birth, Authenticating, 1, v.reading)],
                              auth := Auth.State(s.auth.slot, s.auth.calls[c := Entered(v)])))
  {
    var begun := At(v.request, wallMs, birth, Begun, 1, v.reading);
    var asking := At(v.request, wallMs, birth, Authenticating, 1, v.reading);
    var now := s.(conns := s.conns[c := begun]);
    assert now.conns[c := asking] == s.conns[c := asking];
    more := AgentBegun(p, steps, s, c, v.request, wallMs, birth, v.reading);
    more := Extend(p, more, now, c, AgentAuthenticates(v.confirm),
                   s.(conns := s.conns[c := asking], auth := Auth.State(s.auth.slot, s.auth.calls[c := Entered(v)])));
  }

  /** An approved call is collected, and its connection checked again. */
  lemma AgentCollectsApproval(p: Setup, steps: seq<Step>, s: State, c: nat, asking: Conn, r: Reading)
        returns (more: seq<Step>)
    requires Run(p, steps) == Some(s) && c in s.conns && s.conns[c] == asking && asking.pc == Authenticating
    requires c in s.auth.calls && s.auth.calls[c].pc == Auth.Finished(Auth.Returned(Approved)) && !s.auth.calls[c].dead
    requires Good(r, DeadlineOf(asking), asking.request.expiresAtMs)
    ensures var alive := asking.(pc := Alive(Approved), passed := asking.passed + 1, checked := Some(r),
                                 judged := Some(Approved));
            Run(p, more) == Some(s.(conns := s.conns[c := alive]))
  {
    var judged := asking.(pc := Judged(Approved), judged := Some(Approved));
    var alive := judged.(pc := Alive(Approved), passed := asking.passed + 1, checked := Some(r));
    assert s.conns[c := asking] == s.conns;
    more := ExtendConn(p, steps, s, s.conns, c, asking, AgentCollects, judged);
    more := ExtendConn(p, more, s, s.conns, c, judged, AgentChecks(r), alive);
  }

  lemma SigningStep(p: Setup, s: State, c: nat, wallMs: u64, r: Response, message: bytes)
    requires c in s.conns && s.conns[c].pc == Alive(Approved)
    requires p.codec.answer(s.conns[c].request, Approved, wallMs) == Some(r) && p.codec.response(r) == Some(message)
    ensures var signed := s.conns[c].(pc := Signed, answer := Some(r), answeredMs := wallMs);
            Apply(p, s, c, AgentSigns(wallMs))
            == Some(s.(conns := s.conns[c := signed], signed := s.signed[(p.agentKey, message) := ByConn(c)]))
  {
    assert AfterSigning(p, s.conns[c], wallMs)
        == (s.conns[c].(pc := Signed, answer := Some(r), answeredMs := wallMs), Some(message));
  }

  /** It is answered, signed and sent. */
  lemma AgentSignsApproval(p: Setup, steps: seq<Step>, s: State, c: nat, alive: Conn, wallMs: u64, reading: Reading,
                           r: Response, message: bytes)
      returns (more: seq<Step>)
    requires Run(p, steps) == Some(s) && c in s.conns && s.conns[c] == alive && alive.pc == Alive(Approved)
             && PassesCheck(s, c, alive, reading)
    requires p.codec.answer(alive.request, Approved, wallMs) == Some(r) && p.codec.response(r) == Some(message)
    ensures Run(p, more).Some?
    ensures var t := Run(p, more).value;
            t.helpers == s.helpers && t.signed == s.signed[(p.agentKey, message) := ByConn(c)]
  {
    var signed := alive.(pc := Signed, answer := Some(r), answeredMs := wallMs);
    var s1 := s.(conns := s.conns[c := signed], signed := s.signed[(p.agentKey, message) := ByConn(c)]);
    SigningStep(p, s, c, wallMs, r, message);
    more := Extend(p, steps, s, c, AgentSigns(wallMs), s1);
    more := ExtendConn(p, more, s1, s.conns, c, signed, AgentSends(reading),
                       signed.(pc := Sent, passed := signed.passed + 1, checked := Some(reading)));
  }

  /** A connection of the agent takes a verified request all the way to a signed approval. */
  lemma AgentApproves(p: Setup, steps: seq<Step>, s: State, c: nat, v: Case, admittedMs: u64, birth: Birth, wallMs: u64,
                      r: Response, message: bytes) returns (more: seq<Step>)
    requires Run(p, steps) == Some(s) && c !in s.conns && c !in s.auth.calls && s.auth.slot == 1
    requires var q := v.request;
             && VerifierKey(p, q.hostId).Some? && SignedBy(s.signed, VerifierKey(p, q.hostId).value, p.codec.request(q))
             && SwiftFresh(q.createdAtMs, q.expiresAtMs, admittedMs, p.skewMs).Pass?
             && v.deadline == DeadlineOf(NewConn(q, admittedMs, birth)) && InLife(v)
    requires p.codec.answer(v.request, Approved, wallMs) == Some(r) && p.codec.response(r) == Some(message)
    ensures Run(p, more).Some?
    ensures var t := Run(p, more).value; t.helpers == s.helpers && SignedBy(t.signed, p.agentKey, Some(message))
  {
    var asking := At(v.request, admittedMs, birth, Authenticating, 1, v.reading);
    var s1 := s.(conns := s.conns[c := asking]);
    more := AgentAsks(p, steps, s, c, v, admittedMs, birth);
    more := SessionStarts(p, more, s1, s.auth.calls, c, v);
    more := UserIsAsked(p, more, s1, s.auth.calls, c, v);
    more := UserAgrees(p, more, s1, s.auth.calls, c, v);
    var s2 := Run(p, more).value;
    more := AgentCollectsApproval(p, more, s2, c, asking, v.reading);
    var s3 := Run(p, more).value;
    more := AgentSignsApproval(p, more, s3, c, s3.conns[c], wallMs, v.reading, r, message);
  }

  // ---- The whole login ----

  /**
   What the times have to be like: admitted fresh, answered in the life of the request, checked within the life of the
   answer.
   */
  predicate InTime(request: Request, deadline: nat, helperSkewMs: u64, agentSkewMs: u64, admittedMs: u64, signedMs: u64,
                   instant: nat, checkMs: u64, finalMs: u64) {
    && SwiftFresh(request.createdAtMs, request.expiresAtMs, admittedMs, agentSkewMs).Pass?
    && signedMs < request.expiresAtMs
    && signedMs <= checkMs <= signedMs + Min(RESPONSE_WINDOW_MS, request.expiresAtMs - signedMs)
    && instant < deadline
    && Runs.RequestFresh(request, checkMs, helperSkewMs) && Runs.RequestFresh(request, finalMs, helperSkewMs)
  }

  lemma AnswerIsFresh(q: Request, d: Decision, signedMs: u64, checkMs: u64, skewMs: u64, agentKeyId: bytes, hash: Hash)
    requires Answer(q, d, signedMs, agentKeyId, hash).Some?
    requires signedMs <= checkMs <= signedMs + Min(RESPONSE_WINDOW_MS, q.expiresAtMs - signedMs)
    ensures Runs.ResponseFresh(Answer(q, d, signedMs, agentKeyId, hash).value, checkMs, skewMs)
  {
    RustRequestsSurvive(q);
    SwiftAnswerIsSound(FromRustRequest(q), d, if d == Approved then SwiftBiometricOrWatch else SwiftNone, signedMs,
                       agentKeyId, hash);
  }

  /** The helper sends what it prepared. */
  lemma HelperAsks(p: Setup, steps: seq<Step>, s: State, h: nat, key: bytes, settings: Runs.Settings,
                   env: Runs.Environment,
                   agentKeyId: bytes, hash: Hash) returns (more: seq<Step>)
    requires Real(p, agentKeyId, hash) && Run(p, steps) == Some(s) && h !in s.helpers
    requires Runs.Prepare(Some(settings), env).Ok?
    ensures Run(p, more).Some?
    ensures var (request, deadline) := Runs.Prepare(Some(settings), env).value;
            var t := Run(p, more).value;
            && EncodeRequest(request).Ok? && t.conns == s.conns && t.auth == s.auth
            && h in t.helpers
            && t.helpers[h] == Helper(key, request, settings.timeoutMs, settings.skewMs, deadline, Awaiting, None, 0)
            && SignedBy(t.signed, key, p.codec.request(request))
  {
    var (request, deadline) := Runs.Prepare(Some(settings), env).value;
    var a := HelperStarts(key, request, settings.timeoutMs, settings.skewMs, deadline);
    PreparedRunsStart(p, s, h, key, settings, env, agentKeyId, hash);
    Runs.PrepareWindow(Some(settings), env);
    more := Extend(p, steps, s, h, a, Apply(p, s, h, a).value);
  }

  /**
   Whenever the slot is free, a helper with a key allowed for its host that has prepared a request can be approved:
   if everybody keeps to the protocol in time and the user agrees, it exits 0.
   */
  lemma LoginSucceeds(p: Setup, steps: seq<Step>, h: nat, c: nat, key: bytes, settings: Runs.Settings,
                      env: Runs.Environment,
                      confirm: bool, admittedMs: u64, birth: Birth, reading: Reading, signedMs: u64, instant: nat,
                      checkMs: u64, finalMs: u64, agentKeyId: bytes, hash: Hash) returns (more: seq<Step>)
    requires Real(p, agentKeyId, hash) && Run(p, steps).Some? && |agentKeyId| < U32_LIMIT
    requires var s := Run(p, steps).value; h !in s.helpers && c !in s.conns && s.auth.slot == 1
    requires Runs.Prepare(Some(settings), env).Ok?
    requires var (request, deadline) := Runs.Prepare(Some(settings), env).value;
             && VerifierKey(p, request.hostId) == Some(key)
             && |hash(EncodeRequest(request).value)| < U32_LIMIT
             && InTime(request, deadline, settings.skewMs, p.skewMs, admittedMs, signedMs, instant, checkMs, finalMs)
             && Good(reading, DeadlineOf(NewConn(request, admittedMs, birth)), request.expiresAtMs)
    ensures Run(p, more).Some? && Approves(Run(p, more).value, h)
  {
    var (request, deadline) := Runs.Prepare(Some(settings), env).value;
    RunKeeps(p, steps);
    more := HelperAsks(p, steps, Run(p, steps).value, h, key, settings, env, agentKeyId, hash);
    AnswerEncodes(request, Approved, signedMs, agentKeyId, hash);
    var r := Answer(request, Approved, signedMs, agentKeyId, hash).value;
    var message := EncodeResponse(r).value;
    var v := Case(request, confirm, DeadlineOf(NewConn(request, admittedMs, birth)), reading);
    more := AgentApproves(p, more, Run(p, more).value, c, v, admittedMs, birth, signedMs, r, message);
    AnswerIsItsOwn(request, Approved, signedMs, agentKeyId, hash);
    AnswerIsFresh(request, Approved, signedMs, checkMs, settings.skewMs, agentKeyId, hash);
    more := DecidedRunContinues(p, more, h, r, instant, instant, checkMs, finalMs);
  }
}
