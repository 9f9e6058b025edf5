/**
 The whole protocol: any number of helper runs, one agent serving any number of connections, and a transport
 that delivers whatever it likes. `signed` maps every (key, message) that was ever signed to who signed it; a
 signature that verifies is one of these. Clocks enter every step as free readings.
 */
module Protocol {
  import opened Bytes
  import opened Messages
  import opened SwiftMessages
  import opened Binding
  import opened Timing
  import opened Lifetimes
  import Auth = Coordinators
  import Runs = HelperRuns

  /**
   The message functions the protocol goes through: both canonical encodings, the binding check, and the answer
   the agent makes. The invariants below hold whatever these are; the main results are about `RealCodec`.
   */
  datatype Codec = Codec(
    request: Request -> Option<bytes>,
    response: Response -> Option<bytes>,
    binds: (Response, Request) -> bool,
    answer: (Request, Decision, u64) -> Option<Response>)

  /** Fixed for a run: the agent's key pair, the agent's host verifiers ("*" matches any host), and the codec. */
  datatype Setup = Setup(agentKey: bytes, verifiers: map<bytes, bytes>, codec: Codec, skewMs: u64)

  const ANY_HOST := Ascii("*")

  function VerifierKey(p: Setup, hostId: bytes): Option<bytes> {
    if hostId in p.verifiers then Some(p.verifiers[hostId])
    else if ANY_HOST in p.verifiers then Some(p.verifiers[ANY_HOST])
    else None
  }

  /** Keys that only the protocol's own participants sign with. */
  predicate Honest(p: Setup, key: bytes) { key == p.agentKey || key in p.verifiers.Values }

  // ---- State ----

  datatype HelperPc =
    | Awaiting
    | Verified(answer: Response)
    | Fresh(answer: Response)
    | Exited(code: int, finalInstant: nat, finalWallMs: u64)

  /**
   One run of the helper; `accepted` remembers the answer that passed signature and binding, `checkedMs` when it was
   found fresh.
   */
  datatype Helper = Helper(
    key: bytes, request: Request, timeoutMs: u64, skewMs: u64, deadline: nat, pc: HelperPc,
    accepted: Option<Response>, checkedMs: u64)

  datatype ConnPc =
    | Admitted
    | Begun
    | Authenticating
    | Judged(decision: Decision)
    | Alive(decision: Decision)
    | Signed
    | Sent
    | Closed

  /** What the clocks read when the connection was accepted and when the lifetime of its request was created. */
  datatype Birth = Birth(acceptedNs: u64, wallMs: u64, uptimeNs: u64)

  /**
   One connection of the agent, from the moment its request was verified, at `admittedMs`; `answer` is what it
   signed, at `answeredMs`. `passed` counts the lifetime checks of the connection itself that succeeded, and
   `checked` is what the last of them read.
   */
  datatype Conn = Conn(
    request: Request, admittedMs: u64, birth: Birth, pc: ConnPc, passed: nat, checked: Option<Reading>,
    judged: Option<Decision>, answer: Option<Response>, answeredMs: u64)

  /** The deadline of the request's lifetime. */
  function DeadlineOf(c: Conn): u64 {
    LifetimeDeadline(DeadlineAfter(CONNECTION_MS, c.birth.acceptedNs), c.request.expiresAtMs, c.birth.wallMs,
                     c.birth.uptimeNs)
  }

  function NewConn(q: Request, admittedMs: u64, birth: Birth): Conn {
    Conn(q, admittedMs, birth, Admitted, 0, None, None, None, 0)
  }

  datatype Signer = ByHelper(helper: nat) | ByConn(conn: nat) | ByOutsider

  type Signatures = map<(bytes, bytes), Signer>

  datatype State = State(helpers: map<nat, Helper>, conns: map<nat, Conn>, auth: Auth.State, signed: Signatures)

  const START := State(map[], map[], Auth.IDLE, map[])

  datatype Action =
    | HelperStarts(key: bytes, request: Request, timeoutMs: u64, skewMs: u64, deadline: nat)
    | HelperReceives(response: Response, signatureValid: bool)
    | HelperChecks(instant: nat, wallMs: u64)
    | HelperFinishes(instant: nat, wallMs: u64)
    | HelperFails(code: int)
    | AgentAdmits(request: Request, signatureValid: bool, wallMs: u64, birth: Birth)
    | AgentBegins(reading: Reading)
    | AgentRateLimits
    | AgentAuthenticates(requireConfirmation: bool)
    | AuthStep(action: Auth.Action)
    | AgentCollects
    | AgentChecks(reading: Reading)
    | AgentSigns(wallMs: u64)
    | AgentSends(reading: Reading)
    | OutsiderSigns(key: bytes, message: bytes)

  // ---- Steps ----

  function ToOption(r: Result<bytes, ProtocolError>): Option<bytes> { if r.Ok? then Some(r.value) else None }

  /** What the agent signs for a decision: the Swift answer, as Rust reads it. */
  function Answer(q: Request, d: Decision, wallMs: u64, agentKeyId: bytes, hash: Hash): Option<Response> {
    var r := SwiftForRequest(FromRustRequest(q), d, if d == Approved then SwiftBiometricOrWatch else SwiftNone,
                             wallMs, agentKeyId, hash);
    if r.Err? then None else ToRustResponse(r.value)
  }

  /** The functions of the two implementations. */
  function RealCodec(agentKeyId: bytes, hash: Hash): Codec {
    Codec((q: Request) => ToOption(EncodeRequest(q)),
          (r: Response) => ToOption(EncodeResponse(r)),
          (r: Response, q: Request) => VerifyBinding(r, q, hash).Pass?,
          (q: Request, d: Decision, wallMs: u64) => Answer(q, d, wallMs, agentKeyId, hash))
  }

  /** The message is in the map of signatures; an unencodable body never is. */
  predicate SignedBy(signed: Signatures, key: bytes, message: Option<bytes>) {
    message.Some? && (key, message.value) in signed
  }

  function HelperStep(p: Setup, s: State, h: Helper, a: Action): Option<Helper> {
    match a
    case HelperReceives(r, valid) =>
      if !h.pc.Awaiting? || (valid && !SignedBy(s.signed, p.agentKey, p.codec.response(r))) then None
      else if !valid || !p.codec.binds(r, h.request) then Some(h.(pc := Exited(Runs.EXIT_TAMPER, 0, 0)))
      else Some(h.(pc := Verified(r), accepted := Some(r)))
    case HelperChecks(instant, wall) =>
      if !h.pc.Verified? then None
      else if instant >= h.deadline || !Runs.RequestFresh(h.request, wall, h.skewMs)
          then Some(h.(pc := Exited(Runs.EXIT_UNAVAILABLE, instant, wall)))
      else if !Runs.ResponseFresh(h.pc.answer, wall, h.skewMs)
          then Some(h.(pc := Exited(Runs.EXIT_TAMPER, instant, wall)))
      else Some(h.(pc := Fresh(h.pc.answer), checkedMs := wall))
    case HelperFinishes(instant, wall) =>
      if !h.pc.Fresh? then None
      else if instant >= h.deadline || !Runs.RequestFresh(h.request, wall, h.skewMs)
          then Some(h.(pc := Exited(Runs.EXIT_UNAVAILABLE, instant, wall)))
      else Some(h.(pc := Exited(Runs.ExitForDecision(h.pc.answer.decision), instant, wall)))
    case HelperFails(code) =>
      if h.pc.Exited? || code !in {Runs.EXIT_INTERNAL, Runs.EXIT_UNAVAILABLE, Runs.EXIT_PROTOCOL, Runs.EXIT_TAMPER}
          then None
      else Some(h.(pc := Exited(code, 0, 0)))
    case _ => None
  }

  /** The lifetime of connection `i` passes a check: its authentication has not seen it fail, and the check is good. */
  predicate PassesCheck(s: State, i: nat, c: Conn, r: Reading) {
    (i in s.auth.calls ==> !s.auth.calls[i].dead) && Good(r, DeadlineOf(c), c.request.expiresAtMs)
  }

  /** After a lifetime check of the connection itself. */
  function AfterCheck(c: Conn, passes: bool, r: Reading, next: ConnPc): Conn {
    if passes then c.(pc := next, passed := c.passed + 1, checked := Some(r)) else c.(pc := Closed)
  }

  /** Steps of connection `i` that touch neither the coordinator nor the signatures. */
  function ConnStep(s: State, i: nat, c: Conn, a: Action): Option<Conn> {
    match a
    case AgentBegins(r) =>
      if !c.pc.Admitted? then None else Some(AfterCheck(c, PassesCheck(s, i, c, r), r, Begun))
    case AgentRateLimits =>
      if !c.pc.Begun? then None else Some(c.(pc := Judged(Decision.Cancelled), judged := Some(Decision.Cancelled)))
    case AgentCollects =>
      if !c.pc.Authenticating? || i !in s.auth.calls || !s.auth.calls[i].pc.Finished? then None
      else
        (match s.auth.calls[i].pc.outcome
         case Threw => Some(c.(pc := Closed))
         case Returned(d) => Some(c.(pc := Judged(d), judged := Some(d))))
    case AgentChecks(r) =>
      if !c.pc.Judged? then None else Some(AfterCheck(c, PassesCheck(s, i, c, r), r, Alive(c.pc.decision)))
    case AgentSends(r) => if !c.pc.Signed? then None else Some(AfterCheck(c, PassesCheck(s, i, c, r), r, Sent))
    case _ => None
  }

  predicate IsHelperStep(a: Action) { a.HelperReceives? || a.HelperChecks? || a.HelperFinishes? || a.HelperFails? }

  predicate IsConnStep(a: Action) {
    a.AgentBegins? || a.AgentRateLimits? || a.AgentCollects? || a.AgentChecks? || a.AgentSends?
  }

  function StartHelper(p: Setup, s: State, i: nat, h: Helper): Option<State> {
    var message := p.codec.request(h.request);
    if i in s.helpers || message.None? || h.request.expiresAtMs != h.request.createdAtMs + h.timeoutMs then None
    else Some(s.(helpers := s.helpers[i := h], signed := s.signed[(h.key, message.value) := ByHelper(i)]))
  }

  function MoveHelper(p: Setup, s: State, i: nat, a: Action): Option<State> {
    if i !in s.helpers then None
    else
      var h := HelperStep(p, s, s.helpers[i], a);
      if h.None? then None else Some(s.(helpers := s.helpers[i := h.value]))
  }

  function Admit(p: Setup, s: State, i: nat, q: Request, signatureValid: bool, wallMs: u64,
                 birth: Birth): Option<State> {
    var key := VerifierKey(p, q.hostId);
    if i in s.conns || key.None? || !signatureValid || !SignedBy(s.signed, key.value, p.codec.request(q))
       || SwiftFresh(q.createdAtMs, q.expiresAtMs, wallMs, p.skewMs).Fail? then None
    else Some(s.(conns := s.conns[i := NewConn(q, wallMs, birth)]))
  }

  function MoveConn(s: State, i: nat, a: Action): Option<State> {
    if i !in s.conns then None
    else
      var c := ConnStep(s, i, s.conns[i], a);
      if c.None? then None else Some(s.(conns := s.conns[i := c.value]))
  }

  function Authenticate(s: State, i: nat, confirm: bool): Option<State> {
    if i !in s.conns || s.conns[i].pc != Begun then None
    else
      var auth := Auth.Apply(s.auth, i, Auth.Enter(s.conns[i].request, confirm, DeadlineOf(s.conns[i])));
      if auth.None? then None
      else Some(s.(auth := auth.value, conns := s.conns[i := s.conns[i].(pc := Authenticating)]))
  }

  function MoveAuth(s: State, i: nat, a: Auth.Action): Option<State> {
    if a.Enter? then None
    else
      var auth := Auth.Apply(s.auth, i, a);
      if auth.None? then None else Some(s.(auth := auth.value))
  }

  /** The connection after signing, whether or not there was anything to sign. */
  function AfterSigning(p: Setup, c: Conn, wallMs: u64): (Conn, Option<bytes>)
    requires c.pc.Alive?
  {
    var answer := p.codec.answer(c.request, c.pc.decision, wallMs);
    var message := if answer.None? then None else p.codec.response(answer.value);
    (if message.None? then c.(pc := Closed) else c.(pc := Signed, answer := answer, answeredMs := wallMs), message)
  }

  function Sign(p: Setup, s: State, i: nat, wallMs: u64): Option<State> {
    if i !in s.conns || !s.conns[i].pc.Alive? then None
    else
      var (next, message) := AfterSigning(p, s.conns[i], wallMs);
      var t := s.(conns := s.conns[i := next]);
      Some(if message.None? then t else t.(signed := s.signed[(p.agentKey, message.value) := ByConn(i)]))
  }

  function SignOutside(p: Setup, s: State, key: bytes, message: bytes): Option<State> {
    if Honest(p, key) then None else Some(s.(signed := s.signed[(key, message) := ByOutsider]))
  }

  function Apply(p: Setup, s: State, i: nat, a: Action): Option<State> {
    if IsHelperStep(a) then MoveHelper(p, s, i, a)
    else if IsConnStep(a) then MoveConn(s, i, a)
    else
      match a
      case HelperStarts(key, request, timeoutMs, skewMs, deadline) =>
        StartHelper(p, s, i, Helper(key, request, timeoutMs, skewMs, deadline, Awaiting, None, 0))
      case AgentAdmits(q, valid, wall, birth) => Admit(p, s, i, q, valid, wall, birth)
      case AgentAuthenticates(confirm) => Authenticate(s, i, confirm)
      case AuthStep(action) => MoveAuth(s, i, action)
      case AgentSigns(wall) => Sign(p, s, i, wall)
      case OutsiderSigns(key, message) => SignOutside(p, s, key, message)
      case _ => None
  }

  // ---- What always holds ----

  type Helpers = map<nat, Helper>
  type Conns = map<nat, Conn>

  predicate SignerOk(p: Setup, helpers: Helpers, conns: Conns, key: bytes, message: bytes, signer: Signer) {
    match signer
    case ByHelper(h) => h in helpers && helpers[h].key == key && p.codec.request(helpers[h].request) == Some(message)
    case ByConn(c) =>
      && key == p.agentKey && c in conns && conns[c].answer.Some?
      && p.codec.response(conns[c].answer.value) == Some(message)
    case ByOutsider => !Honest(p, key)
  }

  predicate HelperOk(p: Setup, signed: Signatures, h: Helper) {
    && h.request.expiresAtMs == h.request.createdAtMs + h.timeoutMs
    && (h.accepted.Some? ==>
          && SignedBy(signed, p.agentKey, p.codec.response(h.accepted.value))
          && p.codec.binds(h.accepted.value, h.request))
    && (h.pc.Verified? || h.pc.Fresh? ==> h.accepted == Some(h.pc.answer))
    && (h.pc.Fresh? ==> Runs.ResponseFresh(h.pc.answer, h.checkedMs, h.skewMs))
    && (h.pc.Exited? && h.pc.code !in {Runs.EXIT_INTERNAL, Runs.EXIT_UNAVAILABLE, Runs.EXIT_PROTOCOL,
                                       Runs.EXIT_TAMPER} ==>
          && h.accepted.Some? && h.pc.code == Runs.ExitForDecision(h.accepted.value.decision)
          && Runs.ResponseFresh(h.accepted.value, h.checkedMs, h.skewMs)
          && h.pc.finalInstant < h.deadline
          && h.pc.finalWallMs <= h.request.createdAtMs + h.timeoutMs)
  }

  /** How the verdict of connection `i` came about. */
  predicate VerdictOk(auth: Auth.State, i: nat, d: Decision) {
    || (i in auth.calls && auth.calls[i].pc == Auth.Finished(Auth.Returned(d)))
    || (i !in auth.calls && d == Decision.Cancelled)
  }

  /** How many lifetime checks a connection must have passed to be where it is. */
  function ChecksNeeded(pc: ConnPc): nat {
    match pc
    case Admitted => 0
    case Closed => 0
    case Alive(_) => 2
    case Signed => 2
    case Sent => 3
    case _ => 1
  }

  predicate ConnOk(p: Setup, signed: Signatures, auth: Auth.State, i: nat, c: Conn) {
    && VerifierKey(p, c.request.hostId).Some?
    && SignedBy(signed, VerifierKey(p, c.request.hostId).value, p.codec.request(c.request))
    && SwiftFresh(c.request.createdAtMs, c.request.expiresAtMs, c.admittedMs, p.skewMs).Pass?
    && (c.passed > 0 ==> c.checked.Some? && Good(c.checked.value, DeadlineOf(c), c.request.expiresAtMs))
    && c.passed >= ChecksNeeded(c.pc) && (c.answer.Some? ==> c.passed >= 2) && (i in auth.calls ==> c.passed >= 1)
    && (c.judged.Some? ==>
        c.pc != Admitted && c.pc != Begun && c.pc != Authenticating
        && VerdictOk(auth, i, c.judged.value))
    && (c.pc == Admitted || c.pc == Begun ==> i !in auth.calls)
    && (c.pc.Judged? || c.pc.Alive? ==> c.judged == Some(c.pc.decision))
    && (c.answer.Some? ==> c.pc.Signed? || c.pc.Sent? || c.pc.Closed?)
    && (c.answer.Some? ==> c.judged.Some? && c.answer == p.codec.answer(c.request, c.judged.value, c.answeredMs))
  }

  ghost predicate SignaturesOk(p: Setup, signed: Signatures, helpers: Helpers, conns: Conns) {
    forall k, m :: (k, m) in signed ==> SignerOk(p, helpers, conns, k, m, signed[(k, m)])
  }

  ghost predicate HelpersOk(p: Setup, signed: Signatures, helpers: Helpers) {
    forall i :: i in helpers ==> HelperOk(p, signed, helpers[i])
  }

  ghost predicate ConnsOk(p: Setup, signed: Signatures, auth: Auth.State, conns: Conns) {
    forall i :: i in conns ==> ConnOk(p, signed, auth, i, conns[i])
  }

  /** Every authentication is of the request of its connection, and shares its lifetime. */
  ghost predicate CallsOk(auth: Auth.State, conns: Conns) {
    forall i :: i in auth.calls ==> i in conns && CallOf(conns[i], auth.calls[i])
  }

  predicate CallOf(c: Conn, call: Auth.Call) { c.request == call.request && DeadlineOf(c) == call.deadline }

  ghost predicate Inv(p: Setup, s: State) {
    && SignaturesOk(p, s.signed, s.helpers, s.conns)
    && HelpersOk(p, s.signed, s.helpers)
    && ConnsOk(p, s.signed, s.auth, s.conns)
    && CallsOk(s.auth, s.conns)
    && Auth.Inv(s.auth)
  }

  // ---- Each kind of step keeps it ----

  /** Signatures stay accounted for while what their signers rest on is still there. */
  lemma SignaturesCarryOver(p: Setup, signed: Signatures, helpers: Helpers, conns: Conns, helpers': Helpers,
                            conns': Conns)
    requires SignaturesOk(p, signed, helpers, conns)
    requires forall h :: h in helpers ==>
               h in helpers' && helpers'[h].key == helpers[h].key
               && helpers'[h].request == helpers[h].request
    requires forall c :: c in conns && conns[c].answer.Some? ==> c in conns' && conns'[c].answer == conns[c].answer
    ensures SignaturesOk(p, signed, helpers', conns')
  {
    forall k, m | (k, m) in signed ensures SignerOk(p, helpers', conns', k, m, signed[(k, m)]) {
      assert SignerOk(p, helpers, conns, k, m, signed[(k, m)]);
    }
  }

  /** One more signature, by a signer that accounts for it. */
  lemma SignatureAdded(p: Setup, signed: Signatures, helpers: Helpers, conns: Conns, key: bytes, message: bytes,
                       signer: Signer)
    requires SignaturesOk(p, signed, helpers, conns) && SignerOk(p, helpers, conns, key, message, signer)
    ensures SignaturesOk(p, signed[(key, message) := signer], helpers, conns)
  {
    var more := signed[(key, message) := signer];
    forall k, m | (k, m) in more ensures SignerOk(p, helpers, conns, k, m, more[(k, m)]) {
      if (k, m) != (key, message) { assert SignerOk(p, helpers, conns, k, m, signed[(k, m)]); }
    }
  }

  /** No helper or connection that was in order minds more signatures. */
  lemma MoreSignatures(p: Setup, signed: Signatures, more: Signatures, helpers: Helpers, auth: Auth.State, conns: Conns)
    requires HelpersOk(p, signed, helpers) && ConnsOk(p, signed, auth, conns) && signed.Keys <= more.Keys
    ensures HelpersOk(p, more, helpers) && ConnsOk(p, more, auth, conns)
  {
    forall h | h in helpers ensures HelperOk(p, more, helpers[h]) {
      assert HelperOk(p, signed, helpers[h]);
    }
    forall c | c in conns ensures ConnOk(p, more, auth, c, conns[c]) {
      assert ConnOk(p, signed, auth, c, conns[c]);
    }
  }

  lemma HelperReplaced(p: Setup, signed: Signatures, helpers: Helpers, i: nat, h: Helper)
    requires HelpersOk(p, signed, helpers) && HelperOk(p, signed, h)
    ensures HelpersOk(p, signed, helpers[i := h])
  {
  }

  lemma ConnReplaced(p: Setup, signed: Signatures, auth: Auth.State, conns: Conns, i: nat, c: Conn)
    requires ConnsOk(p, signed, auth, conns) && ConnOk(p, signed, auth, i, c)
    ensures ConnsOk(p, signed, auth, conns[i := c])
  {
  }

  lemma CallsCarryOver(auth: Auth.State, conns: Conns, i: nat, c: Conn)
    requires CallsOk(auth, conns) && SameIdentity(conns, i, c)
    ensures CallsOk(auth, conns[i := c])
  {
  }

  predicate SameIdentity(conns: Conns, i: nat, c: Conn) {
    i in conns ==>
        c.request == conns[i].request && c.birth == conns[i].birth
        && (conns[i].answer.Some? ==> c.answer == conns[i].answer)
  }

  lemma ConnSignaturesOk(p: Setup, signed: Signatures, helpers: Helpers, conns: Conns, i: nat, c: Conn)
    requires SignaturesOk(p, signed, helpers, conns) && SameIdentity(conns, i, c)
    ensures SignaturesOk(p, signed, helpers, conns[i := c])
  {
    SignaturesCarryOver(p, signed, helpers, conns, helpers, conns[i := c]);
  }

  lemma HelperSignaturesOk(p: Setup, signed: Signatures, helpers: Helpers, conns: Conns, i: nat, h: Helper)
    requires SignaturesOk(p, signed, helpers, conns)
    requires i in helpers ==> h.key == helpers[i].key && h.request == helpers[i].request
    ensures SignaturesOk(p, signed, helpers[i := h], conns)
  {
    SignaturesCarryOver(p, signed, helpers, conns, helpers[i := h], conns);
  }

  /** Replacing or adding one connection, the rest staying as it is. */
  lemma ConnKeeps(p: Setup, s: State, i: nat, c: Conn)
    requires Inv(p, s) && ConnOk(p, s.signed, s.auth, i, c) && SameIdentity(s.conns, i, c)
    ensures Inv(p, s.(conns := s.conns[i := c]))
  {
    ConnSignaturesOk(p, s.signed, s.helpers, s.conns, i, c);
    ConnReplaced(p, s.signed, s.auth, s.conns, i, c);
    CallsCarryOver(s.auth, s.conns, i, c);
  }

  lemma SignatureKeeps(p: Setup, s: State, key: bytes, message: bytes, signer: Signer)
    requires Inv(p, s) && SignerOk(p, s.helpers, s.conns, key, message, signer)
    ensures Inv(p, s.(signed := s.signed[(key, message) := signer]))
  {
    var more := s.signed[(key, message) := signer];
    assert SignaturesOk(p, more, s.helpers, s.conns) by {
      SignatureAdded(p, s.signed, s.helpers, s.conns, key, message, signer);
    }
    assert HelpersOk(p, more, s.helpers) && ConnsOk(p, more, s.auth, s.conns) by {
      MoreSignatures(p, s.signed, more, s.helpers, s.auth, s.conns);
    }
  }

  lemma HelperKeeps(p: Setup, s: State, i: nat, h: Helper)
    requires Inv(p, s) && HelperOk(p, s.signed, h)
    requires i in s.helpers ==> h.key == s.helpers[i].key && h.request == s.helpers[i].request
    ensures Inv(p, s.(helpers := s.helpers[i := h]))
  {
    HelperReplaced(p, s.signed, s.helpers, i, h);
    HelperSignaturesOk(p, s.signed, s.helpers, s.conns, i, h);
  }

  lemma StartHelperKeeps(p: Setup, s: State, i: nat, h: Helper)
    requires Inv(p, s) && h.pc == Awaiting && h.accepted == None && StartHelper(p, s, i, h).Some?
    ensures Inv(p, StartHelper(p, s, i, h).value)
  {
    HelperKeeps(p, s, i, h);
    SignatureKeeps(p, s.(helpers := s.helpers[i := h]), h.key, p.codec.request(h.request).value, ByHelper(i));
  }

  lemma HelperStepKeepsOk(p: Setup, s: State, h: Helper, a: Action)
    requires HelperOk(p, s.signed, h) && HelperStep(p, s, h, a).Some?
    ensures HelperOk(p, s.signed, HelperStep(p, s, h, a).value)
    ensures HelperStep(p, s, h, a).value.key == h.key && HelperStep(p, s, h, a).value.request == h.request
  {
  }

  lemma MoveHelperKeeps(p: Setup, s: State, i: nat, a: Action)
    requires Inv(p, s) && MoveHelper(p, s, i, a).Some?
    ensures Inv(p, MoveHelper(p, s, i, a).value)
  {
    assert HelperOk(p, s.signed, s.helpers[i]);
    HelperStepKeepsOk(p, s, s.helpers[i], a);
    HelperKeeps(p, s, i, HelperStep(p, s, s.helpers[i], a).value);
  }

  lemma AdmittedIsOk(p: Setup, s: State, i: nat, q: Request, signatureValid: bool, wallMs: u64, birth: Birth)
    requires Admit(p, s, i, q, signatureValid, wallMs, birth).Some? && CallsOk(s.auth, s.conns)
    ensures i !in s.conns && ConnOk(p, s.signed, s.auth, i, NewConn(q, wallMs, birth))
    ensures Admit(p, s, i, q, signatureValid, wallMs, birth).value
            == s.(conns := s.conns[i := NewConn(q, wallMs, birth)])
  {
  }

  lemma AdmitKeeps(p: Setup, s: State, i: nat, q: Request, signatureValid: bool, wallMs: u64, birth: Birth)
    requires Inv(p, s) && Admit(p, s, i, q, signatureValid, wallMs, birth).Some?
    ensures Inv(p, Admit(p, s, i, q, signatureValid, wallMs, birth).value)
  {
    AdmittedIsOk(p, s, i, q, signatureValid, wallMs, birth);
    ConnKeeps(p, s, i, NewConn(q, wallMs, birth));
  }

  /** Whether the check passes or closes the connection. */
  lemma CheckKeepsOk(p: Setup, s: State, i: nat, c: Conn, r: Reading, next: ConnPc)
    requires ConnOk(p, s.signed, s.auth, i, c)
    requires || (c.pc.Admitted? && next == Begun) || (c.pc.Judged? && next == Alive(c.pc.decision))
             || (c.pc.Signed? && next == Sent)
    ensures ConnOk(p, s.signed, s.auth, i, AfterCheck(c, PassesCheck(s, i, c, r), r, next))
  {
  }

  lemma ConnStepKeepsOk(p: Setup, s: State, i: nat, c: Conn, a: Action)
    requires ConnOk(p, s.signed, s.auth, i, c) && ConnStep(s, i, c, a).Some?
    ensures ConnOk(p, s.signed, s.auth, i, ConnStep(s, i, c, a).value)
    ensures ConnStep(s, i, c, a).value.birth == c.birth
    ensures ConnStep(s, i, c, a).value.request == c.request && ConnStep(s, i, c, a).value.answer == c.answer
  {
    match a
    case AgentBegins(r) => CheckKeepsOk(p, s, i, c, r, Begun);
    case AgentChecks(r) => CheckKeepsOk(p, s, i, c, r, Alive(c.pc.decision));
    case AgentSends(r) => CheckKeepsOk(p, s, i, c, r, Sent);
    case _ =>
  }

  lemma MoveConnKeeps(p: Setup, s: State, i: nat, a: Action)
    requires Inv(p, s) && MoveConn(s, i, a).Some?
    ensures Inv(p, MoveConn(s, i, a).value)
  {
    assert ConnOk(p, s.signed, s.auth, i, s.conns[i]);
    ConnStepKeepsOk(p, s, i, s.conns[i], a);
    ConnKeeps(p, s, i, ConnStep(s, i, s.conns[i], a).value);
  }

  /** From `s` to `t`, connection `i` entered the coordinator. */
  ghost predicate Entered(s: State, t: State, i: nat) {
    && i in s.conns && s.conns[i].pc == Begun
    && t == State(s.helpers, s.conns[i := s.conns[i].(pc := Authenticating)], t.auth, s.signed)
    && t.auth.calls.Keys == s.auth.calls.Keys + {i} && CallOf(s.conns[i], t.auth.calls[i])
    && forall j :: j in s.auth.calls ==> t.auth.calls[j] == s.auth.calls[j]
  }

  lemma AuthenticateEnters(s: State, i: nat, confirm: bool)
    requires Authenticate(s, i, confirm).Some? && Auth.Inv(s.auth)
    ensures Entered(s, Authenticate(s, i, confirm).value, i) && Auth.Inv(Authenticate(s, i, confirm).value.auth)
  {
    Auth.StepKeeps(s.auth, i, Auth.Enter(s.conns[i].request, confirm, DeadlineOf(s.conns[i])));
  }

  /** A connection minds only whether it has a call, and how that call finished. */
  lemma ConnMindsItsCall(p: Setup, signed: Signatures, auth: Auth.State, later: Auth.State, i: nat, c: Conn)
    requires ConnOk(p, signed, auth, i, c) && (i in auth.calls <==> i in later.calls)
    requires i in auth.calls && auth.calls[i].pc.Finished? ==> later.calls[i].pc == auth.calls[i].pc
    ensures ConnOk(p, signed, later, i, c)
  {
  }

  lemma EnteredConnOk(p: Setup, signed: Signatures, auth: Auth.State, later: Auth.State, i: nat, c: Conn)
    requires ConnOk(p, signed, auth, i, c) && c.pc == Begun
    ensures ConnOk(p, signed, later, i, c.(pc := Authenticating))
  {
  }

  lemma EnteredConnsOk(p: Setup, s: State, t: State, i: nat)
    requires ConnsOk(p, s.signed, s.auth, s.conns) && Entered(s, t, i)
    ensures ConnsOk(p, t.signed, t.auth, t.conns)
  {
    forall c | c in t.conns ensures ConnOk(p, t.signed, t.auth, c, t.conns[c]) {
      if c == i { EnteredConnOk(p, s.signed, s.auth, t.auth, i, s.conns[i]); }
      else { ConnMindsItsCall(p, s.signed, s.auth, t.auth, c, s.conns[c]); }
    }
  }

  lemma EnteredCallsOk(s: State, t: State, i: nat)
    requires CallsOk(s.auth, s.conns) && Entered(s, t, i)
    ensures CallsOk(t.auth, t.conns)
  {
  }

  lemma EnteredSignaturesOk(p: Setup, s: State, t: State, i: nat)
    requires SignaturesOk(p, s.signed, s.helpers, s.conns) && Entered(s, t, i)
    ensures SignaturesOk(p, t.signed, t.helpers, t.conns)
  {
    SignaturesCarryOver(p, s.signed, s.helpers, s.conns, t.helpers, t.conns);
  }

  lemma EnteredKeeps(p: Setup, s: State, t: State, i: nat)
    requires Inv(p, s) && Entered(s, t, i) && Auth.Inv(t.auth)
    ensures Inv(p, t)
  {
    EnteredConnsOk(p, s, t, i);
    EnteredCallsOk(s, t, i);
    EnteredSignaturesOk(p, s, t, i);
  }

  lemma AuthenticateKeeps(p: Setup, s: State, i: nat, confirm: bool)
    requires Inv(p, s) && Authenticate(s, i, confirm).Some?
    ensures Inv(p, Authenticate(s, i, confirm).value)
  {
    AuthenticateEnters(s, i, confirm);
    EnteredKeeps(p, s, Authenticate(s, i, confirm).value, i);
  }

  lemma MoveAuthKeepsConns(p: Setup, s: State, i: nat, a: Auth.Action)
    requires ConnsOk(p, s.signed, s.auth, s.conns) && Auth.Inv(s.auth) && MoveAuth(s, i, a).Some?
    ensures ConnsOk(p, s.signed, MoveAuth(s, i, a).value.auth, s.conns)
  {
    var auth := MoveAuth(s, i, a).value.auth;
    Auth.NoNewCalls(s.auth, i, a);
    forall c | c in s.conns ensures ConnOk(p, s.signed, auth, c, s.conns[c]) {
      if c in s.auth.calls && s.auth.calls[c].pc.Finished? { Auth.OutcomeIsFinal(s.auth, i, c, a); }
      ConnMindsItsCall(p, s.signed, s.auth, auth, c, s.conns[c]);
    }
  }

  lemma MoveAuthKeeps(p: Setup, s: State, i: nat, a: Auth.Action)
    requires Inv(p, s) && MoveAuth(s, i, a).Some?
    ensures Inv(p, MoveAuth(s, i, a).value)
  {
    MoveAuthKeepsConns(p, s, i, a);
    Auth.StepKeeps(s.auth, i, a);
    Auth.NoNewCalls(s.auth, i, a);
    var calls := Auth.Apply(s.auth, i, a).value.calls;
    forall j | j in s.auth.calls
      ensures calls[j].request == s.auth.calls[j].request && calls[j].deadline == s.auth.calls[j].deadline
    {
      Auth.RequestIsFixed(s.auth, i, j, a);
    }
  }

  lemma SignedIsOk(p: Setup, signed: Signatures, auth: Auth.State, i: nat, c: Conn, wallMs: u64)
    requires ConnOk(p, signed, auth, i, c) && c.pc.Alive?
    ensures var (next, message) := AfterSigning(p, c, wallMs);
            && ConnOk(p, signed, auth, i, next) && next.request == c.request && next.birth == c.birth && c.answer.None?
            && (message.Some? ==> next.answer.Some? && p.codec.response(next.answer.value) == message)
  {
  }

  lemma SignKeeps(p: Setup, s: State, i: nat, wallMs: u64)
    requires Inv(p, s) && Sign(p, s, i, wallMs).Some?
    ensures Inv(p, Sign(p, s, i, wallMs).value)
  {
    assert ConnOk(p, s.signed, s.auth, i, s.conns[i]);
    SignedIsOk(p, s.signed, s.auth, i, s.conns[i], wallMs);
    var (next, message) := AfterSigning(p, s.conns[i], wallMs);
    ConnKeeps(p, s, i, next);
    if message.Some? {
      SignatureKeeps(p, s.(conns := s.conns[i := next]), p.agentKey, message.value, ByConn(i));
    }
  }

  lemma SignOutsideKeeps(p: Setup, s: State, key: bytes, message: bytes)
    requires Inv(p, s) && SignOutside(p, s, key, message).Some?
    ensures Inv(p, SignOutside(p, s, key, message).value)
  {
    SignatureKeeps(p, s, key, message, ByOutsider);
  }

  lemma StepKeeps(p: Setup, s: State, i: nat, a: Action)
    requires Inv(p, s) && Apply(p, s, i, a).Some?
    ensures Inv(p, Apply(p, s, i, a).value)
  {
    if IsHelperStep(a) { MoveHelperKeeps(p, s, i, a); }
    else if IsConnStep(a) { MoveConnKeeps(p, s, i, a); }
    else {
      match a
      case HelperStarts(key, request, timeoutMs, skewMs, deadline) =>
        StartHelperKeeps(p, s, i, Helper(key, request, timeoutMs, skewMs, deadline, Awaiting, None, 0));
      case AgentAdmits(q, valid, wall, birth) => AdmitKeeps(p, s, i, q, valid, wall, birth);
      case AgentAuthenticates(confirm) => AuthenticateKeeps(p, s, i, confirm);
      case AuthStep(action) => MoveAuthKeeps(p, s, i, action);
      case AgentSigns(wall) => SignKeeps(p, s, i, wall);
      case OutsiderSigns(key, message) => SignOutsideKeeps(p, s, key, message);
      case _ =>
    }
  }

  // ---- Whole runs ----

  datatype Step = Step(who: nat, action: Action)

  function Run(p: Setup, steps: seq<Step>): Option<State> {
    if steps == [] then Some(START)
    else
      match Run(p, steps[..|steps| - 1])
      case None => None
      case Some(s) => Apply(p, s, steps[|steps| - 1].who, steps[|steps| - 1].action)
  }

  lemma {:induction false} RunKeeps(p: Setup, steps: seq<Step>)
    requires Run(p, steps).Some?
    ensures Inv(p, Run(p, steps).value)
  {
    if steps != [] {
      RunKeeps(p, steps[..|steps| - 1]);
      StepKeeps(p, Run(p, steps[..|steps| - 1]).value, steps[|steps| - 1].who, steps[|steps| - 1].action);
    }
  }

  lemma RunAppend(p: Setup, steps: seq<Step>, step: Step)
    requires Run(p, steps).Some?
    ensures Run(p, steps + [step]) == Apply(p, Run(p, steps).value, step.who, step.action)
  {
    assert (steps + [step])[..|steps|] == steps;
  }

  /** The helper exited with the code of a decision. */
  predicate Concluded(s: State, h: nat) {
    h in s.helpers && s.helpers[h].pc.Exited?
    && s.helpers[h].pc.code !in {Runs.EXIT_INTERNAL, Runs.EXIT_UNAVAILABLE, Runs.EXIT_PROTOCOL, Runs.EXIT_TAMPER}
  }

  predicate Approves(s: State, h: nat) {
    h in s.helpers && s.helpers[h].pc.Exited? && s.helpers[h].pc.code == Runs.EXIT_APPROVED
  }

  /** Connection `c` answered exactly the request of helper `h` with `decision`. */
  predicate Answered(s: State, h: nat, c: nat, decision: Decision) {
    && h in s.helpers && c in s.conns
    && s.conns[c].request == s.helpers[h].request
    && s.conns[c].judged == Some(decision) && s.conns[c].passed >= 2
    && s.conns[c].answer.Some? && s.conns[c].answer == s.helpers[h].accepted
    && s.conns[c].answer.value.decision == decision
  }

  /** The main results are about the functions the two implementations really use, with a collision-free digest. */
  ghost predicate Real(p: Setup, agentKeyId: bytes, hash: Hash) {
    p.codec == RealCodec(agentKeyId, hash) && Injective(hash)
  }

  /** Every prepared helper run can start, with the window and the deadline it prepared. */
  lemma PreparedRunsStart(p: Setup, s: State, i: nat, key: bytes, settings: Runs.Settings, env: Runs.Environment,
                          agentKeyId: bytes, hash: Hash)
    requires Real(p, agentKeyId, hash) && i !in s.helpers && Runs.Prepare(Some(settings), env).Ok?
    ensures var (request, deadline) := Runs.Prepare(Some(settings), env).value;
            Apply(p, s, i, HelperStarts(key, request, settings.timeoutMs, settings.skewMs, deadline)).Some?
  {
    Runs.PrepareWindow(Some(settings), env);
  }

  /**
   What the agent signs is bound to its own request, carries its own verdict, and is made within the life of the
   request.
   */
  lemma AnswerIsItsOwn(q: Request, d: Decision, wall: u64, agentKeyId: bytes, hash: Hash)
    requires Answer(q, d, wall, agentKeyId, hash).Some?
    ensures VerifyBinding(Answer(q, d, wall, agentKeyId, hash).value, q, hash).Pass?
    ensures Answer(q, d, wall, agentKeyId, hash).value.decision == d
    ensures wall == Answer(q, d, wall, agentKeyId, hash).value.createdAtMs < q.expiresAtMs
    ensures Answer(q, d, wall, agentKeyId, hash).value.expiresAtMs <= q.expiresAtMs
  {
    RustRequestsSurvive(q);
    SwiftAnswerIsSound(FromRustRequest(q), d, if d == Approved then SwiftBiometricOrWatch else SwiftNone, wall,
                       agentKeyId, hash);
  }

  /** A request encoding under any key is never the agent's signed answer. */
  lemma EncodingsDiffer(q: Request, r: Response, message: bytes)
    requires ToOption(EncodeRequest(q)) == Some(message)
    ensures ToOption(EncodeResponse(r)) != Some(message)
  {
    if EncodeResponse(r).Ok? { RequestsAreNotResponses(q, r); }
  }

  lemma SameAnswer(a: Response, b: Response, message: bytes)
    requires ToOption(EncodeResponse(a)) == Some(message) && ToOption(EncodeResponse(b)) == Some(message)
    ensures a == b
  {
    ResponsePrefixFree(a, b, [], []);
  }

  lemma SameRequest(a: Request, b: Request, message: bytes)
    requires ToOption(EncodeRequest(a)) == Some(message) && ToOption(EncodeRequest(b)) == Some(message)
    ensures a == b
  {
    RequestPrefixFree(a, b, [], []);
  }

  /**
   A response that verifies under the agent's key was signed by one of its connections, even if a host uses the same
   key.
   */
  lemma WhoSignedTheAnswer(p: Setup, s: State, r: Response, agentKeyId: bytes, hash: Hash) returns (c: nat)
    requires Real(p, agentKeyId, hash) && SignaturesOk(p, s.signed, s.helpers, s.conns)
             && SignedBy(s.signed, p.agentKey, p.codec.response(r))
    ensures c in s.conns && s.conns[c].answer == Some(r)
  {
    var message := p.codec.response(r).value;
    var signer := s.signed[(p.agentKey, message)];
    assert SignerOk(p, s.helpers, s.conns, p.agentKey, message, signer);
    assert signer.ByConn? by {
      if signer.ByHelper? { EncodingsDiffer(s.helpers[signer.helper].request, r, message); }
    }
    c := signer.conn;
    SameAnswer(s.conns[c].answer.value, r, message);
  }

  /**
   Every decision a helper reports was given by an agent connection for exactly that helper's request, and in time.
   */
  lemma Correspondence(p: Setup, s: State, h: nat, agentKeyId: bytes, hash: Hash) returns (c: nat)
    requires Real(p, agentKeyId, hash) && Inv(p, s) && Concluded(s, h)
    ensures s.helpers[h].accepted.Some?
            && s.helpers[h].pc.code == Runs.ExitForDecision(s.helpers[h].accepted.value.decision)
    ensures Answered(s, h, c, s.helpers[h].accepted.value.decision)
    ensures VerdictOk(s.auth, c, s.helpers[h].accepted.value.decision)
    ensures Runs.ResponseFresh(s.helpers[h].accepted.value, s.helpers[h].checkedMs, s.helpers[h].skewMs)
    ensures s.conns[c].answeredMs == s.helpers[h].accepted.value.createdAtMs < s.helpers[h].request.expiresAtMs
    ensures s.helpers[h].pc.finalInstant < s.helpers[h].deadline
    ensures s.helpers[h].pc.finalWallMs <= s.helpers[h].request.createdAtMs + s.helpers[h].timeoutMs
  {
    var helper := s.helpers[h];
    assert HelperOk(p, s.signed, helper);
    var r := helper.accepted.value;
    c := WhoSignedTheAnswer(p, s, r, agentKeyId, hash);
    var conn := s.conns[c];
    assert ConnOk(p, s.signed, s.auth, c, conn);
    assert p.codec.answer(conn.request, conn.judged.value, conn.answeredMs)
        == Answer(conn.request, conn.judged.value, conn.answeredMs, agentKeyId, hash);
    AnswerIsItsOwn(conn.request, conn.judged.value, conn.answeredMs, agentKeyId, hash);
    assert VerifyBinding(r, helper.request, hash).Pass?;
    BindingIsTotal(r, conn.request, helper.request, hash);
  }

  /** The session of a finished call reported approval first; it is cancelled, and a lifetime check saw the report. */
  predicate SessionApproved(call: Auth.Call) {
    && call.pc == Auth.Finished(Auth.Returned(Approved)) && call.session.Some?
    && var session := call.session.value;
    && session.completions != [] && session.completions[0] == Approved && session.cancelled
    && 0 < call.seen <= |session.completions|
    && call.checked.Some? && Good(call.checked.value, call.deadline, call.request.expiresAtMs)
    && (call.requireConfirmation ==> session.confirmed)
  }

  lemma ApprovedCall(call: Auth.Call)
    requires Auth.CallOk(call) && call.pc == Auth.Finished(Auth.Returned(Approved))
    ensures SessionApproved(call)
  {
    assert Auth.OutcomeOf(call) == Some(Auth.Returned(Approved));
    assert Auth.SessionOk(call, call.session.value);
  }

  /** Connection `c` of the agent gave the approval that helper `h` exited on. */
  predicate ApprovedBy(s: State, h: nat, c: nat) {
    && Answered(s, h, c, Approved)
    && c in s.auth.calls && s.auth.calls[c].request == s.helpers[h].request
    && SessionApproved(s.auth.calls[c]) && CheckedInTime(s.conns[c], s.auth.calls[c].checked.value)
    && s.conns[c].checked.Some? && CheckedInTime(s.conns[c], s.conns[c].checked.value)
  }

  /**
   A check read the wall clock before the signed expiry, and the uptime before the connection's 15 s were over and
   before the instant that the expiry meant when the lifetime was created.
   */
  predicate CheckedInTime(c: Conn, r: Reading) {
    && r.wallMs < c.request.expiresAtMs && r.peek == Quiet
    && r.uptimeNs < c.birth.acceptedNs + CONNECTION_MS * NS_PER_MS
    && r.uptimeNs < c.birth.uptimeNs + Max(0, c.request.expiresAtMs - c.birth.wallMs) * NS_PER_MS
  }

  lemma GoodIsInTime(c: Conn, r: Reading)
    requires Good(r, DeadlineOf(c), c.request.expiresAtMs)
    ensures CheckedInTime(c, r)
  {
    GoodCheckBound(c.birth.acceptedNs, c.birth.uptimeNs, c.birth.wallMs, c.request.expiresAtMs, r);
  }

  /**
   Safety over every run: if a helper exits 0 for its request, then some connection of the agent signed an approval
   of exactly that request, after a session for it had reported approval first, had been cancelled, and a lifetime
   check after that report had succeeded; and confirmation had been given if it was asked for.
   */
  lemma ApprovalImpliesSession(p: Setup, steps: seq<Step>, h: nat, agentKeyId: bytes, hash: Hash) returns (c: nat)
    requires Real(p, agentKeyId, hash) && Run(p, steps).Some? && Approves(Run(p, steps).value, h)
    ensures ApprovedBy(Run(p, steps).value, h, c)
  {
    var s := Run(p, steps).value;
    RunKeeps(p, steps);
    c := Correspondence(p, s, h, agentKeyId, hash);
    assert s.helpers[h].accepted.value.decision == Approved;
    assert CallOf(s.conns[c], s.auth.calls[c]) && Auth.CallOk(s.auth.calls[c]);
    ApprovedCall(s.auth.calls[c]);
    GoodIsInTime(s.conns[c], s.auth.calls[c].checked.value);
    assert ConnOk(p, s.signed, s.auth, c, s.conns[c]);
    GoodIsInTime(s.conns[c], s.conns[c].checked.value);
  }

  /** Two helpers that report a decision on the same answer made the same request. */
  lemma OneRequestPerAnswer(p: Setup, steps: seq<Step>, h1: nat, h2: nat, agentKeyId: bytes, hash: Hash)
    requires Real(p, agentKeyId, hash) && Run(p, steps).Some?
    requires var s := Run(p, steps).value;
             Concluded(s, h1) && Concluded(s, h2) && s.helpers[h1].accepted == s.helpers[h2].accepted
    ensures Run(p, steps).value.helpers[h1].request == Run(p, steps).value.helpers[h2].request
  {
    var s := Run(p, steps).value;
    RunKeeps(p, steps);
    assert HelperOk(p, s.signed, s.helpers[h1]) && HelperOk(p, s.signed, s.helpers[h2]);
    BindingIsTotal(s.helpers[h1].accepted.value, s.helpers[h1].request, s.helpers[h2].request, hash);
  }

  /**
   Different requests, different approvals: two runs that exit 0 with different nonces were approved on different
   connections.
   */
  lemma ApprovalsAreInjective(p: Setup, steps: seq<Step>, h1: nat, h2: nat, agentKeyId: bytes, hash: Hash)
        returns (c1: nat, c2: nat)
    requires Real(p, agentKeyId, hash) && Run(p, steps).Some?
    requires Approves(Run(p, steps).value, h1) && Approves(Run(p, steps).value, h2)
    requires Run(p, steps).value.helpers[h1].request.nonce != Run(p, steps).value.helpers[h2].request.nonce
    ensures ApprovedBy(Run(p, steps).value, h1, c1) && ApprovedBy(Run(p, steps).value, h2, c2)
    ensures c1 != c2
  {
    c1 := ApprovalImpliesSession(p, steps, h1, agentKeyId, hash);
    c2 := ApprovalImpliesSession(p, steps, h2, agentKeyId, hash);
  }

  /**
   A request that verified under an allowed key, in a run of the real protocol, was made by a helper that holds that
   key.
   */
  lemma WhoMadeTheRequest(p: Setup, s: State, q: Request, agentKeyId: bytes, hash: Hash) returns (h: nat)
    requires Real(p, agentKeyId, hash) && SignaturesOk(p, s.signed, s.helpers, s.conns)
    requires VerifierKey(p, q.hostId).Some? && SignedBy(s.signed, VerifierKey(p, q.hostId).value, p.codec.request(q))
    ensures h in s.helpers && s.helpers[h].request == q && Some(s.helpers[h].key) == VerifierKey(p, q.hostId)
  {
    var key, message := VerifierKey(p, q.hostId).value, p.codec.request(q).value;
    assert Honest(p, key);
    var signer := s.signed[(key, message)];
    assert SignerOk(p, s.helpers, s.conns, key, message, signer);
    assert signer.ByHelper? by {
      if signer.ByConn? { EncodingsDiffer(q, s.conns[signer.conn].answer.value, message); }
    }
    h := signer.helper;
    SameRequest(s.helpers[h].request, q, message);
  }

  /** What is known of any connection, by the invariant alone. */
  lemma ConnIsSigned(p: Setup, s: State, c: nat)
    requires Inv(p, s) && c in s.conns
    ensures VerifierKey(p, s.conns[c].request.hostId).Some?
    ensures SignedBy(s.signed, VerifierKey(p, s.conns[c].request.hostId).value, p.codec.request(s.conns[c].request))
    ensures s.conns[c].admittedMs < s.conns[c].request.expiresAtMs
    ensures c in s.auth.calls ==> s.conns[c].passed >= 1
    ensures s.conns[c].passed >= 1 ==> s.conns[c].checked.Some? && CheckedInTime(s.conns[c], s.conns[c].checked.value)
  {
    assert ConnOk(p, s.signed, s.auth, c, s.conns[c]);
    if s.conns[c].passed >= 1 { GoodIsInTime(s.conns[c], s.conns[c].checked.value); }
  }

  /**
   The other direction: every connection the agent admits, whatever the transport delivered, serves a request that a
   helper holding that host's key made, and admits it before its expiry.
   */
  lemma ConnectionsAreRequested(p: Setup, steps: seq<Step>, c: nat, agentKeyId: bytes, hash: Hash) returns (h: nat)
    requires Real(p, agentKeyId, hash) && Run(p, steps).Some? && c in Run(p, steps).value.conns
    ensures var s := Run(p, steps).value;
            && h in s.helpers && s.helpers[h].request == s.conns[c].request
            && Some(s.helpers[h].key) == VerifierKey(p, s.conns[c].request.hostId)
            && s.conns[c].admittedMs < s.conns[c].request.expiresAtMs
  {
    var s := Run(p, steps).value;
    RunKeeps(p, steps);
    ConnIsSigned(p, s, c);
    h := WhoMadeTheRequest(p, s, s.conns[c].request, agentKeyId, hash);
  }

  /**
   So a session exists only for a request that such a helper made and that was still in time at a check after its
   admission.
   */
  lemma SessionsAreRequested(p: Setup, steps: seq<Step>, c: nat, agentKeyId: bytes, hash: Hash) returns (h: nat)
    requires Real(p, agentKeyId, hash) && Run(p, steps).Some? && c in Run(p, steps).value.auth.calls
    ensures var s := Run(p, steps).value;
            && h in s.helpers && s.helpers[h].request == s.auth.calls[c].request
            && Some(s.helpers[h].key) == VerifierKey(p, s.helpers[h].request.hostId)
            && c in s.conns && s.conns[c].request == s.helpers[h].request
            && s.conns[c].admittedMs < s.helpers[h].request.expiresAtMs
            && s.conns[c].checked.Some? && CheckedInTime(s.conns[c], s.conns[c].checked.value)
  {
    var s := Run(p, steps).value;
    RunKeeps(p, steps);
    assert c in s.conns && CallOf(s.conns[c], s.auth.calls[c]);
    ConnIsSigned(p, s, c);
    h := ConnectionsAreRequested(p, steps, c, agentKeyId, hash);
  }
}
