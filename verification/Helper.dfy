/** One run of `macos-auth-helper request` (crates/helper/src/main.rs), from the wall-clock reading to the exit code. */
module HelperRuns {
  import opened Bytes
  import opened Messages
  import opened Binding
  import opened Timing
  import opened MarkerTexts
  import opened Sockets
  import opened Frames
  import opened Loops
  import opened RustTransport

  const EXIT_APPROVED := 0
  const EXIT_INTERNAL := 1
  const EXIT_UNAVAILABLE := 10
  const EXIT_CANCELLED := 11
  const EXIT_FAILED := 12
  const EXIT_DENIED := 20
  const EXIT_TAMPER := 30
  const EXIT_UNSAFE_CONFIG := 31
  const EXIT_PROTOCOL := 32

  datatype SignedResponse = SignedResponse(body: Response, signature: bytes)

  /** Library functions the run goes through. */
  datatype Library = Library(
    hash: Hash,
    valid: SignatureCheck,
    sign: bytes -> bytes,
    toJson: (Request, bytes) -> bytes,
    fromJson: bytes -> Option<SignedResponse>)

  /** Everything decided before the clock is read: arguments over configuration over defaults. */
  datatype Settings = Settings(
    timeoutMs: u64, skewMs: u64, agentKey: bytes, keyId: bytes,
    hostId: bytes, hostname: bytes, service: bytes, user: bytes,
    ruser: Option<bytes>, rhost: Option<bytes>, tty: Option<bytes>, sudoCommand: Option<bytes>, pid: u32, nonce: bytes)

  /** Wall-clock readings (absent when the clock cannot be read) and the verdict of the replay cache. */
  datatype Environment = Environment(
    startWallMs: Option<u64>, startInstant: nat, maxSeconds: nat,
    checkWallMs: Option<u64>, replay: Option<bool>, finalWallMs: Option<u64>)

  /** Where a run ended. */
  datatype Stage =
    | UnsafeConfig
    | InternalError
    | Unreachable
    | WriteFailed(writeError: TransportError)
    | ReadFailed(readError: TransportError)
    | Rejected(reason: ProtocolError)
    | TooLate
    | StaleResponse
    | ReplayRefused
    | Decided(decision: Decision)
    | Running

  function TransportExit(e: TransportError): int { if e == Timeout then EXIT_UNAVAILABLE else EXIT_PROTOCOL }

  function ExitForDecision(d: Decision): int {
    match d
    case Approved => EXIT_APPROVED
    case Denied => EXIT_DENIED
    case Unavailable => EXIT_UNAVAILABLE
    case Cancelled => EXIT_CANCELLED
    case Failed => EXIT_FAILED
  }

  /** The exit code, once the run has ended. */
  function ExitCode(s: Stage): Option<int> {
    match s
    case UnsafeConfig => Some(EXIT_UNSAFE_CONFIG)
    case InternalError => Some(EXIT_INTERNAL)
    case Unreachable => Some(EXIT_UNAVAILABLE)
    case WriteFailed(e) => Some(TransportExit(e))
    case ReadFailed(e) => Some(TransportExit(e))
    case Rejected(_) => Some(EXIT_TAMPER)
    case TooLate => Some(EXIT_UNAVAILABLE)
    case StaleResponse => Some(EXIT_TAMPER)
    case ReplayRefused => Some(EXIT_TAMPER)
    case Decided(d) => Some(ExitForDecision(d))
    case Running => None
  }

  // ---- Budget ----

  datatype Budget = Budget(deadline: nat, expiresAtMs: u64)

  const NS_PER_SECOND: nat := 1_000_000_000
  const MS_PER_SECOND: nat := 1000

  /**
   `Instant::checked_add` of a number of milliseconds. An instant is kept in whole seconds, of which there are
   `maxSeconds` at most, and nanoseconds below a second; a duration likewise; the nanoseconds carry.
   */
  function CheckedAdd(instant: nat, milliseconds: u64, maxSeconds: nat): Option<nat> {
    var seconds := instant / NS_PER_SECOND + milliseconds / MS_PER_SECOND;
    var nanoseconds := instant % NS_PER_SECOND + milliseconds % MS_PER_SECOND * NS_PER_MS;
    var carry := if nanoseconds >= NS_PER_SECOND then 1 else 0;
    if seconds > maxSeconds || seconds + carry > maxSeconds then None
    else Some((seconds + carry) * NS_PER_SECOND + (nanoseconds - carry * NS_PER_SECOND))
  }

  function OperationBudget(timeoutMs: u64, nowMs: u64, instant: nat, maxSeconds: nat): Option<Budget> {
    var (expiry, overflow) := WrappingAdd(nowMs, timeoutMs);
    var deadline := CheckedAdd(instant, timeoutMs, maxSeconds);
    if timeoutMs == 0 || overflow || deadline.None? then None else Some(Budget(deadline.value, expiry))
  }

  lemma MillisecondsInNanoseconds(milliseconds: u64)
    ensures milliseconds * NS_PER_MS
            == milliseconds / MS_PER_SECOND * NS_PER_SECOND + milliseconds % MS_PER_SECOND * NS_PER_MS
    ensures milliseconds % MS_PER_SECOND * NS_PER_MS < NS_PER_SECOND
  {
    assert milliseconds == milliseconds / MS_PER_SECOND * MS_PER_SECOND + milliseconds % MS_PER_SECOND;
  }

  /**
   With the carry, the sum is the ideal one; it is refused exactly from the first nanosecond that cannot be
   represented.
   */
  lemma CheckedAddIsIdeal(instant: nat, milliseconds: u64, maxSeconds: nat)
    ensures CheckedAdd(instant, milliseconds, maxSeconds) ==
            if instant + milliseconds * NS_PER_MS >= (maxSeconds + 1) * NS_PER_SECOND then None
            else Some(instant + milliseconds * NS_PER_MS)
  {
    MillisecondsInNanoseconds(milliseconds);
    assert instant == instant / NS_PER_SECOND * NS_PER_SECOND + instant % NS_PER_SECOND;
    var seconds := instant / NS_PER_SECOND + milliseconds / MS_PER_SECOND;
    var nanoseconds := instant % NS_PER_SECOND + milliseconds % MS_PER_SECOND * NS_PER_MS;
    assert instant + milliseconds * NS_PER_MS == seconds * NS_PER_SECOND + nanoseconds;
  }

  /**
   A budget is refused exactly for a zero timeout or an end beyond what either clock can represent; both ends it
   gives are the same distance away, on a wall clock in milliseconds and a monotonic one in nanoseconds.
   */
  lemma BudgetRefusesExactly(timeoutMs: u64, nowMs: u64, instant: nat, maxSeconds: nat)
    ensures var b := OperationBudget(timeoutMs, nowMs, instant, maxSeconds);
            && (b.None? <==> timeoutMs == 0 || nowMs + timeoutMs > U64_MAX
                             || instant + timeoutMs * NS_PER_MS >= (maxSeconds + 1) * NS_PER_SECOND)
            && (b.Some? ==> b.value.deadline - instant == (b.value.expiresAtMs - nowMs) * NS_PER_MS > 0)
            && (b.Some? ==> b.value.expiresAtMs == nowMs + timeoutMs)
  {
    CheckedAddIsIdeal(instant, timeoutMs, maxSeconds);
  }

  // ---- The request ----

  predicate Blank(s: bytes) { TrimStart(s) == [] }

  function RequestId(nowMs: u64, pid: u32): bytes {
    Ascii("req-") + Decimal(nowMs) + Ascii("-") + Decimal(pid)
  }

  function BuildRequest(s: Settings, nowMs: u64, expiresAtMs: u64): Request {
    Request(PROTOCOL_VERSION, RequestId(nowMs, s.pid), s.nonce, nowMs, expiresAtMs,
            s.hostId, s.hostname, s.service, s.user,
            s.ruser, s.rhost, s.tty, s.sudoCommand, Some(s.pid), s.keyId, Ed25519)
  }

  /** Budget, identity fields and encodability; the request and its deadline, or the stage at which the run ends. */
  function Prepare(settings: Option<Settings>, env: Environment): Result<(Request, nat), Stage> {
    if settings.None? then Err(UnsafeConfig)
    else if env.startWallMs.None? then Err(InternalError)
    else
      var s := settings.value;
      var budget := OperationBudget(s.timeoutMs, env.startWallMs.value, env.startInstant, env.maxSeconds);
      if budget.None? then Err(UnsafeConfig)
      else if Blank(s.keyId) || Blank(s.hostId) || Blank(s.hostname) || Blank(s.service)
          || Blank(s.user) then Err(UnsafeConfig)
      else
        var request := BuildRequest(s, env.startWallMs.value, budget.value.expiresAtMs);
        if EncodeRequest(request).Err? then Err(InternalError) else Ok((request, budget.value.deadline))
  }

  /**
   What a prepared run has to go by: a valid request whose window is exactly the timeout, measured alike on both
   clocks.
   */
  lemma PrepareWindow(settings: Option<Settings>, env: Environment)
    requires Prepare(settings, env).Ok?
    ensures var (request, deadline) := Prepare(settings, env).value;
            && EncodeRequest(request).Ok?
            && request.createdAtMs == env.startWallMs.value
            && request.expiresAtMs == request.createdAtMs + settings.value.timeoutMs
            && deadline == env.startInstant + settings.value.timeoutMs * NS_PER_MS
            && request.nonce == settings.value.nonce && |request.nonce| == NONCE_LEN
  {
    var t := settings.value.timeoutMs;
    BudgetRefusesExactly(t, env.startWallMs.value, env.startInstant, env.maxSeconds);
  }

  function RequestFresh(q: Request, nowMs: u64, skewMs: u64): bool {
    Fresh(q.createdAtMs, q.expiresAtMs, nowMs, skewMs).Pass?
  }

  function ResponseFresh(p: Response, nowMs: u64, skewMs: u64): bool {
    Fresh(p.createdAtMs, p.expiresAtMs, nowMs, skewMs).Pass?
  }

  // ---- Talking to the agent ----

  type Decoder = bytes -> Option<SignedResponse>

  /** Connect, write one frame, read one frame, decode it. */
  function ExchangeRun(w: Wire, deadline: nat, payload: bytes, fromJson: Decoder):
        (Wire, Result<SignedResponse, Stage>) {
    var (connected, c) := ConnectRun(w, deadline);
    if c.Pending? then (connected, Err(Running))
    else if c.Failure? then (connected, Err(Unreachable))
    else
      var (written, o) := FrameOut(connected, payload, deadline);
      if o.Pending? then (written, Err(Running))
      else if o.Failure? then (written, Err(WriteFailed(o.error)))
      else
        var (last, i) := FrameIn(written, deadline);
        if i.Pending? then (last, Err(Running))
        else if i.Failure? then (last, Err(ReadFailed(i.error)))
        else if fromJson(i.value).None? then (last, Err(ReadFailed(Json)))
        else (last, Ok(fromJson(i.value).value))
  }

  method Exchange(stream: DeadlineStream, payload: bytes, fromJson: Decoder) returns (r: Result<SignedResponse, Stage>)
    modifies stream.socket`at, stream.socket`lastClock, stream.socket`incoming, stream.socket`outgoing
    ensures (stream.socket.State(), r) == ExchangeRun(old(stream.socket.State()), stream.deadline, payload, fromJson)
  {
    var connected := stream.Connect();
    if connected.Pending? { return Err(Running); }
    if connected.Failure? { return Err(Unreachable); }
    var written := stream.WriteFrame(payload);
    if written.Pending? { return Err(Running); }
    if written.Failure? { return Err(WriteFailed(written.error)); }
    var answer := stream.ReadFrame();
    if answer.Pending? { return Err(Running); }
    if answer.Failure? { return Err(ReadFailed(answer.error)); }
    var decoded := fromJson(answer.value);
    if decoded.None? { return Err(ReadFailed(Json)); }
    return Ok(decoded.value);
  }

  /** Both frames that went through. */
  lemma FramesExchanged(w: Wire, connected: Wire, written: Wire, last: Wire, payload: bytes, answer: bytes,
                        fromJson: Decoder)
    requires |payload| <= MAX_FRAME_LEN && |answer| <= MAX_FRAME_LEN && Took(w, connected, []) && Gave(w, connected, [])
    requires Gave(connected, written, Frame(payload)) && Took(written, last, Frame(answer))
    ensures Exchanged(w, last, payload, fromJson, fromJson(answer))
  {
    assert [] + connected.incoming == connected.incoming && w.outgoing + [] == w.outgoing;
  }

  /** An answer, or a frame that does not decode, means one whole frame out and one in. */
  lemma ExchangeCompletes(w: Wire, deadline: nat, payload: bytes, fromJson: Decoder)
    ensures var (later, r) := ExchangeRun(w, deadline, payload, fromJson);
            && (r.Ok? ==> Exchanged(w, later, payload, fromJson, Some(r.value)) && later.lastClock < deadline)
            && (r == Err(ReadFailed(Json)) ==> Exchanged(w, later, payload, fromJson, None))
  {
    ConnectSettles(w, deadline);
    var connected := ConnectRun(w, deadline).0;
    FrameOutGives(connected, payload, deadline);
    var (written, sent) := FrameOut(connected, payload, deadline);
    FrameInTakes(written, deadline);
    var (last, got) := FrameIn(written, deadline);
    if sent.Done? && got.Done? { FramesExchanged(w, connected, written, last, payload, got.value, fromJson); }
  }

  /**
   Transport trouble is a timeout exactly if the clock read last had reached the deadline; only the end of the script
   leaves it open.
   */
  lemma ExchangeFails(w: Wire, deadline: nat, payload: bytes, fromJson: Decoder)
    ensures var (later, r) := ExchangeRun(w, deadline, payload, fromJson);
            r.Err? ==> TransportStage(later, r.error, deadline)
  {
    ConnectSettles(w, deadline);
    var connected := ConnectRun(w, deadline).0;
    FrameOutGives(connected, payload, deadline);
    FrameInTakes(FrameOut(connected, payload, deadline).0, deadline);
  }

  predicate TransportStage(later: Wire, stage: Stage, deadline: nat) {
    match stage
    case Running => Over(later)
    case Unreachable => true
    case WriteFailed(e) => e.Oversized? || (e.Timeout? <==> later.lastClock >= deadline)
    case ReadFailed(e) => e.Oversized? || e.Json? || (e.Timeout? <==> later.lastClock >= deadline)
    case _ => false
  }

  /** One frame holding `payload` went out, and one came in that decodes as `decoded`. */
  ghost predicate Exchanged(w: Wire, later: Wire, payload: bytes, fromJson: Decoder, decoded: Option<SignedResponse>) {
    && later.script == w.script && later.at >= w.at
    && |payload| <= MAX_FRAME_LEN && later.outgoing == w.outgoing + Frame(payload)
    && exists answer: bytes :: |answer| <= MAX_FRAME_LEN && fromJson(answer) == decoded
        && w.incoming == Frame(answer) + later.incoming
  }

  // ---- Judging the answer ----

  /** The decision was the answer's, the answer was signed for the request, and both clocks said in time, twice. */
  predicate DulyDecided(stage: Stage, answer: SignedResponse, request: Request, deadline: nat, first: nat, last: nat,
                        s: Settings, env: Environment, lib: Library) {
    && stage == Decided(answer.body.decision)
    && VerifyForRequest(answer.body, answer.signature, request, s.agentKey, lib.hash, lib.valid).Pass?
    && first < deadline && last < deadline
    && env.checkWallMs.Some? && RequestFresh(request, env.checkWallMs.value, s.skewMs)
    && ResponseFresh(answer.body, env.checkWallMs.value, s.skewMs)
    && env.replay != Some(false)
    && env.finalWallMs.Some? && RequestFresh(request, env.finalWallMs.value, s.skewMs)
  }

  /** The second half of judging: replay cache, and both clocks once more. */
  function FinishRun(w: Wire, deadline: nat, request: Request, answer: SignedResponse, s: Settings, env: Environment):
        (Wire, Stage) {
    if env.replay == Some(false) then (w, ReplayRefused)
    else if Over(w) then (w, Running)
    else
      var last := ReadClock(w);
      if last.lastClock >= deadline then (last, TooLate)
      else if env.finalWallMs.None? then (last, InternalError)
      else if !RequestFresh(request, env.finalWallMs.value, s.skewMs) then (last, TooLate)
      else (last, Decided(answer.body.decision))
  }

  /** From a decoded answer to the end of the run. Signature and binding come first; no clock is asked before. */
  function JudgeRun(w: Wire, deadline: nat, request: Request, answer: SignedResponse, s: Settings, env: Environment,
                    lib: Library): (Wire, Stage) {
    var verdict := VerifyForRequest(answer.body, answer.signature, request, s.agentKey, lib.hash, lib.valid);
    if verdict.Fail? then (w, Rejected(verdict.error))
    else if env.checkWallMs.None? then (w, InternalError)
    else if Over(w) then (w, Running)
    else
      var first := ReadClock(w);
      if first.lastClock >= deadline || !RequestFresh(request, env.checkWallMs.value, s.skewMs) then (first, TooLate)
      else if !ResponseFresh(answer.body, env.checkWallMs.value, s.skewMs) then (first, StaleResponse)
      else FinishRun(first, deadline, request, answer, s, env)
  }

  method Judge(socket: Socket, deadline: nat, request: Request, answer: SignedResponse, s: Settings, env: Environment,
               lib: Library)
      returns (stage: Stage)
    modifies socket`at, socket`lastClock
    ensures (socket.State(), stage) == JudgeRun(old(socket.State()), deadline, request, answer, s, env, lib)
  {
    var verdict := VerifyForRequest(answer.body, answer.signature, request, s.agentKey, lib.hash, lib.valid);
    if verdict.Fail? { return Rejected(verdict.error); }
    if env.checkWallMs.None? { return InternalError; }
    var now := env.checkWallMs.value;
    var first := socket.Clock();
    if first.None? { return Running; }
    if first.value >= deadline || !RequestFresh(request, now, s.skewMs) { return TooLate; }
    if !ResponseFresh(answer.body, now, s.skewMs) { return StaleResponse; }
    if env.replay == Some(false) { return ReplayRefused; }
    var last := socket.Clock();
    if last.None? { return Running; }
    if last.value >= deadline { return TooLate; }
    if env.finalWallMs.None? { return InternalError; }
    if !RequestFresh(request, env.finalWallMs.value, s.skewMs) { return TooLate; }
    return Decided(answer.body.decision);
  }

  /**
   A run that can read its two clocks ends; it rejects exactly on a failing verdict, and decides exactly if all is in
   order.
   */
  lemma JudgeIsExact(w: Wire, deadline: nat, request: Request, answer: SignedResponse, s: Settings, env: Environment,
                     lib: Library)
    ensures var (later, stage) := JudgeRun(w, deadline, request, answer, s, env, lib);
            var verdict := VerifyForRequest(answer.body, answer.signature, request, s.agentKey, lib.hash, lib.valid);
            && (stage.Running? ==> Over(later))
            && (stage.Rejected? <==> verdict.Fail?)
            && (|w.script| >= w.at + 2 ==> !stage.Running?)
            && (stage.Decided? <==>
                  && |w.script| >= w.at + 2
                  && DulyDecided(Decided(answer.body.decision), answer, request, deadline, w.script[w.at].now,
                                 w.script[w.at + 1].now, s, env, lib))
            && (stage.Decided? ==>
                  && stage.decision == answer.body.decision
                  && later == w.(at := w.at + 2, lastClock := w.script[w.at + 1].now))
            && (stage == StaleResponse ==>
                  env.checkWallMs.Some? && !ResponseFresh(answer.body, env.checkWallMs.value, s.skewMs))
            && (stage == ReplayRefused ==> env.replay == Some(false))
            && (stage == TooLate ==>
                  || later.lastClock >= deadline
                  || (env.checkWallMs.Some? && !RequestFresh(request, env.checkWallMs.value, s.skewMs))
                  || (env.finalWallMs.Some? && !RequestFresh(request, env.finalWallMs.value, s.skewMs)))
  {
  }

  // ---- The whole run ----

  /** `received` is the answer, if one was fully received and decoded. */
  datatype Ended = Ended(wire: Wire, stage: Stage, received: Option<SignedResponse>)

  function RequestRun(settings: Option<Settings>, env: Environment, lib: Library, w: Wire): Ended {
    match Prepare(settings, env)
    case Err(stage) => Ended(w, stage, None)
    case Ok((request, deadline)) =>
      var payload := lib.toJson(request, lib.sign(EncodeRequestOrNothing(request)));
      var (exchanged, answer) := ExchangeRun(w, deadline, payload, lib.fromJson);
      match answer
      case Err(stage) => Ended(exchanged, stage, None)
      case Ok(received) =>
        var (judged, stage) := JudgeRun(exchanged, deadline, request, received, settings.value, env, lib);
        Ended(judged, stage, Some(received))
  }

  /** The signed bytes; a prepared request always has them. */
  function EncodeRequestOrNothing(q: Request): bytes {
    match EncodeRequest(q)
    case Ok(encoded) => encoded
    case Err(_) => []
  }

  method RunRequest(settings: Option<Settings>, env: Environment, lib: Library, socket: Socket)
      returns (stage: Stage, received: Option<SignedResponse>)
    modifies socket`at, socket`lastClock, socket`incoming, socket`outgoing
    ensures Ended(socket.State(), stage, received) == RequestRun(settings, env, lib, old(socket.State()))
  {
    var prepared := Prepare(settings, env);
    if prepared.Err? { return prepared.error, None; }
    var (request, deadline) := prepared.value;
    PrepareWindow(settings, env);
    var signature := lib.sign(EncodeRequest(request).value);
    var stream := new DeadlineStream(socket, deadline);
    var answer := Exchange(stream, lib.toJson(request, signature), lib.fromJson);
    if answer.Err? { return answer.error, None; }
    stage := Judge(socket, deadline, request, answer.value, settings.value, env, lib);
    received := Some(answer.value);
  }

  /** The verdict on an answer, as this run sees it. */
  function Verdict(settings: Option<Settings>, env: Environment, lib: Library,
                   answer: SignedResponse): Outcome<ProtocolError>
    requires Prepare(settings, env).Ok?
  {
    VerifyForRequest(answer.body, answer.signature, Prepare(settings, env).value.0, settings.value.agentKey, lib.hash,
                     lib.valid)
  }

  function Payload(settings: Option<Settings>, env: Environment, lib: Library): bytes
    requires Prepare(settings, env).Ok?
  {
    var request := Prepare(settings, env).value.0;
    lib.toJson(request, lib.sign(EncodeRequestOrNothing(request)))
  }

  /**
   A run that was not prepared touches nothing; one without an answer ends in transport trouble, or is still running.
   */
  lemma RunWithoutAnswer(settings: Option<Settings>, env: Environment, lib: Library, w: Wire)
    ensures var e := RequestRun(settings, env, lib, w);
            && (Prepare(settings, env).Err? ==> e == Ended(w, Prepare(settings, env).error, None))
            && (Prepare(settings, env).Ok? && e.received.None? ==>
                  TransportStage(e.wire, e.stage, Prepare(settings, env).value.1))
  {
    if Prepare(settings, env).Ok? {
      ExchangeFails(w, Prepare(settings, env).value.1, Payload(settings, env, lib), lib.fromJson);
    }
  }

  /** What a run with an answer comes from: an exchange that gave it, and a judgement of it. */
  lemma RunIsJudged(settings: Option<Settings>, env: Environment, lib: Library, w: Wire) returns (exchanged: Wire)
    requires RequestRun(settings, env, lib, w).received.Some?
    ensures Prepare(settings, env).Ok?
    ensures var e, (request, deadline) := RequestRun(settings, env, lib, w), Prepare(settings, env).value;
            && ExchangeRun(w, deadline, Payload(settings, env, lib), lib.fromJson) == (exchanged, Ok(e.received.value))
            && JudgeRun(exchanged, deadline, request, e.received.value, settings.value, env, lib) == (e.wire, e.stage)
  {
    exchanged := ExchangeRun(w, Prepare(settings, env).value.1, Payload(settings, env, lib), lib.fromJson).0;
  }

  lemma FinishingIsIdle(w: Wire, deadline: nat, request: Request, answer: SignedResponse, s: Settings, env: Environment)
    ensures var later := FinishRun(w, deadline, request, answer, s, env).0; Took(w, later, []) && Gave(w, later, [])
  {
  }

  lemma JudgingIsIdle(w: Wire, deadline: nat, request: Request, answer: SignedResponse, s: Settings, env: Environment,
                      lib: Library)
    ensures var later := JudgeRun(w, deadline, request, answer, s, env, lib).0;
            Took(w, later, []) && Gave(w, later, [])
  {
    if !Over(w) { FinishingIsIdle(ReadClock(w), deadline, request, answer, s, env); }
  }

  /** An answer was one frame, after one frame with the request. */
  lemma RunExchanges(settings: Option<Settings>, env: Environment, lib: Library, w: Wire)
    requires RequestRun(settings, env, lib, w).received.Some?
    ensures Prepare(settings, env).Ok?
    ensures var e := RequestRun(settings, env, lib, w);
            Exchanged(w, e.wire, Payload(settings, env, lib), lib.fromJson, e.received)
  {
    var exchanged := RunIsJudged(settings, env, lib, w);
    var (request, deadline) := Prepare(settings, env).value;
    ExchangeCompletes(w, deadline, Payload(settings, env, lib), lib.fromJson);
    JudgingIsIdle(exchanged, deadline, request, RequestRun(settings, env, lib, w).received.value, settings.value, env,
                  lib);
  }

  /**
   A decodable answer that is not signed for this request is tampering, whatever it says and however late it is.
   A decision is only ever reported on a verified answer, before the one deadline, no later than created plus
   timeout. Only the end of the script leaves a run open.
   */
  lemma RunWithAnswer(settings: Option<Settings>, env: Environment, lib: Library, w: Wire)
    requires RequestRun(settings, env, lib, w).received.Some?
    ensures Prepare(settings, env).Ok?
    ensures var e, (request, deadline) := RequestRun(settings, env, lib, w), Prepare(settings, env).value;
            && (e.stage.Running? ==> Over(e.wire))
            && (e.stage.Rejected? <==> Verdict(settings, env, lib, e.received.value).Fail?)
            && (e.stage.Decided? ==>
                  && e.wire.script == w.script && w.at + 2 <= e.wire.at <= |w.script|
                  && DulyDecided(e.stage, e.received.value, request, deadline, w.script[e.wire.at - 2].now,
                                 w.script[e.wire.at - 1].now, settings.value, env, lib)
                  && deadline == env.startInstant + settings.value.timeoutMs * NS_PER_MS
                  && env.finalWallMs.value <= request.createdAtMs + settings.value.timeoutMs)
  {
    var exchanged := RunIsJudged(settings, env, lib, w);
    var (request, deadline) := Prepare(settings, env).value;
    PrepareWindow(settings, env);
    ExchangeCompletes(w, deadline, Payload(settings, env, lib), lib.fromJson);
    JudgeIsExact(exchanged, deadline, request, RequestRun(settings, env, lib, w).received.value, settings.value, env,
                 lib);
  }

  // ---- Runs on which things get through ----

  /**
   The agent's side holds a frame with `answer`, and after any delays the kernel lets enough through, before the
   deadline: connecting, one frame out, one frame in and two clock readings.
   */
  predicate Delivered(settings: Option<Settings>, env: Environment, lib: Library, w: Wire, answer: bytes, rest: bytes,
                      k: nat) {
    && Prepare(settings, env).Ok? && |Payload(settings, env, lib)| <= MAX_FRAME_LEN && |answer| <= MAX_FRAME_LEN
    && w.incoming == Frame(answer) + rest
    && InFlow(w, RustFlow(Prepare(settings, env).value.1, k))
    && Left(w, RustFlow(Prepare(settings, env).value.1, k))
       >= 6 + 2 * |Frame(Payload(settings, env, lib))| + 2 * |Frame(answer)|
  }

  lemma ExchangeSucceeds(w: Wire, deadline: nat, payload: bytes, fromJson: Decoder, answer: bytes, rest: bytes, k: nat)
    requires |payload| <= MAX_FRAME_LEN && |answer| <= MAX_FRAME_LEN && w.incoming == Frame(answer) + rest
    requires InFlow(w, RustFlow(deadline, k))
    requires Left(w, RustFlow(deadline, k)) >= 6 + 2 * |Frame(payload)| + 2 * |Frame(answer)|
    ensures var (later, r) := ExchangeRun(w, deadline, payload, fromJson);
            && InFlow(later, RustFlow(deadline, k)) && Left(later, RustFlow(deadline, k)) >= 2
            && r == match fromJson(answer) { case None => Err(ReadFailed(Json)) case Some(decoded) => Ok(decoded) }
  {
    ConnectSettles(w, deadline);
    ConnectSucceeds(w, deadline, k);
    var connected := ConnectRun(w, deadline).0;
    FrameOutGives(connected, payload, deadline);
    FrameOutSucceeds(connected, payload, deadline, k);
    FrameInSucceeds(FrameOut(connected, payload, deadline).0, answer, rest, deadline, k);
  }

  /** A delivered answer that decodes is judged, with two clock readings in time still to come. */
  lemma DeliveredIsJudged(settings: Option<Settings>, env: Environment, lib: Library, w: Wire, answer: bytes,
                          rest: bytes, k: nat) returns (exchanged: Wire)
    requires Delivered(settings, env, lib, w, answer, rest, k) && lib.fromJson(answer).Some?
    ensures var (request, deadline) := Prepare(settings, env).value;
            var (judged, stage) := JudgeRun(exchanged, deadline, request, lib.fromJson(answer).value, settings.value,
                                            env, lib);
            && RequestRun(settings, env, lib, w) == Ended(judged, stage, lib.fromJson(answer))
            && |exchanged.script| >= exchanged.at + 2
            && exchanged.script[exchanged.at].now < deadline && exchanged.script[exchanged.at + 1].now < deadline
  {
    var (request, deadline) := Prepare(settings, env).value;
    ExchangeSucceeds(w, deadline, Payload(settings, env, lib), lib.fromJson, answer, rest, k);
    exchanged := ExchangeRun(w, deadline, Payload(settings, env, lib), lib.fromJson).0;
    assert Calm(exchanged.script[exchanged.at], deadline, true);
    assert Calm(exchanged.script[exchanged.at + 1], deadline, true);
  }

  /** On a failing verdict a delivered, decodable answer exits 30, whatever it says. */
  lemma BadAnswerExits30(settings: Option<Settings>, env: Environment, lib: Library, w: Wire, answer: bytes,
                         rest: bytes, k: nat)
    requires Delivered(settings, env, lib, w, answer, rest, k) && lib.fromJson(answer).Some?
    requires Verdict(settings, env, lib, lib.fromJson(answer).value).Fail?
    ensures var e := RequestRun(settings, env, lib, w);
            e.received == lib.fromJson(answer) && e.stage.Rejected? && ExitCode(e.stage) == Some(EXIT_TAMPER)
  {
    var exchanged := DeliveredIsJudged(settings, env, lib, w, answer, rest, k);
  }

  /**
   On a passing verdict the run ends, with the decision exactly if wall clocks, answer freshness and replay cache
   agree.
   */
  lemma GoodAnswerDecides(settings: Option<Settings>, env: Environment, lib: Library, w: Wire, answer: bytes,
                          rest: bytes, k: nat)
    requires Delivered(settings, env, lib, w, answer, rest, k) && lib.fromJson(answer).Some?
    requires Verdict(settings, env, lib, lib.fromJson(answer).value).Pass?
    ensures var e, s, request := RequestRun(settings, env, lib, w), settings.value, Prepare(settings, env).value.0;
            var received := lib.fromJson(answer).value;
            && e.received == Some(received) && ExitCode(e.stage).Some?
            && (e.stage == Decided(received.body.decision) <==>
                  && env.checkWallMs.Some? && RequestFresh(request, env.checkWallMs.value, s.skewMs)
                  && ResponseFresh(received.body, env.checkWallMs.value, s.skewMs)
                  && env.replay != Some(false)
                  && env.finalWallMs.Some? && RequestFresh(request, env.finalWallMs.value, s.skewMs))
  {
    var (request, deadline) := Prepare(settings, env).value;
    var exchanged := DeliveredIsJudged(settings, env, lib, w, answer, rest, k);
    JudgeIsExact(exchanged, deadline, request, lib.fromJson(answer).value, settings.value, env, lib);
  }

  /** A delivered frame that does not decode exits 32. */
  lemma UndecodableExits32(settings: Option<Settings>, env: Environment, lib: Library, w: Wire, answer: bytes,
                           rest: bytes, k: nat)
    requires Delivered(settings, env, lib, w, answer, rest, k) && lib.fromJson(answer).None?
    ensures var e := RequestRun(settings, env, lib, w);
            e.received.None? && e.stage == ReadFailed(Json) && ExitCode(e.stage) == Some(EXIT_PROTOCOL)
  {
    ExchangeSucceeds(w, Prepare(settings, env).value.1, Payload(settings, env, lib), lib.fromJson, answer, rest, k);
  }
}
