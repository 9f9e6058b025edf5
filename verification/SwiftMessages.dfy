/** The Swift bodies and their encoder (agent/Sources/MacosAuthAgent/main.swift), related to the Rust ones. */
module SwiftMessages {
  import opened Bytes
  import opened Messages

  datatype AgentError = InvalidPayload | InvalidSignature | IoError | AgentTimeout

  /** Raw values are the JSON spellings; only Touch ID has a different canonical name. */
  datatype SwiftMethod = SwiftWatch | SwiftTouchID | SwiftBiometricOrWatch | SwiftUnknown | SwiftNone

  function RawValue(m: SwiftMethod): bytes {
    match m
    case SwiftWatch => Ascii("watch")
    case SwiftTouchID => Ascii("touch-id")
    case SwiftBiometricOrWatch => Ascii("biometric-or-watch")
    case SwiftUnknown => Ascii("unknown")
    case SwiftNone => Ascii("none")
  }

  function CanonicalName(m: SwiftMethod): bytes { if m == SwiftTouchID then Ascii("touchid") else RawValue(m) }

  /** The JSON spelling of a Rust method (kebab case). */
  function JsonName(m: AuthMethod): bytes {
    match m
    case Watch => Ascii("watch")
    case TouchId => Ascii("touch-id")
    case BiometricOrWatch => Ascii("biometric-or-watch")
    case Unknown => Ascii("unknown")
    case NoMethod => Ascii("none")
  }

  function ToRustMethod(m: SwiftMethod): AuthMethod {
    match m
    case SwiftWatch => Watch
    case SwiftTouchID => TouchId
    case SwiftBiometricOrWatch => BiometricOrWatch
    case SwiftUnknown => Unknown
    case SwiftNone => NoMethod
  }

  datatype SwiftRequest = SwiftRequest(
    protocolVersion: u16, requestId: bytes, nonce: bytes, createdAtMs: u64, expiresAtMs: u64,
    hostId: bytes, hostname: bytes, service: bytes, user: bytes,
    ruser: Option<bytes>, rhost: Option<bytes>, tty: Option<bytes>, sudoCommand: Option<bytes>,
    clientPid: Option<u32>, keyId: bytes, alg: bytes)

  datatype SwiftResponse = SwiftResponse(
    protocolVersion: u16, requestId: bytes, nonce: bytes, requestHash: bytes,
    hostId: bytes, service: bytes, user: bytes, decision: Decision, authMethod: SwiftMethod,
    createdAtMs: u64, expiresAtMs: u64, agentKeyId: bytes, alg: bytes,
    errorCode: Option<bytes>, errorMessage: Option<bytes>)

  /**
   Lower-casing, as far as the one comparison made with it can tell: letters outside ASCII never become ASCII letters
   of "ed25519".
   */
  function Lowercased(s: bytes): (r: bytes)
    ensures |r| == |s|
  {
    seq(|s|, i requires 0 <= i < |s| => if 'A' as int <= s[i] <= 'Z' as int then s[i] + 32 else s[i])
  }

  function CanonicalAlgorithmName(alg: bytes): Option<bytes> {
    if Lowercased(alg) == Ascii("ed25519") then Some(Ascii("Ed25519")) else None
  }

  /** The Rust body with the same contents; there is none when the algorithm is not recognised. */
  function ToRustRequest(s: SwiftRequest): Option<Request> {
    if CanonicalAlgorithmName(s.alg).None? then None
    else
      Some(Request(s.protocolVersion, s.requestId, s.nonce, s.createdAtMs, s.expiresAtMs, s.hostId, s.hostname,
                   s.service, s.user, s.ruser, s.rhost, s.tty, s.sudoCommand, s.clientPid, s.keyId, Ed25519))
  }

  function ToRustResponse(s: SwiftResponse): Option<Response> {
    if CanonicalAlgorithmName(s.alg).None? then None
    else
      Some(Response(s.protocolVersion, s.requestId, s.nonce, s.requestHash, s.hostId, s.service, s.user, s.decision,
                    ToRustMethod(s.authMethod), s.createdAtMs, s.expiresAtMs, s.agentKeyId, Ed25519,
                    s.errorCode, s.errorMessage))
  }

  /** What arrives in Swift when Rust writes JSON: the algorithm is spelled "ed25519". */
  function FromRustRequest(b: Request): SwiftRequest {
    SwiftRequest(b.protocolVersion, b.requestId, b.nonce, b.createdAtMs, b.expiresAtMs, b.hostId, b.hostname,
                 b.service, b.user, b.ruser, b.rhost, b.tty, b.sudoCommand, b.clientPid, b.keyId, Ascii("ed25519"))
  }

  /** Nothing of a Rust request is lost on the way through JSON. */
  lemma RustRequestsSurvive(b: Request)
    ensures ToRustRequest(FromRustRequest(b)) == Some(b)
  {
    assert Lowercased(Ascii("ed25519")) == Ascii("ed25519");
    assert b.alg == Ed25519;
  }

  /**
   Swift and Rust spell each method alike in JSON and alike in the signed bytes, although the two spellings differ.
   */
  lemma MethodSpellingsAgree(s: SwiftMethod, m: AuthMethod)
    ensures RawValue(s) == JsonName(m) <==> m == ToRustMethod(s)
    ensures CanonicalName(s) == MethodName(ToRustMethod(s))
    ensures RawValue(s) != CanonicalName(s) <==> s == SwiftTouchID
  {
    assert RawValue(SwiftUnknown)[0] != RawValue(SwiftTouchID)[0];
    assert |RawValue(SwiftWatch)| == 5 && |RawValue(SwiftTouchID)| == 8 && |RawValue(SwiftBiometricOrWatch)| == 18
           && |RawValue(SwiftUnknown)| == 7 && |RawValue(SwiftNone)| == 4 && |CanonicalName(SwiftTouchID)| == 7;
  }

  predicate SwiftValid(version: u16, alg: bytes, nonce: bytes, createdAtMs: u64, expiresAtMs: u64) {
    && version == PROTOCOL_VERSION
    && CanonicalAlgorithmName(alg).Some?
    && |nonce| == NONCE_LEN
    && createdAtMs < expiresAtMs
  }
}

/** `canonicalBytes` of the Swift agent. */
module SwiftEncoder {
  import opened Bytes
  import opened Fields
  import opened Messages
  import opened SwiftMessages
  import opened EncoderBuffer

  /** `value >> bits` on unsigned integers. */
  function ShiftRight(value: nat, bits: nat): nat
    decreases bits
  {
    if bits == 0 then value else ShiftRight(value / 2, bits - 1)
  }

  /** `value & 0xff`. */
  function LowByte(value: nat): byte { value % 256 }

  lemma {:induction false} ShiftTwice(value: nat, a: nat, b: nat)
    ensures ShiftRight(value, a + b) == ShiftRight(ShiftRight(value, a), b)
    decreases a
  {
    if a > 0 { ShiftTwice(value / 2, a - 1, b); }
  }

  lemma ShiftByte(value: nat)
    ensures ShiftRight(value, 8) == value / 256
  {
    assert ShiftRight(value, 8) == ShiftRight(value / 2, 7) == ShiftRight(value / 4, 6) == ShiftRight(value / 8, 5)
        == ShiftRight(value / 16, 4);
    assert ShiftRight(value / 16, 4) == ShiftRight(value / 32, 3) == ShiftRight(value / 64, 2)
        == ShiftRight(value / 128, 1) == value / 256;
  }

  lemma ShiftedBytes(value: nat, shift: nat, width: nat)
    ensures BigEndian(ShiftRight(value, shift), width + 1)
            == BigEndian(ShiftRight(value, shift + 8), width) + [LowByte(ShiftRight(value, shift))]
  {
    ShiftTwice(value, shift, 8);
    ShiftByte(ShiftRight(value, shift));
  }

  lemma {:induction false} ShiftedOut(value: nat, width: nat)
    requires value < Pow256(width)
    ensures ShiftRight(value, 8 * width) == 0
  {
    if width > 0 {
      ShiftTwice(value, 8, 8 * (width - 1));
      ShiftByte(value);
      ShiftedOut(value / 256, width - 1);
    }
  }

  method PutUInt16(out: Buffer, value: u16)
    modifies out`data
    ensures out.data == old(out.data) + BigEndian(value, 2)
  {
    out.Push(LowByte(ShiftRight(value, 8)));
    out.Push(LowByte(value));
    Pow256Widths();
    ShiftedOut(value, 2);
    ShiftedBytes(value, 8, 0);
    ShiftedBytes(value, 0, 1);
  }

  method PutUInt32(out: Buffer, value: u32)
    modifies out`data
    ensures out.data == old(out.data) + BigEndian(value, 4)
  {
    out.Push(LowByte(ShiftRight(value, 24)));
    out.Push(LowByte(ShiftRight(value, 16)));
    out.Push(LowByte(ShiftRight(value, 8)));
    out.Push(LowByte(value));
    Pow256Widths();
    ShiftedOut(value, 4);
    ShiftedBytes(value, 24, 0);
    ShiftedBytes(value, 16, 1);
    ShiftedBytes(value, 8, 2);
    ShiftedBytes(value, 0, 3);
  }

  /** The shift loop writes the same eight bytes as `to_be_bytes`. */
  method PutUInt64(out: Buffer, value: u64)
    modifies out`data
    ensures out.data == old(out.data) + BigEndian(value, 8)
  {
    var before := out.data;
    var shift := 56;
    Pow256Widths();
    ShiftedOut(value, 8);
    ghost var width := 0;
    while shift >= 0
      invariant -8 <= shift <= 56 && shift + 8 == 8 * (8 - width) && 0 <= width <= 8
      invariant out.data == before + BigEndian(ShiftRight(value, shift + 8), width)
    {
      out.Push(LowByte(ShiftRight(value, shift)));
      ShiftedBytes(value, shift, width);
      shift := shift - 8;
      width := width + 1;
    }
  }

  method PutBlob(out: Buffer, value: bytes) returns (fits: bool)
    modifies out`data
    ensures fits == (|value| < U32_LIMIT)
    ensures out.data == old(out.data) + if fits then EncodeBlob(value) else []
  {
    if |value| >= U32_LIMIT { return false; }
    PutUInt32(out, |value|);
    out.Extend(value);
    assert out.data == old(out.data) + EncodeBlob(value);
    return true;
  }

  method EncodeUInt16(out: Buffer, value: u16)
    requires out.Valid() && out.Expects(U16(value))
    modifies out
    ensures out.Valid() && out.next == old(out.next) + 1
  {
    PutUInt16(out, value);
    out.Advance(old(out.data), U16(value));
  }

  method EncodeUInt64(out: Buffer, value: u64)
    requires out.Valid() && out.Expects(U64(value))
    modifies out
    ensures out.Valid() && out.next == old(out.next) + 1
  {
    PutUInt64(out, value);
    out.Advance(old(out.data), U64(value));
  }

  method EncodeBytes(out: Buffer, value: bytes) returns (r: Outcome<AgentError>)
    requires out.Valid() && out.Expects(Blob(value))
    modifies out
    ensures r.Pass? ==> out.Valid() && out.next == old(out.next) + 1
    ensures r.Fail? ==> r.error == InvalidPayload && EncodePrefix(out.plan, |out.plan|) == None
  {
    var fits := PutBlob(out, value);
    if !fits {
      RefusedAt(out.plan, out.next);
      return Fail(InvalidPayload);
    }
    out.Advance(old(out.data), Blob(value));
    return Pass;
  }

  method EncodeOptionalString(out: Buffer, value: Option<bytes>) returns (r: Outcome<AgentError>)
    requires out.Valid() && out.Expects(OptBlob(value))
    modifies out
    ensures r.Pass? ==> out.Valid() && out.next == old(out.next) + 1
    ensures r.Fail? ==> r.error == InvalidPayload && EncodePrefix(out.plan, |out.plan|) == None
  {
    ghost var before := out.data;
    if value.None? {
      out.Push(0);
      out.Advance(before, OptBlob(value));
      return Pass;
    }
    out.Push(1);
    var fits := PutBlob(out, value.value);
    if !fits {
      RefusedAt(out.plan, out.next);
      return Fail(InvalidPayload);
    }
    Assoc(before, [1], EncodeBlob(value.value));
    out.Advance(before, OptBlob(value));
    return Pass;
  }

  method EncodeOptionalUInt32(out: Buffer, value: Option<u32>)
    requires out.Valid() && out.Expects(OptU32(value))
    modifies out
    ensures out.Valid() && out.next == old(out.next) + 1
  {
    ghost var before := out.data;
    if value.None? {
      out.Push(0);
      out.Advance(before, OptU32(value));
      return;
    }
    out.Push(1);
    PutUInt32(out, value.value);
    Assoc(before, [1], BigEndian(value.value, 4));
    out.Advance(before, OptU32(value));
  }

  // The straight-line bodies of the two encoders, cut into runs of fields as in `RustEncoder`.

  ghost predicate Ran(r: Outcome<AgentError>, out: Buffer, upTo: nat)
    reads out
  {
    match r
    case Pass => out.Valid() && out.next == upTo
    case Fail(e) => e == InvalidPayload && EncodePrefix(out.plan, |out.plan|) == None
  }

  method PutRequestHeader(out: Buffer, s: SwiftRequest, ghost b: Request) returns (r: Outcome<AgentError>)
    requires ToRustRequest(s) == Some(b)
    requires out.Valid() && out.plan == RequestFields(b) && out.next == 1
    modifies out
    ensures Ran(r, out, 4)
  {
    EncodeUInt16(out, s.protocolVersion);
    :- EncodeBytes(out, s.requestId);
    :- EncodeBytes(out, s.nonce);
    return Pass;
  }

  method PutRequestWindow(out: Buffer, s: SwiftRequest, ghost b: Request)
    requires ToRustRequest(s) == Some(b)
    requires out.Valid() && out.plan == RequestFields(b) && out.next == 4
    modifies out
    ensures out.Valid() && out.next == 6
  {
    EncodeUInt64(out, s.createdAtMs);
    EncodeUInt64(out, s.expiresAtMs);
  }

  method PutRequestIdentity(out: Buffer, s: SwiftRequest, ghost b: Request) returns (r: Outcome<AgentError>)
    requires ToRustRequest(s) == Some(b)
    requires out.Valid() && out.plan == RequestFields(b) && out.next == 6
    modifies out
    ensures Ran(r, out, 10)
  {
    r := EncodeBytes(out, s.hostId);
    if r.Fail? { return; }
    :- EncodeBytes(out, s.hostname);
    :- EncodeBytes(out, s.service);
    :- EncodeBytes(out, s.user);
    return Pass;
  }

  method PutRequestContext(out: Buffer, s: SwiftRequest, ghost b: Request) returns (r: Outcome<AgentError>)
    requires ToRustRequest(s) == Some(b)
    requires out.Valid() && out.plan == RequestFields(b) && out.next == 10
    modifies out
    ensures Ran(r, out, 16)
  {
    r := EncodeOptionalString(out, s.ruser);
    if r.Fail? { return; }
    :- EncodeOptionalString(out, s.rhost);
    :- EncodeOptionalString(out, s.tty);
    :- EncodeOptionalString(out, s.sudoCommand);
    EncodeOptionalUInt32(out, s.clientPid);
    :- EncodeBytes(out, s.keyId);
    return Pass;
  }

  /** Swift encodes a body exactly when Rust encodes the corresponding one, and to the same bytes. */
  method RequestCanonicalBytes(s: SwiftRequest) returns (r: Result<bytes, AgentError>)
    ensures r.Ok? <==> ToRustRequest(s).Some? && EncodeRequest(ToRustRequest(s).value).Ok?
    ensures r.Ok? ==> r.value == EncodeRequest(ToRustRequest(s).value).value
    ensures r.Err? ==> r.error == InvalidPayload
  {
    if !SwiftValid(s.protocolVersion, s.alg, s.nonce, s.createdAtMs, s.expiresAtMs) { return Err(InvalidPayload); }
    ghost var b := ToRustRequest(s).value;
    WholePrefix(RequestFields(b));
    var out := new Buffer(RequestFields(b));
    var domain := EncodeBytes(out, REQUEST_DOMAIN);
    if domain.Fail? { return Err(domain.error); }
    var header := PutRequestHeader(out, s, b);
    if header.Fail? { return Err(header.error); }
    PutRequestWindow(out, s, b);
    var identity := PutRequestIdentity(out, s, b);
    if identity.Fail? { return Err(identity.error); }
    var context := PutRequestContext(out, s, b);
    if context.Fail? { return Err(context.error); }
    var alg := EncodeBytes(out, CanonicalAlgorithmName(s.alg).value);
    if alg.Fail? { return Err(alg.error); }
    return Ok(out.data);
  }

  method PutResponseHeader(out: Buffer, s: SwiftResponse, ghost b: Response) returns (r: Outcome<AgentError>)
    requires ToRustResponse(s) == Some(b)
    requires out.Valid() && out.plan == ResponseFields(b) && out.next == 1
    modifies out
    ensures Ran(r, out, 5)
  {
    EncodeUInt16(out, s.protocolVersion);
    :- EncodeBytes(out, s.requestId);
    :- EncodeBytes(out, s.nonce);
    :- EncodeBytes(out, s.requestHash);
    return Pass;
  }

  method PutResponseIdentity(out: Buffer, s: SwiftResponse, ghost b: Response) returns (r: Outcome<AgentError>)
    requires ToRustResponse(s) == Some(b)
    requires out.Valid() && out.plan == ResponseFields(b) && out.next == 5
    modifies out
    ensures Ran(r, out, 8)
  {
    r := EncodeBytes(out, s.hostId);
    if r.Fail? { return; }
    :- EncodeBytes(out, s.service);
    :- EncodeBytes(out, s.user);
    return Pass;
  }

  method PutResponseVerdict(out: Buffer, s: SwiftResponse, ghost b: Response) returns (r: Outcome<AgentError>)
    requires ToRustResponse(s) == Some(b)
    requires out.Valid() && out.plan == ResponseFields(b) && out.next == 8
    modifies out
    ensures Ran(r, out, 10)
  {
    MethodSpellingsAgree(s.authMethod, b.authMethod);
    r := EncodeBytes(out, DecisionName(s.decision));
    if r.Fail? { return; }
    :- EncodeBytes(out, CanonicalName(s.authMethod));
    return Pass;
  }

  method PutResponseTrailer(out: Buffer, s: SwiftResponse, ghost b: Response) returns (r: Outcome<AgentError>)
    requires ToRustResponse(s) == Some(b)
    requires out.Valid() && out.plan == ResponseFields(b) && out.next == 10
    modifies out
    ensures Ran(r, out, 16)
  {
    EncodeUInt64(out, s.createdAtMs);
    EncodeUInt64(out, s.expiresAtMs);
    :- EncodeBytes(out, s.agentKeyId);
    :- EncodeBytes(out, CanonicalAlgorithmName(s.alg).value);
    :- EncodeOptionalString(out, s.errorCode);
    :- EncodeOptionalString(out, s.errorMessage);
    return Pass;
  }

  method ResponseCanonicalBytes(s: SwiftResponse) returns (r: Result<bytes, AgentError>)
    ensures r.Ok? <==> ToRustResponse(s).Some? && EncodeResponse(ToRustResponse(s).value).Ok?
    ensures r.Ok? ==> r.value == EncodeResponse(ToRustResponse(s).value).value
    ensures r.Err? ==> r.error == InvalidPayload
  {
    if !SwiftValid(s.protocolVersion, s.alg, s.nonce, s.createdAtMs, s.expiresAtMs) { return Err(InvalidPayload); }
    ghost var b := ToRustResponse(s).value;
    WholePrefix(ResponseFields(b));
    var out := new Buffer(ResponseFields(b));
    var domain := EncodeBytes(out, RESPONSE_DOMAIN);
    if domain.Fail? { return Err(domain.error); }
    var header := PutResponseHeader(out, s, b);
    if header.Fail? { return Err(header.error); }
    var identity := PutResponseIdentity(out, s, b);
    if identity.Fail? { return Err(identity.error); }
    var verdict := PutResponseVerdict(out, s, b);
    if verdict.Fail? { return Err(verdict.error); }
    var trailer := PutResponseTrailer(out, s, b);
    if trailer.Fail? { return Err(trailer.error); }
    return Ok(out.data);
  }
}
