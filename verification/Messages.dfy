/** Request and response bodies, their validation and their canonical encodings (crates/protocol/src/lib.rs). */
module Messages {
  import opened Bytes
  import opened Fields

  const PROTOCOL_VERSION: u16 := 1
  const NONCE_LEN: nat := 32
  const REQUEST_DOMAIN := Ascii("macos-auth/auth-request/v1")
  const RESPONSE_DOMAIN := Ascii("macos-auth/auth-response/v1")

  datatype ProtocolError =
    | UnsupportedVersion(version: u16)
    | InvalidNonceLength(actual: nat)
    | InvalidValidityWindow
    | Expired
    | CreatedInFuture
    | InvalidPublicKey
    | InvalidSignatureLength
    | SignatureVerificationFailed
    | ResponseBindingMismatch
    | FieldTooLarge

  datatype Algorithm = Ed25519
  datatype Decision = Approved | Denied | Unavailable | Cancelled | Failed
  datatype AuthMethod = Watch | TouchId | BiometricOrWatch | Unknown | NoMethod

  function AlgorithmName(a: Algorithm): bytes { Ascii("Ed25519") }

  function DecisionName(d: Decision): bytes {
    match d
    case Approved => Ascii("approved")
    case Denied => Ascii("denied")
    case Unavailable => Ascii("unavailable")
    case Cancelled => Ascii("cancelled")
    case Failed => Ascii("failed")
  }

  function MethodName(m: AuthMethod): bytes {
    match m
    case Watch => Ascii("watch")
    case TouchId => Ascii("touchid")
    case BiometricOrWatch => Ascii("biometric-or-watch")
    case Unknown => Ascii("unknown")
    case NoMethod => Ascii("none")
  }

  datatype Request = Request(
    protocolVersion: u16, requestId: bytes, nonce: bytes, createdAtMs: u64, expiresAtMs: u64,
    hostId: bytes, hostname: bytes, service: bytes, user: bytes,
    ruser: Option<bytes>, rhost: Option<bytes>, tty: Option<bytes>, sudoCommand: Option<bytes>,
    clientPid: Option<u32>, keyId: bytes, alg: Algorithm)

  datatype Response = Response(
    protocolVersion: u16, requestId: bytes, nonce: bytes, requestHash: bytes,
    hostId: bytes, service: bytes, user: bytes, decision: Decision, authMethod: AuthMethod,
    createdAtMs: u64, expiresAtMs: u64, agentKeyId: bytes, alg: Algorithm,
    errorCode: Option<bytes>, errorMessage: Option<bytes>)

  /** The checks both bodies share, in the order the code makes them. */
  function Validate(version: u16, nonce: bytes, createdAtMs: u64, expiresAtMs: u64): Outcome<ProtocolError> {
    if version != PROTOCOL_VERSION then Fail(UnsupportedVersion(version))
    else if |nonce| != NONCE_LEN then Fail(InvalidNonceLength(|nonce|))
    else if createdAtMs >= expiresAtMs then Fail(InvalidValidityWindow)
    else Pass
  }

  function ValidateRequest(b: Request): Outcome<ProtocolError> {
    Validate(b.protocolVersion, b.nonce, b.createdAtMs, b.expiresAtMs)
  }

  function ValidateResponse(b: Response): Outcome<ProtocolError> {
    Validate(b.protocolVersion, b.nonce, b.createdAtMs, b.expiresAtMs)
  }

  function RequestFields(b: Request): (fs: seq<Field>) {
    [Blob(REQUEST_DOMAIN),
     U16(b.protocolVersion),
     Blob(b.requestId),
     Blob(b.nonce),
     U64(b.createdAtMs),
     U64(b.expiresAtMs),
     Blob(b.hostId),
     Blob(b.hostname),
     Blob(b.service),
     Blob(b.user),
     OptBlob(b.ruser),
     OptBlob(b.rhost),
     OptBlob(b.tty),
     OptBlob(b.sudoCommand),
     OptU32(b.clientPid),
     Blob(b.keyId),
     Blob(AlgorithmName(b.alg))]
  }

  function ResponseFields(b: Response): (fs: seq<Field>) {
    [Blob(RESPONSE_DOMAIN),
     U16(b.protocolVersion),
     Blob(b.requestId),
     Blob(b.nonce),
     Blob(b.requestHash),
     Blob(b.hostId),
     Blob(b.service),
     Blob(b.user),
     Blob(DecisionName(b.decision)),
     Blob(MethodName(b.authMethod)),
     U64(b.createdAtMs),
     U64(b.expiresAtMs),
     Blob(b.agentKeyId),
     Blob(AlgorithmName(b.alg)),
     OptBlob(b.errorCode),
     OptBlob(b.errorMessage)]
  }

  /** A body that fails a check is refused; so is an oversized field; else the fields are written in order. */
  function Encoded(check: Outcome<ProtocolError>, fs: seq<Field>): Result<bytes, ProtocolError> {
    match check
    case Fail(e) => Err(e)
    case Pass => if AllFit(fs) then Ok(EncodeFields(fs)) else Err(FieldTooLarge)
  }

  function EncodeRequest(b: Request): Result<bytes, ProtocolError> { Encoded(ValidateRequest(b), RequestFields(b)) }

  function EncodeResponse(b: Response): Result<bytes, ProtocolError> { Encoded(ValidateResponse(b), ResponseFields(b)) }

  // ---- Readers of whole bodies ----

  const REQUEST_KINDS: seq<Kind> :=
    [KBlob, KU16, KBlob, KBlob, KU64, KU64, KBlob, KBlob, KBlob, KBlob,
     KOptBlob, KOptBlob, KOptBlob, KOptBlob, KOptU32, KBlob, KBlob]

  const RESPONSE_KINDS: seq<Kind> :=
    [KBlob, KU16, KBlob, KBlob, KBlob, KBlob, KBlob, KBlob, KBlob, KBlob, KU64, KU64, KBlob, KBlob, KOptBlob, KOptBlob]

  function DecisionOf(name: bytes): Option<Decision> {
    if name == DecisionName(Approved) then Some(Approved)
    else if name == DecisionName(Denied) then Some(Denied)
    else if name == DecisionName(Unavailable) then Some(Unavailable)
    else if name == DecisionName(Cancelled) then Some(Cancelled)
    else if name == DecisionName(Failed) then Some(Failed)
    else None
  }

  function MethodOf(name: bytes): Option<AuthMethod> {
    if name == MethodName(Watch) then Some(Watch)
    else if name == MethodName(TouchId) then Some(TouchId)
    else if name == MethodName(BiometricOrWatch) then Some(BiometricOrWatch)
    else if name == MethodName(Unknown) then Some(Unknown)
    else if name == MethodName(NoMethod) then Some(NoMethod)
    else None
  }

  function RequestOf(fs: seq<Field>): (r: Request)
    requires Kinds(fs) == REQUEST_KINDS
  {
    KindsAt(fs, REQUEST_KINDS);
    Request(fs[1].u16, fs[2].blob, fs[3].blob, fs[4].u64, fs[5].u64, fs[6].blob, fs[7].blob, fs[8].blob, fs[9].blob,
            fs[10].optBlob, fs[11].optBlob, fs[12].optBlob, fs[13].optBlob, fs[14].optU32, fs[15].blob, Ed25519)
  }

  lemma KindsAt(fs: seq<Field>, ks: seq<Kind>)
    requires Kinds(fs) == ks
    ensures |fs| == |ks| && forall i :: 0 <= i < |fs| ==> KindOf(fs[i]) == ks[i]
  {
  }

  function ResponseOf(fs: seq<Field>): Option<Response>
    requires Kinds(fs) == RESPONSE_KINDS
  {
    KindsAt(fs, RESPONSE_KINDS);
    var decision, authMethod := DecisionOf(fs[8].blob), MethodOf(fs[9].blob);
    if decision.None? || authMethod.None? then None
    else
      Some(Response(fs[1].u16, fs[2].blob, fs[3].blob, fs[4].blob, fs[5].blob, fs[6].blob, fs[7].blob,
                    decision.value, authMethod.value, fs[10].u64, fs[11].u64, fs[12].blob, Ed25519,
                    fs[14].optBlob, fs[15].optBlob))
  }

  /** Reads one request body off the front of `s`, accepting only what `EncodeRequest` writes. */
  function DecodeRequest(s: bytes): Option<(Request, bytes)> {
    match DecodeFields(REQUEST_KINDS, s)
    case None => None
    case Some((fs, rest)) =>
      EncodeOfDecodeFields(REQUEST_KINDS, s);
      var b := RequestOf(fs);
      if ValidateRequest(b).Pass? && RequestFields(b) == fs then Some((b, rest)) else None
  }

  function DecodeResponse(s: bytes): Option<(Response, bytes)> {
    match DecodeFields(RESPONSE_KINDS, s)
    case None => None
    case Some((fs, rest)) =>
      EncodeOfDecodeFields(RESPONSE_KINDS, s);
      match ResponseOf(fs)
      case None => None
      case Some(b) =>
        if ValidateResponse(b).Pass? && ResponseFields(b) == fs then Some((b, rest)) else None
  }

  // ---- Main results ----

  /** The reader accepts exactly the encodings, and returns what was encoded. */
  lemma RequestRoundTrip(b: Request, s: bytes, rest: bytes)
    ensures DecodeRequest(s) == Some((b, rest)) <==> EncodeRequest(b).Ok? && s == EncodeRequest(b).value + rest
  {
    if DecodeRequest(s) == Some((b, rest)) {
      EncodeRequestOfDecode(b, s, rest);
    }
    if EncodeRequest(b).Ok? && s == EncodeRequest(b).value + rest {
      DecodeRequestOfEncode(b, rest);
    }
  }

  lemma EncodeRequestOfDecode(b: Request, s: bytes, rest: bytes)
    requires DecodeRequest(s) == Some((b, rest))
    ensures EncodeRequest(b).Ok? && s == EncodeRequest(b).value + rest
  {
    EncodeOfDecodeFields(REQUEST_KINDS, s);
  }

  lemma ReadAsRequest(s: bytes, fs: seq<Field>, rest: bytes, b: Request)
    requires DecodeFields(REQUEST_KINDS, s) == Some((fs, rest)) && Kinds(fs) == REQUEST_KINDS
    requires RequestOf(fs) == b && ValidateRequest(b).Pass? && RequestFields(b) == fs
    ensures DecodeRequest(s) == Some((b, rest))
  {
  }

  lemma DecodeRequestOfEncode(b: Request, rest: bytes)
    requires EncodeRequest(b).Ok?
    ensures DecodeRequest(EncodeRequest(b).value + rest) == Some((b, rest))
  {
    var fs := RequestFields(b);
    DecodeFieldsOfEncode(fs, rest);
    RequestFieldsAreReadBack(b);
    ReadAsRequest(EncodeFields(fs) + rest, fs, rest, b);
  }

  lemma RequestFieldsAreReadBack(b: Request)
    ensures Kinds(RequestFields(b)) == REQUEST_KINDS
    ensures RequestOf(RequestFields(b)) == b
  {
    assert Kinds(RequestFields(b)) == REQUEST_KINDS;
  }

  lemma ResponseRoundTrip(b: Response, s: bytes, rest: bytes)
    ensures DecodeResponse(s) == Some((b, rest)) <==> EncodeResponse(b).Ok? && s == EncodeResponse(b).value + rest
  {
    if DecodeResponse(s) == Some((b, rest)) {
      EncodeResponseOfDecode(b, s, rest);
    }
    if EncodeResponse(b).Ok? && s == EncodeResponse(b).value + rest {
      DecodeResponseOfEncode(b, rest);
    }
  }

  lemma EncodeResponseOfDecode(b: Response, s: bytes, rest: bytes)
    requires DecodeResponse(s) == Some((b, rest))
    ensures EncodeResponse(b).Ok? && s == EncodeResponse(b).value + rest
  {
    EncodeOfDecodeFields(RESPONSE_KINDS, s);
  }

  lemma ReadAsResponse(s: bytes, fs: seq<Field>, rest: bytes, b: Response)
    requires DecodeFields(RESPONSE_KINDS, s) == Some((fs, rest)) && Kinds(fs) == RESPONSE_KINDS
    requires ResponseOf(fs) == Some(b) && ValidateResponse(b).Pass? && ResponseFields(b) == fs
    ensures DecodeResponse(s) == Some((b, rest))
  {
  }

  lemma DecodeResponseOfEncode(b: Response, rest: bytes)
    requires EncodeResponse(b).Ok?
    ensures DecodeResponse(EncodeResponse(b).value + rest) == Some((b, rest))
  {
    var fs := ResponseFields(b);
    DecodeFieldsOfEncode(fs, rest);
    ResponseFieldsAreReadBack(b);
    ReadAsResponse(EncodeFields(fs) + rest, fs, rest, b);
  }

  lemma ResponseFieldsAreReadBack(b: Response)
    ensures Kinds(ResponseFields(b)) == RESPONSE_KINDS
    ensures ResponseOf(ResponseFields(b)) == Some(b)
  {
    var fs := ResponseFields(b);
    assert Kinds(fs) == RESPONSE_KINDS;
    NamesAreReadBack(b.decision, b.authMethod);
    assert fs[8].blob == DecisionName(b.decision) && fs[9].blob == MethodName(b.authMethod);
    assert DecisionOf(fs[8].blob) == Some(b.decision);
    assert MethodOf(fs[9].blob) == Some(b.authMethod);
    assert b.alg == Ed25519;
    assert fs[12].blob == b.agentKeyId && fs[14].optBlob == b.errorCode && fs[15].optBlob == b.errorMessage;
  }

  lemma NamesAreReadBack(d: Decision, m: AuthMethod)
    ensures DecisionOf(DecisionName(d)) == Some(d)
    ensures MethodOf(MethodName(m)) == Some(m)
  {
    assert DecisionName(Denied)[0] != DecisionName(Failed)[0];
    assert MethodName(TouchId)[0] != MethodName(Unknown)[0];
    assert |DecisionName(Approved)| == 8 && |DecisionName(Denied)| == 6 && |DecisionName(Unavailable)| == 11
           && |DecisionName(Cancelled)| == 9 && |DecisionName(Failed)| == 6;
    assert |MethodName(Watch)| == 5 && |MethodName(TouchId)| == 7 && |MethodName(BiometricOrWatch)| == 18
           && |MethodName(Unknown)| == 7 && |MethodName(NoMethod)| == 4;
  }

  /** Two request encodings, each followed by anything, are the same bytes only for the same body and the same tail. */
  lemma RequestPrefixFree(a: Request, b: Request, restA: bytes, restB: bytes)
    requires EncodeRequest(a).Ok? && EncodeRequest(b).Ok?
    requires EncodeRequest(a).value + restA == EncodeRequest(b).value + restB
    ensures a == b && restA == restB
  {
    var s := EncodeRequest(a).value + restA;
    RequestRoundTrip(a, s, restA);
    RequestRoundTrip(b, s, restB);
  }

  lemma ResponsePrefixFree(a: Response, b: Response, restA: bytes, restB: bytes)
    requires EncodeResponse(a).Ok? && EncodeResponse(b).Ok?
    requires EncodeResponse(a).value + restA == EncodeResponse(b).value + restB
    ensures a == b && restA == restB
  {
    var s := EncodeResponse(a).value + restA;
    ResponseRoundTrip(a, s, restA);
    ResponseRoundTrip(b, s, restB);
  }

  /** No request encoding is a response encoding, nor a prefix of one, nor the other way round. */
  lemma RequestResponseSeparation(a: Request, b: Response, restA: bytes, restB: bytes)
    requires EncodeRequest(a).Ok? && EncodeResponse(b).Ok?
    ensures EncodeRequest(a).value + restA != EncodeResponse(b).value + restB
  {
    BigEndianRoundTripSmall();
    var x, y := EncodeRequest(a).value + restA, EncodeResponse(b).value + restB;
    assert x[..4] == BigEndian(26, 4);
    assert y[..4] == BigEndian(27, 4);
  }

  lemma BigEndianRoundTripSmall()
    ensures BigEndian(26, 4) != BigEndian(27, 4)
  {
    Pow256Widths();
    BigEndianRoundTrip(26, 4);
    BigEndianRoundTrip(27, 4);
  }
}
