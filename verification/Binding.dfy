/**
 Which request a response answers: the hash, the signature check and the six-field comparison of
 crates/protocol/src/lib.rs.
 */
module Binding {
  import opened Bytes
  import opened Messages

  const PUBLIC_KEY_LEN: nat := 32
  const SIGNATURE_LEN: nat := 64

  /** The digest function, left abstract. */
  type Hash = bytes -> bytes

  /** Signature validity of (public key, message, signature), left abstract. */
  type SignatureCheck = (bytes, bytes, bytes) -> bool

  ghost predicate Injective(h: Hash) {
    forall a, b :: h(a) == h(b) ==> a == b
  }

  function RequestHash(q: Request, h: Hash): Result<bytes, ProtocolError> {
    match EncodeRequest(q)
    case Ok(encoded) => Ok(h(encoded))
    case Err(e) => Err(e)
  }

  function ForRequest(q: Request, decision: Decision, authMethod: AuthMethod, createdAtMs: u64, expiresAtMs: u64,
                      agentKeyId: bytes, h: Hash): Result<Response, ProtocolError> {
    match RequestHash(q, h)
    case Err(e) => Err(e)
    case Ok(hash) =>
      Ok(Response(q.protocolVersion, q.requestId, q.nonce, hash, q.hostId, q.service, q.user, decision, authMethod,
                  createdAtMs, expiresAtMs, agentKeyId, Ed25519, None, None))
  }

  function VerifyBinding(r: Response, q: Request, h: Hash): Outcome<ProtocolError> {
    match RequestHash(q, h)
    case Err(e) => Fail(e)
    case Ok(expected) =>
      if && r.requestId == q.requestId
         && r.nonce == q.nonce
         && r.requestHash == expected
         && r.hostId == q.hostId
         && r.service == q.service
         && r.user == q.user
      then Pass else Fail(ResponseBindingMismatch)
  }

  function VerifySignature(key: bytes, message: bytes, signature: bytes,
                           valid: SignatureCheck): Outcome<ProtocolError> {
    if |key| != PUBLIC_KEY_LEN then Fail(InvalidPublicKey)
    else if |signature| != SIGNATURE_LEN then Fail(InvalidSignatureLength)
    else if !valid(key, message, signature) then Fail(SignatureVerificationFailed)
    else Pass
  }

  /** The signature is checked first, the binding only on a response that is really signed. */
  function VerifyForRequest(r: Response, signature: bytes, q: Request, key: bytes, h: Hash, valid: SignatureCheck):
      Outcome<ProtocolError> {
    match EncodeResponse(r)
    case Err(e) => Fail(e)
    case Ok(message) =>
      match VerifySignature(key, message, signature, valid)
      case Fail(e) => Fail(e)
      case Pass => VerifyBinding(r, q, h)
  }

  /** Six fields are compared, yet all sixteen are bound: a response is accepted for at most one request body. */
  lemma BindingIsTotal(r: Response, a: Request, b: Request, h: Hash)
    requires Injective(h)
    requires VerifyBinding(r, a, h).Pass? && VerifyBinding(r, b, h).Pass?
    ensures a == b
  {
    RequestPrefixFree(a, b, [], []);
  }

  /** The answer made for a request is accepted for that request and for no other that can be encoded. */
  lemma AnswerFitsExactlyItsRequest(a: Request, b: Request, decision: Decision, authMethod: AuthMethod,
                                    createdAtMs: u64, expiresAtMs: u64, agentKeyId: bytes, h: Hash)
    requires Injective(h)
    requires ForRequest(a, decision, authMethod, createdAtMs, expiresAtMs, agentKeyId, h).Ok?
    ensures var r := ForRequest(a, decision, authMethod, createdAtMs, expiresAtMs, agentKeyId, h).value;
            VerifyBinding(r, b, h).Pass? <==> a == b
  {
    var r := ForRequest(a, decision, authMethod, createdAtMs, expiresAtMs, agentKeyId, h).value;
    if VerifyBinding(r, b, h).Pass? { BindingIsTotal(r, a, b, h); }
  }

  /**
   One signed message serves one request: two accepted (response, request) pairs over the same signed bytes are the
   same pair.
   */
  lemma SignedBytesDetermineTheRequest(r: Response, s: Response, a: Request, b: Request, message: bytes, h: Hash)
    requires Injective(h)
    requires EncodeResponse(r) == Ok(message) && EncodeResponse(s) == Ok(message)
    requires VerifyBinding(r, a, h).Pass? && VerifyBinding(s, b, h).Pass?
    ensures r == s && a == b
  {
    ResponsePrefixFree(r, s, [], []);
    BindingIsTotal(r, a, b, h);
  }

  /** A request signature never passes as a response signature, even under one shared key. */
  lemma RequestsAreNotResponses(q: Request, r: Response)
    requires EncodeRequest(q).Ok? && EncodeResponse(r).Ok?
    ensures EncodeRequest(q).value != EncodeResponse(r).value
  {
    RequestResponseSeparation(q, r, [], []);
    assert EncodeRequest(q).value + [] == EncodeRequest(q).value;
    assert EncodeResponse(r).value + [] == EncodeResponse(r).value;
  }
}
