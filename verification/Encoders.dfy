/**
 The two encoders. Both push onto a byte buffer, field by field; the ghost `plan` is the list of fields the
 buffer is meant to receive, and `Valid()` says that what was written so far is the encoding of its first
 `next` fields.
 */
module EncoderBuffer {
  import opened Bytes
  import opened Fields

  class Buffer {
    var data: bytes
    ghost const plan: seq<Field>
    ghost var next: nat

    ghost predicate Valid()
      reads this
    {
      next <= |plan| && EncodePrefix(plan, next) == Some(data)
    }

    ghost predicate Expects(f: Field)
      reads this
    {
      next < |plan| && plan[next] == f
    }

    constructor (ghost plan: seq<Field>)
      ensures Valid() && data == [] && next == 0 && this.plan == plan
    {
      data := [];
      this.plan := plan;
      next := 0;
    }

    method Push(b: byte)
      modifies this`data
      ensures data == old(data) + [b]
    {
      data := data + [b];
    }

    method Extend(b: bytes)
      modifies this`data
      ensures data == old(data) + b
    {
      data := data + b;
    }

    /** The expected field `f` has just been appended to `before`. */
    ghost method Advance(before: bytes, f: Field)
      requires Expects(f) && Fits(f)
      requires EncodePrefix(plan, next) == Some(before) && data == before + EncodeField(f)
      modifies this`next
      ensures Valid() && next == old(next) + 1
    {
      next := next + 1;
    }
  }
}

/** `canonical_bytes` of the Rust crate. */
module RustEncoder {
  import opened Bytes
  import opened Fields
  import opened Messages
  import opened EncoderBuffer

  method EncodeU32(out: Buffer, value: u32)
    modifies out`data
    ensures out.data == old(out.data) + BigEndian(value, 4)
  {
    out.Extend(BigEndian(value, 4));
  }

  method EncodeU16(out: Buffer, value: u16)
    requires out.Valid() && out.Expects(U16(value))
    modifies out
    ensures out.Valid() && out.next == old(out.next) + 1
  {
    out.Extend(BigEndian(value, 2));
    out.Advance(old(out.data), U16(value));
  }

  method EncodeU64(out: Buffer, value: u64)
    requires out.Valid() && out.Expects(U64(value))
    modifies out
    ensures out.Valid() && out.next == old(out.next) + 1
  {
    out.Extend(BigEndian(value, 8));
    out.Advance(old(out.data), U64(value));
  }

  /** Length prefix and contents; a length that does not fit in 32 bits is refused before anything is written. */
  method PushBlob(out: Buffer, value: bytes) returns (fits: bool)
    modifies out`data
    ensures fits == (|value| < U32_LIMIT)
    ensures out.data == old(out.data) + if fits then EncodeBlob(value) else []
  {
    if |value| >= U32_LIMIT { return false; }
    EncodeU32(out, |value|);
    out.Extend(value);
    assert out.data == old(out.data) + EncodeBlob(value);
    return true;
  }

  method EncodeBytes(out: Buffer, value: bytes) returns (r: Outcome<ProtocolError>)
    requires out.Valid() && out.Expects(Blob(value))
    modifies out
    ensures r.Pass? ==> out.Valid() && out.next == old(out.next) + 1
    ensures r.Fail? ==> r.error == FieldTooLarge && EncodePrefix(out.plan, |out.plan|) == None
  {
    var fits := PushBlob(out, value);
    if !fits {
      RefusedAt(out.plan, out.next);
      return Fail(FieldTooLarge);
    }
    out.Advance(old(out.data), Blob(value));
    return Pass;
  }

  method EncodeOptionalStr(out: Buffer, value: Option<bytes>) returns (r: Outcome<ProtocolError>)
    requires out.Valid() && out.Expects(OptBlob(value))
    modifies out
    ensures r.Pass? ==> out.Valid() && out.next == old(out.next) + 1
    ensures r.Fail? ==> r.error == FieldTooLarge && EncodePrefix(out.plan, |out.plan|) == None
  {
    ghost var before := out.data;
    match value
    case Some(text) =>
      out.Push(1);
      var fits := PushBlob(out, text);
      if !fits {
        RefusedAt(out.plan, out.next);
        return Fail(FieldTooLarge);
      }
      Assoc(before, [1], EncodeBlob(text));
      out.Advance(before, OptBlob(value));
      return Pass;
    case None =>
      out.Push(0);
      out.Advance(before, OptBlob(value));
      return Pass;
  }

  method EncodeOptionalU32(out: Buffer, value: Option<u32>)
    requires out.Valid() && out.Expects(OptU32(value))
    modifies out
    ensures out.Valid() && out.next == old(out.next) + 1
  {
    match value
    case Some(v) =>
      out.Push(1);
      EncodeU32(out, v);
      assert out.data == old(out.data) + EncodeField(OptU32(value));
      out.Advance(old(out.data), OptU32(value));
    case None =>
      out.Push(0);
      out.Advance(old(out.data), OptU32(value));
  }

  // The straight-line bodies of the two encoders, cut into runs of fields.

  /** What one run of fields promises: the buffer advances to `upTo`, or some field of the plan does not fit. */
  ghost predicate Ran(r: Outcome<ProtocolError>, out: Buffer, upTo: nat)
    reads out
  {
    match r
    case Pass => out.Valid() && out.next == upTo
    case Fail(e) => e == FieldTooLarge && EncodePrefix(out.plan, |out.plan|) == None
  }

  method PutRequestHeader(out: Buffer, b: Request) returns (r: Outcome<ProtocolError>)
    requires out.Valid() && out.plan == RequestFields(b) && out.next == 1
    modifies out
    ensures Ran(r, out, 4)
  {
    EncodeU16(out, b.protocolVersion);
    :- EncodeBytes(out, b.requestId);
    :- EncodeBytes(out, b.nonce);
    return Pass;
  }

  method PutRequestWindow(out: Buffer, b: Request)
    requires out.Valid() && out.plan == RequestFields(b) && out.next == 4
    modifies out
    ensures out.Valid() && out.next == 6
  {
    EncodeU64(out, b.createdAtMs);
    EncodeU64(out, b.expiresAtMs);
  }

  method PutRequestIdentity(out: Buffer, b: Request) returns (r: Outcome<ProtocolError>)
    requires out.Valid() && out.plan == RequestFields(b) && out.next == 6
    modifies out
    ensures Ran(r, out, 10)
  {
    r := EncodeBytes(out, b.hostId);
    if r.Fail? { return; }
    :- EncodeBytes(out, b.hostname);
    :- EncodeBytes(out, b.service);
    :- EncodeBytes(out, b.user);
    return Pass;
  }

  method PutRequestContext(out: Buffer, b: Request) returns (r: Outcome<ProtocolError>)
    requires out.Valid() && out.plan == RequestFields(b) && out.next == 10
    modifies out
    ensures Ran(r, out, 17)
  {
    r := EncodeOptionalStr(out, b.ruser);
    if r.Fail? { return; }
    :- EncodeOptionalStr(out, b.rhost);
    :- EncodeOptionalStr(out, b.tty);
    :- EncodeOptionalStr(out, b.sudoCommand);
    EncodeOptionalU32(out, b.clientPid);
    :- EncodeBytes(out, b.keyId);
    :- EncodeBytes(out, AlgorithmName(b.alg));
    return Pass;
  }

  method RequestCanonicalBytes(b: Request) returns (r: Result<bytes, ProtocolError>)
    ensures r == EncodeRequest(b)
  {
    var valid := ValidateRequest(b);
    if valid.Fail? { return Err(valid.error); }
    WholePrefix(RequestFields(b));
    var out := new Buffer(RequestFields(b));
    var domain := EncodeBytes(out, REQUEST_DOMAIN);
    if domain.Fail? { return Err(domain.error); }
    var header := PutRequestHeader(out, b);
    if header.Fail? { return Err(header.error); }
    PutRequestWindow(out, b);
    var identity := PutRequestIdentity(out, b);
    if identity.Fail? { return Err(identity.error); }
    var context := PutRequestContext(out, b);
    if context.Fail? { return Err(context.error); }
    return Ok(out.data);
  }

  method PutResponseHeader(out: Buffer, b: Response) returns (r: Outcome<ProtocolError>)
    requires out.Valid() && out.plan == ResponseFields(b) && out.next == 1
    modifies out
    ensures Ran(r, out, 5)
  {
    EncodeU16(out, b.protocolVersion);
    :- EncodeBytes(out, b.requestId);
    :- EncodeBytes(out, b.nonce);
    :- EncodeBytes(out, b.requestHash);
    return Pass;
  }

  method PutResponseIdentity(out: Buffer, b: Response) returns (r: Outcome<ProtocolError>)
    requires out.Valid() && out.plan == ResponseFields(b) && out.next == 5
    modifies out
    ensures Ran(r, out, 8)
  {
    r := EncodeBytes(out, b.hostId);
    if r.Fail? { return; }
    :- EncodeBytes(out, b.service);
    :- EncodeBytes(out, b.user);
    return Pass;
  }

  method PutResponseVerdict(out: Buffer, b: Response) returns (r: Outcome<ProtocolError>)
    requires out.Valid() && out.plan == ResponseFields(b) && out.next == 8
    modifies out
    ensures Ran(r, out, 10)
  {
    r := EncodeBytes(out, DecisionName(b.decision));
    if r.Fail? { return; }
    :- EncodeBytes(out, MethodName(b.authMethod));
    return Pass;
  }

  method PutResponseTrailer(out: Buffer, b: Response) returns (r: Outcome<ProtocolError>)
    requires out.Valid() && out.plan == ResponseFields(b) && out.next == 10
    modifies out
    ensures Ran(r, out, 16)
  {
    EncodeU64(out, b.createdAtMs);
    EncodeU64(out, b.expiresAtMs);
    :- EncodeBytes(out, b.agentKeyId);
    :- EncodeBytes(out, AlgorithmName(b.alg));
    :- EncodeOptionalStr(out, b.errorCode);
    :- EncodeOptionalStr(out, b.errorMessage);
    return Pass;
  }

  method ResponseCanonicalBytes(b: Response) returns (r: Result<bytes, ProtocolError>)
    ensures r == EncodeResponse(b)
  {
    var valid := ValidateResponse(b);
    if valid.Fail? { return Err(valid.error); }
    WholePrefix(ResponseFields(b));
    var out := new Buffer(ResponseFields(b));
    var domain := EncodeBytes(out, RESPONSE_DOMAIN);
    if domain.Fail? { return Err(domain.error); }
    var header := PutResponseHeader(out, b);
    if header.Fail? { return Err(header.error); }
    var identity := PutResponseIdentity(out, b);
    if identity.Fail? { return Err(identity.error); }
    var verdict := PutResponseVerdict(out, b);
    if verdict.Fail? { return Err(verdict.error); }
    var trailer := PutResponseTrailer(out, b);
    if trailer.Fail? { return Err(trailer.error); }
    return Ok(out.data);
  }
}
