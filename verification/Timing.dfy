/** Validity windows, deadlines and their machine arithmetic, in both implementations. */
module Timing {
  import opened Bytes
  import opened Messages
  import opened SwiftMessages
  import opened Binding

  const INT32_MAX: int := 0x7FFF_FFFF
  const NS_PER_MS: nat := 1_000_000
  const RESPONSE_WINDOW_MS: nat := 10_000

  function SaturatingAdd(a: u64, b: u64): u64 { if a + b > U64_MAX then U64_MAX else a + b }

  /** Rust freshness, for requests and responses alike. */
  function Fresh(createdAtMs: u64, expiresAtMs: u64, nowMs: u64, skewMs: u64): Outcome<ProtocolError> {
    if nowMs > expiresAtMs then Fail(Expired)
    else if createdAtMs > SaturatingAdd(nowMs, skewMs) then Fail(CreatedInFuture)
    else Pass
  }

  /** Swift freshness: the request is already expired at its expiry, and the skew is compared by subtraction. */
  function SwiftFresh(createdAtMs: u64, expiresAtMs: u64, nowMs: u64, skewMs: u64): Outcome<AgentError> {
    if nowMs >= expiresAtMs then Fail(InvalidPayload)
    else if createdAtMs > nowMs && createdAtMs - nowMs > skewMs then Fail(InvalidPayload)
    else Pass
  }

  /** The two disagree exactly at the expiry of a request that is not refused for its creation time. */
  lemma FreshnessAgreement(createdAtMs: u64, expiresAtMs: u64, nowMs: u64, skewMs: u64)
    ensures var rust := Fresh(createdAtMs, expiresAtMs, nowMs, skewMs).Pass?;
            var swift := SwiftFresh(createdAtMs, expiresAtMs, nowMs, skewMs).Pass?;
            && (rust != swift <==>
                  nowMs == expiresAtMs && (createdAtMs <= nowMs || createdAtMs - nowMs <= skewMs))
            && (createdAtMs < expiresAtMs ==> (rust != swift <==> nowMs == expiresAtMs))
            && (swift ==> rust)
  {
  }

  /** The agent's answer. The additions stay within 64 bits because the remaining life of the request does. */
  function SwiftForRequest(q: SwiftRequest, decision: Decision, authMethod: SwiftMethod, nowMs: u64, agentKeyId: bytes,
                           h: Hash): (r: Result<SwiftResponse, AgentError>)
    ensures r.Ok? <==> nowMs < q.expiresAtMs && ToRustRequest(q).Some? && EncodeRequest(ToRustRequest(q).value).Ok?
    ensures r.Ok? ==> nowMs == r.value.createdAtMs < r.value.expiresAtMs <= q.expiresAtMs
  {
    if nowMs >= q.expiresAtMs then Err(AgentTimeout)
    else if ToRustRequest(q).None? then Err(InvalidPayload)
    else
      match RequestHash(ToRustRequest(q).value, h)
      case Err(_) => Err(InvalidPayload)
      case Ok(hash) =>
        Ok(SwiftResponse(q.protocolVersion, q.requestId, q.nonce, hash, q.hostId, q.service, q.user, decision,
                         authMethod,
                         nowMs, nowMs + Min(RESPONSE_WINDOW_MS, q.expiresAtMs - nowMs), agentKeyId, Ascii("ed25519"),
                         None, None))
  }

  /**
   The answer always validates, is Rust's answer with the same window, is bound to its request, and is fresh until it
   expires.
   */
  lemma SwiftAnswerIsSound(q: SwiftRequest, decision: Decision, authMethod: SwiftMethod, nowMs: u64,
                           agentKeyId: bytes, h: Hash)
    requires SwiftForRequest(q, decision, authMethod, nowMs, agentKeyId, h).Ok?
    ensures var r := SwiftForRequest(q, decision, authMethod, nowMs, agentKeyId, h).value;
            && ToRustResponse(r).Some?
            && ValidateResponse(ToRustResponse(r).value).Pass?
            && Ok(ToRustResponse(r).value)
               == ForRequest(ToRustRequest(q).value, decision, ToRustMethod(authMethod), nowMs, r.expiresAtMs,
                             agentKeyId, h)
            && VerifyBinding(ToRustResponse(r).value, ToRustRequest(q).value, h).Pass?
            && r.expiresAtMs - r.createdAtMs == Min(RESPONSE_WINDOW_MS, q.expiresAtMs - nowMs)
            && (forall now: u64, skew: u64 ::
                 Fresh(r.createdAtMs, r.expiresAtMs, now, skew).Pass?
                 <==> now <= r.expiresAtMs && (nowMs <= now || nowMs - now <= skew))
  {
    var r := SwiftForRequest(q, decision, authMethod, nowMs, agentKeyId, h).value;
    assert Lowercased(Ascii("ed25519")) == Ascii("ed25519");
    var rust := ToRustRequest(q).value;
    assert rust.alg == Ed25519;
  }

  // ---- Monotonic deadlines (Transport.swift) ----

  /** `multipliedReportingOverflow` and `addingReportingOverflow`: the wrapped value and whether it wrapped. */
  function WrappingMul(a: u64, b: u64): (u64, bool) { ((a * b) % U64_LIMIT, a * b >= U64_LIMIT) }

  function WrappingAdd(a: u64, b: u64): (u64, bool) { ((a + b) % U64_LIMIT, a + b >= U64_LIMIT) }

  /** The end of a budget that starts at `uptimeNs`. */
  function DeadlineAfter(milliseconds: u64, uptimeNs: u64): u64 {
    var (duration, overflow) := WrappingMul(milliseconds, NS_PER_MS);
    var (end, endOverflow) := WrappingAdd(uptimeNs, duration);
    if overflow || endOverflow then U64_MAX else end
  }

  function Capped(deadline: u64, milliseconds: u64, uptimeNs: u64): u64 {
    Min(deadline, DeadlineAfter(milliseconds, uptimeNs))
  }

  /** Whatever wraps, the deadline is the ideal one clamped to 64 bits. */
  lemma DeadlineIsIdealClamped(milliseconds: u64, uptimeNs: u64)
    ensures DeadlineAfter(milliseconds, uptimeNs) == Min(uptimeNs + milliseconds * NS_PER_MS, U64_MAX)
  {
  }

  function RemainingMilliseconds(deadline: u64, uptimeNs: u64): int {
    if uptimeNs >= deadline then 0
    else Min(INT32_MAX, (deadline - uptimeNs - 1) / NS_PER_MS + 1)
  }

  /**
   The remaining time rounds up, so it is zero exactly from the deadline on; it is clamped to a signed 32-bit integer.
   */
  lemma RemainingIsCeilingClamped(deadline: u64, uptimeNs: u64)
    ensures var r := RemainingMilliseconds(deadline, uptimeNs);
            && 0 <= r <= INT32_MAX
            && (r > 0 <==> uptimeNs < deadline)
            && (0 < r ==> (r - 1) * NS_PER_MS < deadline - uptimeNs)
            && (0 < r < INT32_MAX ==> deadline - uptimeNs <= r * NS_PER_MS)
  {
  }
}
