/** How long a request may live in the agent: `RequestLifetime` of agent/Sources/MacosAuthAgent/Transport.swift. */
module Lifetimes {
  import opened Bytes
  import opened Timing

  const CONNECTION_MS: u64 := 15_000

  /** Peeking one byte: nothing to read (or interrupted), trailing data, end of file, or another error. */
  datatype Peek = Quiet | TrailingData | PeerClosed | PeekError

  /** What one check reads: both clocks and the socket. */
  datatype Reading = Reading(uptimeNs: u64, wallMs: u64, peek: Peek)

  datatype Event = CheckAt(reading: Reading) | Cancelled

  /**
   A check reads the wall clock and the socket only if the earlier tests pass; reading them anyway changes nothing.
   */
  predicate Good(r: Reading, deadline: u64, expiresAtMs: u64) {
    RemainingMilliseconds(deadline, r.uptimeNs) > 0 && r.wallMs < expiresAtMs && r.peek == Quiet
  }

  predicate GoodEvent(e: Event, deadline: u64, expiresAtMs: u64) {
    e.CheckAt? && Good(e.reading, deadline, expiresAtMs)
  }

  /** Nothing but good checks so far. */
  predicate Alive(log: seq<Event>, deadline: u64, expiresAtMs: u64) {
    forall i :: 0 <= i < |log| ==> GoodEvent(log[i], deadline, expiresAtMs)
  }

  /** The deadline fixed when the lifetime is created. */
  function LifetimeDeadline(connectionDeadline: u64, expiresAtMs: u64, wallMs: u64, uptimeNs: u64): u64 {
    Capped(connectionDeadline, if expiresAtMs > wallMs then expiresAtMs - wallMs else 0, uptimeNs)
  }

  /** The object; `log` is the ghost list of everything that was done to it, across all threads that share it. */
  class RequestLifetime {
    const deadline: u64
    const expiresAtMs: u64
    var cancelled: bool
    ghost var log: seq<Event>

    ghost predicate Valid()
      reads this
    {
      cancelled <==> !Alive(log, deadline, expiresAtMs)
    }

    constructor (expiresAtMs: u64, connectionDeadline: u64, wallMs: u64, uptimeNs: u64)
      ensures Valid() && !cancelled && log == []
      ensures this.expiresAtMs == expiresAtMs
      ensures deadline == LifetimeDeadline(connectionDeadline, expiresAtMs, wallMs, uptimeNs)
    {
      this.expiresAtMs := expiresAtMs;
      deadline := Capped(connectionDeadline, if expiresAtMs > wallMs then expiresAtMs - wallMs else 0, uptimeNs);
      cancelled := false;
      log := [];
    }

    /**
     Succeeds exactly when this check and everything before it was a good check; otherwise every later check fails
     too.
     */
    method Check(r: Reading) returns (ok: bool)
      requires Valid()
      modifies this`cancelled, this`log
      ensures Valid() && log == old(log) + [CheckAt(r)]
      ensures ok == Alive(log, deadline, expiresAtMs)
    {
      log := log + [CheckAt(r)];
      assert Alive(log, deadline, expiresAtMs) <==>
               Alive(old(log), deadline, expiresAtMs)
               && Good(r, deadline, expiresAtMs) by {
        AliveAppend(old(log), CheckAt(r), deadline, expiresAtMs);
      }
      if cancelled { return false; }
      if RemainingMilliseconds(deadline, r.uptimeNs) <= 0 { cancelled := true; return false; }
      if r.wallMs >= expiresAtMs { cancelled := true; return false; }
      if r.peek != Quiet { cancelled := true; return false; }
      return true;
    }

    method Cancel()
      requires Valid()
      modifies this`cancelled, this`log
      ensures Valid() && cancelled && log == old(log) + [Cancelled]
    {
      cancelled := true;
      log := log + [Cancelled];
      AliveAppend(old(log), Cancelled, deadline, expiresAtMs);
    }
  }

  lemma AliveAppend(log: seq<Event>, e: Event, deadline: u64, expiresAtMs: u64)
    ensures Alive(log + [e], deadline, expiresAtMs) <==>
              Alive(log, deadline, expiresAtMs)
              && GoodEvent(e, deadline, expiresAtMs)
  {
    var more := log + [e];
    assert more[|log|] == e;
    assert forall i :: 0 <= i < |log| ==> more[i] == log[i];
  }

  /** Once something failed, no continuation brings the lifetime back, however the clocks move. */
  lemma FailureIsTerminal(log: seq<Event>, more: seq<Event>, deadline: u64, expiresAtMs: u64)
    requires !Alive(log, deadline, expiresAtMs)
    ensures !Alive(log + more, deadline, expiresAtMs)
  {
    var i :| 0 <= i < |log| && !GoodEvent(log[i], deadline, expiresAtMs);
    assert (log + more)[i] == log[i];
  }

  /**
   A single good check, of a lifetime created for a connection accepted at `acceptedNs`, reads a wall clock before
   the signed expiry, and an uptime before both the connection's 15 s and the instant the expiry meant at creation.
   */
  lemma GoodCheckBound(acceptedNs: u64, createdNs: u64, createdWallMs: u64, expiresAtMs: u64, r: Reading)
    requires Good(r, LifetimeDeadline(DeadlineAfter(CONNECTION_MS, acceptedNs), expiresAtMs, createdWallMs,
                                      createdNs), expiresAtMs)
    ensures r.uptimeNs < acceptedNs + CONNECTION_MS * NS_PER_MS
    ensures r.uptimeNs < createdNs + Max(0, expiresAtMs - createdWallMs) * NS_PER_MS
    ensures r.wallMs < expiresAtMs && r.peek == Quiet
  {
    var remaining: u64 := if expiresAtMs > createdWallMs then expiresAtMs - createdWallMs else 0;
    DeadlineIsIdealClamped(CONNECTION_MS, acceptedNs);
    DeadlineIsIdealClamped(remaining, createdNs);
    var deadline := LifetimeDeadline(DeadlineAfter(CONNECTION_MS, acceptedNs), expiresAtMs, createdWallMs, createdNs);
    RemainingIsCeilingClamped(deadline, r.uptimeNs);
  }

  /**
   Every check of a live lifetime happened before the connection's 15 s were over and before the monotonic
   instant that the signed expiry meant when the lifetime was created. No later wall reading enters the bound.
   */
  lemma LifetimeBound(acceptedNs: u64, createdNs: u64, createdWallMs: u64, expiresAtMs: u64, log: seq<Event>, k: nat)
    requires k < |log|
    requires Alive(log, LifetimeDeadline(DeadlineAfter(CONNECTION_MS, acceptedNs), expiresAtMs, createdWallMs,
                                         createdNs), expiresAtMs)
    ensures log[k].CheckAt?
    ensures log[k].reading.uptimeNs < acceptedNs + CONNECTION_MS * NS_PER_MS
    ensures log[k].reading.uptimeNs < createdNs + Max(0, expiresAtMs - createdWallMs) * NS_PER_MS
    ensures log[k].reading.wallMs < expiresAtMs
  {
    var deadline := LifetimeDeadline(DeadlineAfter(CONNECTION_MS, acceptedNs), expiresAtMs, createdWallMs, createdNs);
    assert GoodEvent(log[k], deadline, expiresAtMs);
    GoodCheckBound(acceptedNs, createdNs, createdWallMs, expiresAtMs, log[k].reading);
  }
}
