/**
 The protocol with the agent's rate limiter in it: every connection asks the one limiter before it may ask the user,
 and the limiter's verdict decides which of the two it does (agent/Sources/MacosAuthAgent/main.swift).
 */
module LimitedAgent {
  import opened Bytes
  import opened Messages
  import opened Timing
  import opened Lifetimes
  import opened RateLimiting
  import Proto = Protocol
  import Auth = Coordinators

  datatype Limits = Limits(windowMs: u64, maxRequests: int)

  /**
   `events` is what the limiter stores. `asked` remembers, key by key, what the wall clock read whenever the limiter
   was asked, and `times` what it read when a connection was let through.
   */
  datatype State = State(proto: Proto.State, events: map<bytes, seq<u64>>, asked: map<bytes, seq<u64>>,
                         times: map<nat, u64>)

  const START := State(Proto.START, map[], map[], map[])

  datatype Action = Ask(now: u64, confirm: bool) | ProtoStep(step: Proto.Action)

  function KeyOf(q: Request): bytes { Key(q.hostId, q.service, q.user) }

  /** What the limiter says to a request, and what it then stores under its key. */
  function Verdict(s: State, q: Request, now: u64, l: Limits): (seq<u64>, bool) {
    RateLimiting.Step(Lookup(s.events, KeyOf(q)), now, l.windowMs, l.maxRequests)
  }

  function Apply(p: Proto.Setup, l: Limits, s: State, i: nat, a: Action): Option<State> {
    match a
    case Ask(now, confirm) => if i !in s.proto.conns then None else AskStep(p, l, s, i, now, confirm)
    case ProtoStep(action) =>
      if action.AgentAuthenticates? || action.AgentRateLimits? then None
      else
        match Proto.Apply(p, s.proto, i, action)
        case None => None
        case Some(proto) => Some(s.(proto := proto))
  }

  function AskStep(p: Proto.Setup, l: Limits, s: State, i: nat, now: u64, confirm: bool): Option<State>
    requires i in s.proto.conns
  {
    var q := s.proto.conns[i].request;
    var (after, ok) := Verdict(s, q, now, l);
    match Proto.Apply(p, s.proto, i, if ok then Proto.AgentAuthenticates(confirm) else Proto.AgentRateLimits)
    case None => None
    case Some(proto) => Some(Asked(s, proto, i, q, now, after, ok))
  }

  function Asked(s: State, proto: Proto.State, i: nat, q: Request, now: u64, after: seq<u64>, ok: bool): State {
    State(proto, s.events[KeyOf(q) := after], s.asked[KeyOf(q) := Lookup(s.asked, KeyOf(q)) + [now]],
          if ok then s.times[i := now] else s.times)
  }

  datatype Step = Step(who: nat, action: Action)

  function Run(p: Proto.Setup, l: Limits, steps: seq<Step>): Option<State> {
    if steps == [] then Some(START)
    else
      match Run(p, l, steps[..|steps| - 1])
      case None => None
      case Some(s) => Apply(p, l, s, steps[|steps| - 1].who, steps[|steps| - 1].action)
  }

  /** With the limiter in it, the protocol does nothing it did not do before. */
  lemma {:induction false} RunIsProtocolRun(p: Proto.Setup, l: Limits, steps: seq<Step>)
      returns (proto: seq<Proto.Step>)
    requires Run(p, l, steps).Some?
    ensures Proto.Run(p, proto) == Some(Run(p, l, steps).value.proto)
  {
    if steps == [] {
      proto := [];
    } else {
      var front, last := steps[..|steps| - 1], steps[|steps| - 1];
      proto := RunIsProtocolRun(p, l, front);
      var s := Run(p, l, front).value;
      var a := match last.action
        case Ask(now, confirm) =>
          if Verdict(s, s.proto.conns[last.who].request, now, l).1 then Proto.AgentAuthenticates(confirm)
          else Proto.AgentRateLimits
        case ProtoStep(action) => action;
      Proto.RunAppend(p, proto, Proto.Step(last.who, a));
      proto := proto + [Proto.Step(last.who, a)];
    }
  }

  // ---- Counting sessions ----

  /** The connections under this key that were let through to the user at readings from `lo` to `hi`. */
  function Sessions(s: State, key: bytes, lo: int, hi: int): set<nat> {
    set c | c in s.times && InInterval(s, c, key, lo, hi)
  }

  predicate InInterval(s: State, c: nat, key: bytes, lo: int, hi: int) {
    && c in s.times && lo <= s.times[c] <= hi
    && c in s.proto.auth.calls && KeyOf(s.proto.auth.calls[c].request) == key
  }

  /** Every call was let through, and the limiter's list is the one its questions under this key lead to. */
  predicate Tracked(s: State, l: Limits, key: bytes) {
    && s.times.Keys == s.proto.auth.calls.Keys
    && Lookup(s.events, key) == PrunedRun(Lookup(s.asked, key), l.windowMs, l.maxRequests).0
  }

  /** There are as many sessions in the interval as the limiter's questions under the key admit. */
  predicate Counted(s: State, l: Limits, key: bytes, lo: int, hi: int) {
    |Sessions(s, key, lo, hi)| == |Within(Admissions(Lookup(s.asked, key), l.windowMs, l.maxRequests), lo, hi)|
  }

  /** No other step makes a call or changes what a call is about. */
  lemma CallsStay(p: Proto.Setup, s: Proto.State, i: nat, a: Proto.Action)
    requires Proto.Apply(p, s, i, a).Some? && !a.AgentAuthenticates?
    ensures var t := Proto.Apply(p, s, i, a).value;
            && t.auth.calls.Keys == s.auth.calls.Keys
            && forall c :: c in s.auth.calls ==> t.auth.calls[c].request == s.auth.calls[c].request
  {
    if a.AuthStep? {
      Auth.NoNewCalls(s.auth, i, a.action);
      forall c | c in s.auth.calls
        ensures Auth.Apply(s.auth, i, a.action).value.calls[c].request == s.auth.calls[c].request
      {
        Auth.RequestIsFixed(s.auth, i, c, a.action);
      }
    }
  }

  lemma SessionsStay(s: State, t: State, key: bytes, lo: int, hi: int)
    requires t.times == s.times && t.proto.auth.calls.Keys == s.proto.auth.calls.Keys
    requires forall c :: c in s.proto.auth.calls ==> t.proto.auth.calls[c].request == s.proto.auth.calls[c].request
    ensures Sessions(t, key, lo, hi) == Sessions(s, key, lo, hi)
  {
    forall c: nat ensures InInterval(t, c, key, lo, hi) <==> InInterval(s, c, key, lo, hi) {
      assert c in t.proto.auth.calls.Keys <==> c in s.proto.auth.calls.Keys;
    }
  }

  lemma ProtoStepCounts(p: Proto.Setup, l: Limits, s: State, i: nat, a: Proto.Action, key: bytes, lo: int, hi: int)
    requires Tracked(s, l, key) && Counted(s, l, key, lo, hi) && Apply(p, l, s, i, ProtoStep(a)).Some?
    ensures var t := Apply(p, l, s, i, ProtoStep(a)).value; Tracked(t, l, key) && Counted(t, l, key, lo, hi)
  {
    CallsStay(p, s.proto, i, a);
    SessionsStay(s, Apply(p, l, s, i, ProtoStep(a)).value, key, lo, hi);
  }

  lemma OneMoreQuestion(times: seq<u64>, now: u64, l: Limits, lo: int, hi: int)
    ensures var (after, ok) := RateLimiting.Step(PrunedRun(times, l.windowMs, l.maxRequests).0, now, l.windowMs,
                                                 l.maxRequests);
            && PrunedRun(times + [now], l.windowMs, l.maxRequests).0 == after
            && |Within(Admissions(times + [now], l.windowMs, l.maxRequests), lo, hi)|
               == |Within(Admissions(times, l.windowMs, l.maxRequests), lo, hi)|
                  + if ok && lo <= now <= hi then 1 else 0
  {
    PrunedRunAppend(times, now, l.windowMs, l.maxRequests);
    AdmissionsAppend(times, now, l.windowMs, l.maxRequests);
    WithinAppend(Admissions(times, l.windowMs, l.maxRequests), now, lo, hi);
  }

  /** What asking does to the limiter's side of the count. */
  lemma QuestionTracked(s: State, t: State, q: Request, now: u64, l: Limits, key: bytes, lo: int, hi: int)
    requires var (after, ok) := Verdict(s, q, now, l);
             t.events == s.events[KeyOf(q) := after]
             && t.asked == s.asked[KeyOf(q) := Lookup(s.asked, KeyOf(q)) + [now]]
    requires Lookup(s.events, key) == PrunedRun(Lookup(s.asked, key), l.windowMs, l.maxRequests).0
    ensures Lookup(t.events, key) == PrunedRun(Lookup(t.asked, key), l.windowMs, l.maxRequests).0
    ensures |Within(Admissions(Lookup(t.asked, key), l.windowMs, l.maxRequests), lo, hi)|
            == |Within(Admissions(Lookup(s.asked, key), l.windowMs, l.maxRequests), lo, hi)|
               + if KeyOf(q) == key && Verdict(s, q, now, l).1 && lo <= now <= hi then 1 else 0
  {
    if KeyOf(q) == key { OneMoreQuestion(Lookup(s.asked, key), now, l, lo, hi); }
  }

  /** A refused connection leaves the calls alone. */
  lemma RefusalCounts(p: Proto.Setup, l: Limits, s: State, i: nat, now: u64, confirm: bool, key: bytes, lo: int,
                      hi: int)
    requires Tracked(s, l, key) && Counted(s, l, key, lo, hi) && i in s.proto.conns
    requires !Verdict(s, s.proto.conns[i].request, now, l).1 && AskStep(p, l, s, i, now, confirm).Some?
    ensures var t := AskStep(p, l, s, i, now, confirm).value; Tracked(t, l, key) && Counted(t, l, key, lo, hi)
  {
    var t := AskStep(p, l, s, i, now, confirm).value;
    CallsStay(p, s.proto, i, Proto.AgentRateLimits);
    SessionsStay(s, t, key, lo, hi);
    QuestionTracked(s, t, s.proto.conns[i].request, now, l, key, lo, hi);
  }

  lemma LetThroughCalls(p: Proto.Setup, s: Proto.State, i: nat, confirm: bool)
    requires Proto.Apply(p, s, i, Proto.AgentAuthenticates(confirm)).Some?
    ensures i in s.conns && i !in s.auth.calls
    ensures var t := Proto.Apply(p, s, i, Proto.AgentAuthenticates(confirm)).value;
            && t.auth.calls.Keys == s.auth.calls.Keys + {i} && t.auth.calls[i].request == s.conns[i].request
            && forall c :: c in s.auth.calls ==> t.auth.calls[c] == s.auth.calls[c]
  {
  }

  /** The sessions after one more was let through. */
  lemma OneMoreSession(s: State, t: State, i: nat, q: Request, now: u64, key: bytes, lo: int, hi: int)
    requires i !in s.proto.auth.calls && s.times.Keys == s.proto.auth.calls.Keys && t.times == s.times[i := now]
    requires t.proto.auth.calls.Keys == s.proto.auth.calls.Keys + {i} && t.proto.auth.calls[i].request == q
    requires forall c :: c in s.proto.auth.calls ==> t.proto.auth.calls[c] == s.proto.auth.calls[c]
    ensures |Sessions(t, key, lo, hi)|
            == |Sessions(s, key, lo, hi)| + if KeyOf(q) == key && lo <= now <= hi then 1 else 0
  {
    var counts := KeyOf(q) == key && lo <= now <= hi;
    assert i !in Sessions(s, key, lo, hi);
    forall c: nat ensures InInterval(t, c, key, lo, hi) <==> if c == i then counts else InInterval(s, c, key, lo, hi) {
      assert c in t.proto.auth.calls.Keys <==> c in s.proto.auth.calls.Keys || c == i;
    }
    WithOrWithout(Sessions(s, key, lo, hi), Sessions(t, key, lo, hi), i, counts);
  }

  lemma WithOrWithout(before: set<nat>, after: set<nat>, i: nat, more: bool)
    requires i !in before && forall c: nat :: c in after <==> if c == i then more else c in before
    ensures |after| == |before| + if more then 1 else 0
  {
    assert after == if more then before + {i} else before;
  }

  lemma AdmissionCounts(p: Proto.Setup, l: Limits, s: State, i: nat, now: u64, confirm: bool, key: bytes, lo: int,
                        hi: int)
    requires Tracked(s, l, key) && Counted(s, l, key, lo, hi) && i in s.proto.conns
    requires Verdict(s, s.proto.conns[i].request, now, l).1 && AskStep(p, l, s, i, now, confirm).Some?
    ensures var t := AskStep(p, l, s, i, now, confirm).value; Tracked(t, l, key) && Counted(t, l, key, lo, hi)
  {
    var t, q := AskStep(p, l, s, i, now, confirm).value, s.proto.conns[i].request;
    LetThroughCalls(p, s.proto, i, confirm);
    OneMoreSession(s, t, i, q, now, key, lo, hi);
    QuestionTracked(s, t, q, now, l, key, lo, hi);
  }

  lemma StepCounts(p: Proto.Setup, l: Limits, s: State, i: nat, a: Action, key: bytes, lo: int, hi: int)
    requires Tracked(s, l, key) && Counted(s, l, key, lo, hi) && Apply(p, l, s, i, a).Some?
    ensures var t := Apply(p, l, s, i, a).value; Tracked(t, l, key) && Counted(t, l, key, lo, hi)
  {
    match a
    case Ask(now, confirm) =>
      if Verdict(s, s.proto.conns[i].request, now, l).1 { AdmissionCounts(p, l, s, i, now, confirm, key, lo, hi); }
      else { RefusalCounts(p, l, s, i, now, confirm, key, lo, hi); }
    case ProtoStep(action) => ProtoStepCounts(p, l, s, i, action, key, lo, hi);
  }

  /** After every run the sessions under a key are exactly the admissions of the limiter for that key. */
  lemma {:induction false} RunCounts(p: Proto.Setup, l: Limits, steps: seq<Step>, key: bytes, lo: int, hi: int)
    requires Run(p, l, steps).Some?
    ensures Tracked(Run(p, l, steps).value, l, key) && Counted(Run(p, l, steps).value, l, key, lo, hi)
  {
    if steps == [] {
      assert Sessions(START, key, lo, hi) == {};
    } else {
      var front, last := steps[..|steps| - 1], steps[|steps| - 1];
      RunCounts(p, l, front, key, lo, hi);
      StepCounts(p, l, Run(p, l, front).value, last.who, last.action, key, lo, hi);
    }
  }

  /** The clock did not go back, or it does not matter. */
  predicate InOrder(times: seq<u64>, l: Limits) {
    Nondecreasing(times) || l.maxRequests == 1 || l.windowMs == U64_MAX
  }

  lemma CountedIsLimited(s: State, l: Limits, key: bytes, lo: int, hi: int)
    requires l.maxRequests > 0 && hi == lo + l.windowMs && Counted(s, l, key, lo, hi)
    requires InOrder(Lookup(s.asked, key), l)
    ensures |Sessions(s, key, lo, hi)| <= l.maxRequests
  {
    var times := Lookup(s.asked, key);
    if Nondecreasing(times) { WindowHoldsInOrder(times, l.windowMs, l.maxRequests, lo); }
    else { WindowHoldsAnyway(times, l.windowMs, l.maxRequests, lo); }
    assert WindowHolds(times, l.windowMs, l.maxRequests, lo);
  }

  /**
   However connections interleave, whatever the transport delivers: if the clock did not go back between the
   questions under one key, no closed interval as long as the window holds more sessions under that key than allowed.
   */
  lemma SessionsAreLimited(p: Proto.Setup, l: Limits, steps: seq<Step>, key: bytes, lo: int, hi: int)
    requires l.maxRequests > 0 && hi == lo + l.windowMs && Run(p, l, steps).Some?
    requires InOrder(Lookup(Run(p, l, steps).value.asked, key), l)
    ensures |Sessions(Run(p, l, steps).value, key, lo, hi)| <= l.maxRequests
  {
    RunCounts(p, l, steps, key, lo, hi);
    CountedIsLimited(Run(p, l, steps).value, l, key, lo, hi);
  }

  // ---- The condition is exact ----

  /** A request that is verified and fresh when it arrives, and passes its first check, at these readings. */
  datatype Arrival = Arrival(request: Request, admittedMs: u64, birth: Proto.Birth, reading: Reading)

  predicate Arrives(p: Proto.Setup, signed: Proto.Signatures, v: Arrival) {
    var key := Proto.VerifierKey(p, v.request.hostId);
    && key.Some? && Proto.SignedBy(signed, key.value, p.codec.request(v.request))
    && SwiftFresh(v.request.createdAtMs, v.request.expiresAtMs, v.admittedMs, p.skewMs).Pass?
    && Good(v.reading, Proto.DeadlineOf(Proto.NewConn(v.request, v.admittedMs, v.birth)), v.request.expiresAtMs)
  }

  /** No connection or call has a number from `from` on. */
  ghost predicate Unused(s: Proto.State, from: nat) {
    forall c: nat :: c >= from ==> c !in s.conns && c !in s.auth.calls
  }

  lemma Extend(p: Proto.Setup, l: Limits, steps: seq<Step>, s: State, i: nat, a: Action, t: State)
      returns (more: seq<Step>)
    requires Run(p, l, steps) == Some(s) && Apply(p, l, s, i, a) == Some(t)
    ensures Run(p, l, more) == Some(t)
  {
    more := steps + [Step(i, a)];
    assert more[..|steps|] == steps;
  }

  /** The request arrives on a new connection, and is about to ask the limiter. */
  lemma RequestArrives(p: Proto.Setup, l: Limits, steps: seq<Step>, s: State, c: nat, v: Arrival)
      returns (more: seq<Step>, begun: Proto.Conn)
    requires Run(p, l, steps) == Some(s) && c !in s.proto.conns && c !in s.proto.auth.calls
             && Arrives(p, s.proto.signed, v)
    ensures Run(p, l, more) == Some(s.(proto := s.proto.(conns := s.proto.conns[c := begun])))
    ensures begun.pc == Proto.Begun && begun.request == v.request
  {
    var admitted := Proto.NewConn(v.request, v.admittedMs, v.birth);
    begun := admitted.(pc := Proto.Begun, passed := 1, checked := Some(v.reading));
    var s1 := s.(proto := s.proto.(conns := s.proto.conns[c := admitted]));
    var s2 := s.(proto := s.proto.(conns := s.proto.conns[c := begun]));
    more := Extend(p, l, steps, s, c, ProtoStep(Proto.AgentAdmits(v.request, true, v.admittedMs, v.birth)), s1);
    assert s1.proto.conns[c := begun] == s2.proto.conns;
    more := Extend(p, l, more, s1, c, ProtoStep(Proto.AgentBegins(v.reading)), s2);
  }

  /** It can always ask. */
  lemma AskingIsPossible(p: Proto.Setup, l: Limits, s: State, c: nat, now: u64, confirm: bool)
    requires c in s.proto.conns && s.proto.conns[c].pc == Proto.Begun && c !in s.proto.auth.calls
    ensures AskStep(p, l, s, c, now, confirm).Some?
    ensures var t, key := AskStep(p, l, s, c, now, confirm).value, KeyOf(s.proto.conns[c].request);
            && t.asked == s.asked[key := Lookup(s.asked, key) + [now]] && t.proto.signed == s.proto.signed
            && t.proto.conns.Keys == s.proto.conns.Keys && t.proto.auth.calls.Keys <= s.proto.auth.calls.Keys + {c}
  {
  }

  /** A state that a run leads to, with connections from `from` on still to come and these readings asked about. */
  ghost predicate Leads(p: Proto.Setup, l: Limits, steps: seq<Step>, s: State, from: nat, signed: Proto.Signatures,
                        key: bytes, times: seq<u64>) {
    Run(p, l, steps) == Some(s) && Unused(s.proto, from) && s.proto.signed == signed && Lookup(s.asked, key) == times
  }

  /** The limiter is asked once more, by a new connection, at any reading. */
  lemma OneMoreAsks(p: Proto.Setup, l: Limits, steps: seq<Step>, s: State, c: nat, signed: Proto.Signatures,
                    v: Arrival, times: seq<u64>, now: u64) returns (more: seq<Step>, t: State)
    requires Leads(p, l, steps, s, c, signed, KeyOf(v.request), times) && Arrives(p, signed, v)
    ensures Leads(p, l, more, t, c + 1, signed, KeyOf(v.request), times + [now])
  {
    var begun: Proto.Conn;
    more, begun := RequestArrives(p, l, steps, s, c, v);
    var s1 := s.(proto := s.proto.(conns := s.proto.conns[c := begun]));
    AskingIsPossible(p, l, s1, c, now, false);
    t := AskStep(p, l, s1, c, now, false).value;
    more := Extend(p, l, more, s1, c, Ask(now, false), t);
  }

  /** One verified request, replayed by the transport, makes the limiter see any readings at all. */
  lemma {:induction false} AnyReadings(p: Proto.Setup, l: Limits, steps: seq<Step>, s: State, from: nat,
                                       signed: Proto.Signatures, v: Arrival, times: seq<u64>)
      returns (more: seq<Step>, t: State, c: nat)
    requires Leads(p, l, steps, s, from, signed, KeyOf(v.request), []) && Arrives(p, signed, v)
    ensures Leads(p, l, more, t, c, signed, KeyOf(v.request), times)
    decreases |times|
  {
    if times == [] {
      more, t, c := steps, s, from;
    } else {
      var front, now := times[..|times| - 1], times[|times| - 1];
      var u: State;
      more, u, c := AnyReadings(p, l, steps, s, from, signed, v, front);
      more, t := OneMoreAsks(p, l, more, u, c, signed, v, front, now);
      c := c + 1;
      assert front + [now] == times;
    }
  }

  lemma {:induction false} Bounded(ids: set<nat>) returns (from: nat)
    ensures forall c :: c in ids ==> c < from
    decreases |ids|
  {
    if ids == {} {
      from := 0;
    } else {
      var c :| c in ids;
      var rest := Bounded(ids - {c});
      from := if c < rest then rest else c + 1;
      forall d | d in ids ensures d < from { assert d == c || d in ids - {c}; }
    }
  }

  lemma UnusedFrom(s: Proto.State) returns (from: nat)
    ensures Unused(s, from)
  {
    var ids := s.conns.Keys + s.auth.calls.Keys;
    from := Bounded(ids);
    forall c: nat | c >= from ensures c !in s.conns && c !in s.auth.calls { assert c !in ids; }
  }

  predicate LimitHolds(p: Proto.Setup, l: Limits, steps: seq<Step>, key: bytes, lo: int) {
    Run(p, l, steps).Some? ==> |Sessions(Run(p, l, steps).value, key, lo, lo + l.windowMs)| <= l.maxRequests
  }

  lemma LimitHoldsAnyway(p: Proto.Setup, l: Limits, steps: seq<Step>, key: bytes, lo: int, hi: int)
    requires l.maxRequests == 1 || (l.maxRequests > 0 && l.windowMs == U64_MAX)
    requires hi == lo + l.windowMs
    ensures LimitHolds(p, l, steps, key, lo)
  {
    if Run(p, l, steps).Some? { SessionsAreLimited(p, l, steps, key, lo, hi); }
  }

  /** A clock that goes back breaks the limit. */
  lemma ClockBreaksLimit(p: Proto.Setup, l: Limits, steps: seq<Step>, v: Arrival) returns (more: seq<Step>)
    requires l.maxRequests >= 2 && l.windowMs < U64_MAX && Run(p, l, steps).Some?
    requires var s := Run(p, l, steps).value;
             Arrives(p, s.proto.signed, v) && Lookup(s.asked, KeyOf(v.request)) == []
    ensures !LimitHolds(p, l, more, KeyOf(v.request), 0)
  {
    var s, key := Run(p, l, steps).value, KeyOf(v.request);
    var times := Zeros(l.maxRequests) + [U64_MAX] + [0];
    var from := UnusedFrom(s.proto);
    var t: State, c: nat;
    more, t, c := AnyReadings(p, l, steps, s, from, s.proto.signed, v, times);
    var lo, hi := 0, l.windowMs;
    RunCounts(p, l, more, key, lo, hi);
    WindowOverflows(U64_MAX, l.windowMs, l.maxRequests);
  }

  /**
   From any run in which a request has been signed that the agent would serve, and whose key the limiter was not asked
   about yet: the limit holds in every window of every run, on all clock readings, exactly if it is one or the window
   is the widest.
   */
  lemma LimitIsExact(p: Proto.Setup, l: Limits, steps: seq<Step>, v: Arrival)
    requires l.maxRequests > 0 && Run(p, l, steps).Some?
    requires var s := Run(p, l, steps).value;
             Arrives(p, s.proto.signed, v) && Lookup(s.asked, KeyOf(v.request)) == []
    ensures (forall more, lo :: LimitHolds(p, l, more, KeyOf(v.request), lo)) <==>
              l.maxRequests == 1 || l.windowMs == U64_MAX
  {
    if l.maxRequests == 1 || l.windowMs == U64_MAX {
      forall more, lo ensures LimitHolds(p, l, more, KeyOf(v.request), lo) {
        LimitHoldsAnyway(p, l, more, KeyOf(v.request), lo, lo + l.windowMs);
      }
    } else {
      var more := ClockBreaksLimit(p, l, steps, v);
    }
  }
}
