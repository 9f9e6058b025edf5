/**
 The protocol and the replay cache together: helpers that share one marker directory record the answer they accepted
 between their two checks, and finish only if the recording succeeded (crates/helper/src/main.rs).
 */
module SharedCache {
  import opened Bytes
  import opened Messages
  import opened Binding
  import Proto = Protocol
  import Cache = ReplayMarkers
  import Runs = HelperRuns
  import opened MarkerTexts

  /** `markers` remembers, for each helper, the marker name of the signature it received: the digest of its bytes. */
  datatype State = State(proto: Proto.State, cache: Cache.State, markers: map<nat, Cache.Name>)

  const START := State(Proto.START, Cache.EMPTY, map[])

  datatype Action =
    | Receive(response: Response, signatureValid: bool, marker: Cache.Name)
    | Record(name: Cache.Name, now: u64)
    | CacheStep(action: Cache.Action)
    | Finish(instant: nat, wallMs: u64)
    | ProtoStep(step: Proto.Action)

  /** The helper has an accepted, fresh answer under this marker name. */
  predicate MayRecord(s: State, i: nat, name: Cache.Name, expiry: Cache.Expiry) {
    && i in s.proto.helpers && s.proto.helpers[i].pc.Fresh? && i in s.markers && s.markers[i] == name
    && expiry(name) == s.proto.helpers[i].pc.answer.expiresAtMs
  }

  function ApplyProto(p: Proto.Setup, s: State, i: nat, a: Proto.Action): Option<State> {
    match Proto.Apply(p, s.proto, i, a)
    case None => None
    case Some(proto) => Some(s.(proto := proto))
  }

  function ApplyCache(s: State, i: nat, a: Cache.Action, expiry: Cache.Expiry): Option<State> {
    match Cache.Apply(s.cache, i, a, expiry)
    case None => None
    case Some(cache) => Some(s.(cache := cache))
  }

  function Apply(p: Proto.Setup, s: State, i: nat, a: Action, expiry: Cache.Expiry): Option<State> {
    match a
    case Receive(r, valid, marker) =>
      (match ApplyProto(p, s, i, Proto.HelperReceives(r, valid))
       case None => None
       case Some(t) => Some(t.(markers := t.markers[i := marker])))
    case Record(name, now) =>
      if MayRecord(s, i, name, expiry) then ApplyCache(s, i, Cache.Start(name, now), expiry) else None
    case CacheStep(action) => if action.Start? then None else ApplyCache(s, i, action, expiry)
    case Finish(instant, wall) =>
      if i !in s.cache.helpers || !s.cache.helpers[i].pc.Recorded? then None
      else ApplyProto(p, s, i, Proto.HelperFinishes(instant, wall))
    case ProtoStep(action) =>
      if action.HelperReceives? || action.HelperFinishes? then None else ApplyProto(p, s, i, action)
  }

  // ---- What always holds ----

  /** A recording is of the helper's own marker, after it received its answer; a decision is reported only after it. */
  predicate HelperOk(s: State, h: nat) {
    && (h in s.cache.helpers ==>
          && h in s.proto.helpers && !s.proto.helpers[h].pc.Awaiting?
          && h in s.markers && s.cache.helpers[h].name == s.markers[h])
    && (Proto.Concluded(s.proto, h) ==> h in s.cache.helpers && s.cache.helpers[h].pc.Recorded?)
  }

  ghost predicate Inv(s: State) { forall h :: HelperOk(s, h) }

  /** No step but the last makes a helper report a decision, and none makes it wait for its answer again. */
  lemma ProtoStepKeeps(p: Proto.Setup, s: Proto.State, i: nat, a: Proto.Action, h: nat)
    requires Proto.Apply(p, s, i, a).Some?
    ensures var t := Proto.Apply(p, s, i, a).value;
            && (h in s.helpers && !s.helpers[h].pc.Awaiting? ==> h in t.helpers && !t.helpers[h].pc.Awaiting?)
            && (!a.HelperFinishes? || h != i ==> (Proto.Concluded(t, h) ==> Proto.Concluded(s, h)))
            && (a.HelperReceives? && h == i ==> h in s.helpers && s.helpers[h].pc.Awaiting?)
  {
  }

  /** A recording keeps its name, and once done stays done. */
  lemma CacheStepKeeps(s: Cache.State, i: nat, a: Cache.Action, expiry: Cache.Expiry, h: nat)
    requires Cache.Apply(s, i, a, expiry).Some? && h in s.helpers
    ensures var t := Cache.Apply(s, i, a, expiry).value;
            && h in t.helpers && t.helpers[h].name == s.helpers[h].name
            && (s.helpers[h].pc.Recorded? ==> t.helpers[h].pc.Recorded?)
  {
  }

  lemma StepKeeps(p: Proto.Setup, s: State, i: nat, a: Action, expiry: Cache.Expiry)
    requires Inv(s) && Apply(p, s, i, a, expiry).Some?
    ensures Inv(Apply(p, s, i, a, expiry).value)
  {
    var t := Apply(p, s, i, a, expiry).value;
    forall h ensures HelperOk(t, h) {
      assert HelperOk(s, h);
      match a
      case Receive(r, valid, marker) => ProtoStepKeeps(p, s.proto, i, Proto.HelperReceives(r, valid), h);
      case Record(name, now) =>
        if h in s.cache.helpers { CacheStepKeeps(s.cache, i, Cache.Start(name, now), expiry, h); }
      case CacheStep(action) => if h in s.cache.helpers { CacheStepKeeps(s.cache, i, action, expiry, h); }
      case Finish(instant, wall) => ProtoStepKeeps(p, s.proto, i, Proto.HelperFinishes(instant, wall), h);
      case ProtoStep(action) => ProtoStepKeeps(p, s.proto, i, action, h);
    }
  }

  // ---- Whole runs ----

  datatype Step = Step(who: nat, action: Action)

  function Run(p: Proto.Setup, steps: seq<Step>, expiry: Cache.Expiry): Option<State> {
    if steps == [] then Some(START)
    else
      match Run(p, steps[..|steps| - 1], expiry)
      case None => None
      case Some(s) => Apply(p, s, steps[|steps| - 1].who, steps[|steps| - 1].action, expiry)
  }

  /** Every such run is a run of the protocol beside a run of the cache. */
  lemma {:induction false} RunsTogether(p: Proto.Setup, steps: seq<Step>, expiry: Cache.Expiry)
      returns (proto: seq<Proto.Step>, cache: seq<Cache.Step>)
    requires Run(p, steps, expiry).Some?
    ensures Inv(Run(p, steps, expiry).value)
    ensures Proto.Run(p, proto) == Some(Run(p, steps, expiry).value.proto)
    ensures Cache.Run(cache, expiry) == Some(Run(p, steps, expiry).value.cache)
  {
    if steps == [] {
      proto, cache := [], [];
    } else {
      var front, last := steps[..|steps| - 1], steps[|steps| - 1];
      proto, cache := RunsTogether(p, front, expiry);
      var s := Run(p, front, expiry).value;
      StepKeeps(p, s, last.who, last.action, expiry);
      match last.action
      case Receive(r, valid, _) => proto := OneMore(p, proto, s.proto, last.who, Proto.HelperReceives(r, valid));
      case Record(name, now) => cache := Cache.Extend(cache, s.cache, last.who, Cache.Start(name, now), expiry);
      case CacheStep(action) => cache := Cache.Extend(cache, s.cache, last.who, action, expiry);
      case Finish(instant, wall) => proto := OneMore(p, proto, s.proto, last.who, Proto.HelperFinishes(instant, wall));
      case ProtoStep(action) => proto := OneMore(p, proto, s.proto, last.who, action);
    }
  }

  lemma OneMore(p: Proto.Setup, steps: seq<Proto.Step>, s: Proto.State, i: nat, a: Proto.Action)
        returns (more: seq<Proto.Step>)
    requires Proto.Run(p, steps) == Some(s) && Proto.Apply(p, s, i, a).Some?
    ensures Proto.Run(p, more) == Proto.Apply(p, s, i, a)
  {
    more := steps + [Proto.Step(i, a)];
    Proto.RunAppend(p, steps, Proto.Step(i, a));
  }

  /**
   Of all helpers that share a cache, at most one reports a decision on a given signature, however the protocol and
   the recordings interleave, while no cleanup clock has passed the expiry of the answer.
   */
  lemma OneDecisionPerSignature(p: Proto.Setup, steps: seq<Step>, expiry: Cache.Expiry, h1: nat, h2: nat)
    requires Run(p, steps, expiry).Some?
    requires var s := Run(p, steps, expiry).value;
             && Proto.Concluded(s.proto, h1) && Proto.Concluded(s.proto, h2)
             && h1 in s.markers && h2 in s.markers && s.markers[h1] == s.markers[h2]
             && Cache.ClocksUpTo(s.cache, expiry(s.markers[h1]))
    ensures h1 == h2
  {
    var s := Run(p, steps, expiry).value;
    var proto, cache := RunsTogether(p, steps, expiry);
    assert HelperOk(s, h1) && HelperOk(s, h2);
    var n := s.markers[h1];
    Cache.RecordedAtMostOnce(cache, expiry, n);
    assert Cache.RecordedBy(s.cache, h1, n) && Cache.RecordedBy(s.cache, h2, n);
  }

  // ---- The condition on the clocks is exact ----

  /** What the clocks read when a helper checks its answer and when it finishes. */
  datatype Times = Times(instant: nat, checkMs: u64, finalMs: u64)

  /** Helper `h` waits, and the approval `r` is signed, bound to its request, and still good at these times. */
  predicate CanApprove(p: Proto.Setup, s: Proto.State, h: nat, r: Response, t: Times) {
    && h in s.helpers && s.helpers[h].pc.Awaiting? && r.decision == Approved
    && Proto.SignedBy(s.signed, p.agentKey, p.codec.response(r)) && p.codec.binds(r, s.helpers[h].request)
    && t.instant < s.helpers[h].deadline
    && Runs.RequestFresh(s.helpers[h].request, t.checkMs, s.helpers[h].skewMs)
    && Runs.ResponseFresh(r, t.checkMs, s.helpers[h].skewMs)
    && Runs.RequestFresh(s.helpers[h].request, t.finalMs, s.helpers[h].skewMs)
  }

  lemma Extend(p: Proto.Setup, steps: seq<Step>, s: State, i: nat, a: Action, expiry: Cache.Expiry, t: State)
      returns (more: seq<Step>)
    requires Run(p, steps, expiry) == Some(s) && Apply(p, s, i, a, expiry) == Some(t)
    ensures Run(p, more, expiry) == Some(t)
  {
    more := steps + [Step(i, a)];
    assert more[..|steps|] == steps;
  }

  /** The helper has its answer and has found it fresh. */
  function Checked(s: Proto.State, h: nat, r: Response, t: Times): Proto.State
    requires h in s.helpers
  {
    s.(helpers := s.helpers[h := s.helpers[h].(pc := Proto.Fresh(r), accepted := Some(r), checkedMs := t.checkMs)])
  }

  lemma ChecksAnswer(p: Proto.Setup, steps: seq<Step>, s: State, h: nat, r: Response, n: Cache.Name, t: Times,
                     expiry: Cache.Expiry) returns (more: seq<Step>)
    requires Run(p, steps, expiry) == Some(s) && CanApprove(p, s.proto, h, r, t)
    ensures Run(p, more, expiry) == Some(s.(proto := Checked(s.proto, h, r, t), markers := s.markers[h := n]))
  {
    var received := s.proto.helpers[h].(pc := Proto.Verified(r), accepted := Some(r));
    var s1 := s.(proto := s.proto.(helpers := s.proto.helpers[h := received]), markers := s.markers[h := n]);
    more := Extend(p, steps, s, h, Receive(r, true, n), expiry, s1);
    var s2 := s.(proto := Checked(s.proto, h, r, t), markers := s.markers[h := n]);
    assert s1.proto.helpers[h := s2.proto.helpers[h]] == s2.proto.helpers;
    more := Extend(p, more, s1, h, ProtoStep(Proto.HelperChecks(t.instant, t.checkMs)), expiry, s2);
  }

  lemma ExtendCache(p: Proto.Setup, steps: seq<Step>, s: State, i: nat, a: Cache.Action, expiry: Cache.Expiry,
                    cache: Cache.State) returns (more: seq<Step>)
    requires Run(p, steps, expiry) == Some(s) && !a.Start? && Cache.Apply(s.cache, i, a, expiry) == Some(cache)
    ensures Run(p, more, expiry) == Some(s.(cache := cache))
  {
    more := Extend(p, steps, s, i, CacheStep(a), expiry, s.(cache := cache));
  }

  /** Cleaning up first, if there is an expired marker of that name. */
  lemma CleansUp(p: Proto.Setup, steps: seq<Step>, s: State, i: nat, n: Cache.Name, expiry: Cache.Expiry)
      returns (more: seq<Step>)
    requires Run(p, steps, expiry) == Some(s) && i in s.cache.helpers && s.cache.helpers[i].pc == Cache.Cleaning(None)
    requires n in s.cache.dir ==> Cache.ReadsAsExpired(s.cache, n, s.cache.helpers[i].now, expiry)
    ensures Run(p, more, expiry) == Some(s.(cache := s.cache.(dir := s.cache.dir - {n})))
  {
    more := steps;
    if n in s.cache.dir {
      var c1 := Cache.Put(s.cache, i, Cache.Cleaning(Some(n)));
      more := ExtendCache(p, more, s, i, Cache.Inspect(n), expiry, c1);
      var c2 := s.cache.(dir := s.cache.dir - {n});
      assert Cache.Put(c1.(dir := c1.dir - {n}), i, Cache.Cleaning(None)).helpers == c2.helpers;
      more := ExtendCache(p, more, s.(cache := c1), i, Cache.Unlink, expiry, c2);
    } else {
      assert s.cache.dir - {n} == s.cache.dir;
    }
  }

  /** The marker is created, still empty. */
  lemma CreatesMarker(p: Proto.Setup, steps: seq<Step>, s: State, i: nat, expiry: Cache.Expiry)
      returns (more: seq<Step>)
    requires Run(p, steps, expiry) == Some(s) && i in s.cache.helpers && s.cache.helpers[i].pc == Cache.Cleaning(None)
    requires s.cache.helpers[i].name !in s.cache.dir
    ensures Run(p, more, expiry) == Some(s.(cache := Cache.Created(s.cache, i)))
  {
    var creating := Cache.Put(s.cache, i, Cache.Creating);
    more := ExtendCache(p, steps, s, i, Cache.FinishCleanup, expiry, creating);
    assert Cache.Created(creating, i).helpers == Cache.Created(s.cache, i).helpers;
    more := ExtendCache(p, more, s.(cache := creating), i, Cache.Create, expiry, Cache.Created(s.cache, i));
  }

  /** One write into it. */
  lemma WritesPiece(p: Proto.Setup, steps: seq<Step>, s: State, i: nat, k: nat, next: Cache.Pc, expiry: Cache.Expiry)
      returns (more: seq<Step>)
    requires i in s.cache.helpers && k <= 2 && next == if k == 2 then Cache.Recorded else Cache.Writing(k + 1)
    requires Run(p, steps, expiry) == Some(s.(cache := Cache.Put(s.cache, i, Cache.Writing(k))))
    ensures Run(p, more, expiry) == Some(s.(cache := Cache.Put(s.cache, i, next)))
  {
    var now := s.(cache := Cache.Put(s.cache, i, Cache.Writing(k)));
    assert Cache.Put(now.cache, i, next) == Cache.Put(s.cache, i, next);
    more := ExtendCache(p, steps, now, i, Cache.WritePiece, expiry, Cache.Put(s.cache, i, next));
  }

  /** A marker that is not there is created and written in full. */
  lemma RecordsMarker(p: Proto.Setup, steps: seq<Step>, s: State, i: nat, expiry: Cache.Expiry)
      returns (more: seq<Step>)
    requires Run(p, steps, expiry) == Some(s) && i in s.cache.helpers && s.cache.helpers[i].pc == Cache.Cleaning(None)
    requires s.cache.helpers[i].name !in s.cache.dir
    ensures Run(p, more, expiry)
            == Some(s.(cache := Cache.State(s.cache.dir[s.cache.helpers[i].name := i],
                                            s.cache.helpers[i := s.cache.helpers[i].(pc := Cache.Recorded)])))
  {
    more := CreatesMarker(p, steps, s, i, expiry);
    var created := s.(cache := Cache.Created(s.cache, i));
    assert Cache.Put(created.cache, i, Cache.Writing(0)) == created.cache;
    more := WritesPiece(p, more, created, i, 0, Cache.Writing(1), expiry);
    more := WritesPiece(p, more, created, i, 1, Cache.Writing(2), expiry);
    more := WritesPiece(p, more, created, i, 2, Cache.Recorded, expiry);
    assert Cache.Put(created.cache, i, Cache.Recorded).helpers
        == s.cache.helpers[i := s.cache.helpers[i].(pc := Cache.Recorded)];
  }

  /** The state after helper `h` has approved, with its marker recorded by a cleanup clock that read `now`. */
  function AfterApproval(s: State, h: nat, r: Response, n: Cache.Name, now: u64, t: Times): State
    requires h in s.proto.helpers
  {
    State(s.proto.(helpers := s.proto.helpers[h := Done(s.proto.helpers[h], r, t)]),
          Cache.State(s.cache.dir[n := h], s.cache.helpers[h := Cache.Helper(n, now, Cache.Recorded)]),
          s.markers[h := n])
  }

  function Done(h: Proto.Helper, r: Response, t: Times): Proto.Helper {
    h.(pc := Proto.Exited(Runs.EXIT_APPROVED, t.instant, t.finalMs), accepted := Some(r), checkedMs := t.checkMs)
  }

  /** From the fresh answer to the recorded marker. */
  lemma RecordsAnswer(p: Proto.Setup, steps: seq<Step>, s: State, h: nat, n: Cache.Name, now: u64,
                      expiry: Cache.Expiry) returns (more: seq<Step>)
    requires Run(p, steps, expiry) == Some(s) && MayRecord(s, h, n, expiry) && h !in s.cache.helpers
    requires n in s.cache.dir ==> Cache.ReadsAsExpired(s.cache, n, now, expiry)
    ensures Run(p, more, expiry)
            == Some(s.(cache := Cache.State(s.cache.dir[n := h],
                                            s.cache.helpers[h := Cache.Helper(n, now, Cache.Recorded)])))
  {
    var started := Cache.Helper(n, now, Cache.Cleaning(None));
    var s1 := s.(cache := s.cache.(helpers := s.cache.helpers[h := started]));
    more := Extend(p, steps, s, h, Record(n, now), expiry, s1);
    more := CleansUp(p, more, s1, h, n, expiry);
    var s2 := s1.(cache := s1.cache.(dir := s1.cache.dir - {n}));
    more := RecordsMarker(p, more, s2, h, expiry);
    assert s2.cache.dir[n := h] == s.cache.dir[n := h];
    assert s1.cache.helpers[h := started.(pc := Cache.Recorded)]
        == s.cache.helpers[h := Cache.Helper(n, now, Cache.Recorded)];
  }

  lemma FinishStep(p: Proto.Setup, s: State, h: nat, r: Response, t: Times, expiry: Cache.Expiry)
    requires h in s.cache.helpers && s.cache.helpers[h].pc.Recorded? && h in s.proto.helpers && r.decision == Approved
    requires var helper := s.proto.helpers[h];
             && helper.pc == Proto.Fresh(r) && helper.accepted == Some(r) && helper.checkedMs == t.checkMs
             && t.instant < helper.deadline && Runs.RequestFresh(helper.request, t.finalMs, helper.skewMs)
    ensures Apply(p, s, h, Finish(t.instant, t.finalMs), expiry)
            == Some(s.(proto := s.proto.(helpers := s.proto.helpers[h := Done(s.proto.helpers[h], r, t)])))
  {
  }

  /** A helper that can approve does, if there is no marker of that name or its cleanup clock reads it as expired. */
  lemma HelperApproves(p: Proto.Setup, steps: seq<Step>, s: State, h: nat, r: Response, n: Cache.Name, now: u64,
                       t: Times, expiry: Cache.Expiry) returns (more: seq<Step>)
    requires Run(p, steps, expiry) == Some(s) && CanApprove(p, s.proto, h, r, t)
    requires h !in s.cache.helpers && expiry(n) == r.expiresAtMs
    requires n in s.cache.dir ==> Cache.ReadsAsExpired(s.cache, n, now, expiry)
    ensures Run(p, more, expiry) == Some(AfterApproval(s, h, r, n, now, t))
  {
    more := ChecksAnswer(p, steps, s, h, r, n, t, expiry);
    var s1 := s.(proto := Checked(s.proto, h, r, t), markers := s.markers[h := n]);
    more := RecordsAnswer(p, more, s1, h, n, now, expiry);
    var after := AfterApproval(s, h, r, n, now, t);
    FinishStep(p, s1.(cache := after.cache), h, r, t, expiry);
    assert s1.proto.helpers[h := Done(s.proto.helpers[h], r, t)] == after.proto.helpers;
    more := Extend(p, more, s1.(cache := after.cache), h, Finish(t.instant, t.finalMs), expiry, after);
  }

  /** Two helpers with one request can both approve on the same signed answer, none of whose markers is there yet. */
  predicate TwoCanApprove(p: Proto.Setup, s: State, h1: nat, h2: nat, r: Response, n: Cache.Name, t1: Times, t2: Times,
                          expiry: Cache.Expiry) {
    && h1 != h2 && CanApprove(p, s.proto, h1, r, t1) && CanApprove(p, s.proto, h2, r, t2)
    && h1 !in s.cache.helpers && h2 !in s.cache.helpers && n !in s.cache.dir && expiry(n) == r.expiresAtMs
  }

  /** Both report a decision on the signature named `n`. */
  predicate BothDecide(s: State, a: nat, b: nat, n: Cache.Name) {
    && Proto.Concluded(s.proto, a) && Proto.Concluded(s.proto, b)
    && a in s.markers && b in s.markers && s.markers[a] == n && s.markers[b] == n
  }

  /** They do in this run, and its cleanup clocks stay within the bound. */
  ghost predicate DecideWithin(p: Proto.Setup, steps: seq<Step>, expiry: Cache.Expiry, bound: u64, a: nat, b: nat,
                               n: Cache.Name) {
    && Run(p, steps, expiry).Some? && Cache.ClocksUpTo(Run(p, steps, expiry).value.cache, bound)
    && BothDecide(Run(p, steps, expiry).value, a, b, n)
  }

  /** A late cleanup in between lets both approve. */
  lemma LateCleanupApprovesTwice(p: Proto.Setup, steps: seq<Step>, s: State, h1: nat, h2: nat, r: Response,
                                 n: Cache.Name, bound: u64, t1: Times, t2: Times, expiry: Cache.Expiry)
      returns (more: seq<Step>, t: State)
    requires Run(p, steps, expiry) == Some(s) && TwoCanApprove(p, s, h1, h2, r, n, t1, t2, expiry)
    requires Cache.ClocksUpTo(s.cache, bound) && expiry(n) < bound
    ensures Run(p, more, expiry) == Some(t) && Cache.ClocksUpTo(t.cache, bound)
    ensures BothDecide(t, h1, h2, n) && Proto.Approves(t.proto, h1) && Proto.Approves(t.proto, h2)
  {
    more := HelperApproves(p, steps, s, h1, r, n, 0, t1, expiry);
    var once := AfterApproval(s, h1, r, n, 0, t1);
    MarkerRoundTrip(expiry(n), 3);
    assert Cache.ReadsAsExpired(once.cache, n, bound, expiry);
    more := HelperApproves(p, more, once, h2, r, n, bound, t2, expiry);
    t := AfterApproval(once, h2, r, n, bound, t2);
  }

  /**
   From any state in which two helpers could approve on one signed answer: at most one helper reports a decision on
   that answer in every run whose cleanup clocks stay within a bound, exactly if the bound is no later than the
   answer's expiry.
   */
  lemma OneDecisionExactly(p: Proto.Setup, steps: seq<Step>, h1: nat, h2: nat, r: Response, n: Cache.Name, bound: u64,
                           t1: Times, t2: Times, expiry: Cache.Expiry)
    requires Run(p, steps, expiry).Some? && Cache.ClocksUpTo(Run(p, steps, expiry).value.cache, bound)
    requires TwoCanApprove(p, Run(p, steps, expiry).value, h1, h2, r, n, t1, t2, expiry)
    ensures (forall more, a, b :: DecideWithin(p, more, expiry, bound, a, b, n) ==> a == b) <==> bound <= expiry(n)
  {
    if bound <= expiry(n) {
      forall more, a, b | DecideWithin(p, more, expiry, bound, a, b, n) ensures a == b {
        OneDecisionPerSignature(p, more, expiry, a, b);
      }
    } else {
      var more, t := LateCleanupApprovesTwice(p, steps, Run(p, steps, expiry).value, h1, h2, r, n, bound, t1, t2,
                                              expiry);
      assert DecideWithin(p, more, expiry, bound, h1, h2, n);
    }
  }

  /** Safety carries over: with a shared cache, too, exit 0 means an approved session for the helper's own request. */
  lemma ApprovalStillImpliesSession(p: Proto.Setup, steps: seq<Step>, expiry: Cache.Expiry, h: nat, agentKeyId: bytes,
                                    hash: Hash)
      returns (c: nat)
    requires Proto.Real(p, agentKeyId, hash) && Run(p, steps, expiry).Some?
             && Proto.Approves(Run(p, steps, expiry).value.proto, h)
    ensures Proto.ApprovedBy(Run(p, steps, expiry).value.proto, h, c)
  {
    var proto, cache := RunsTogether(p, steps, expiry);
    c := Proto.ApprovalImpliesSession(p, proto, h, agentKeyId, hash);
  }
}
