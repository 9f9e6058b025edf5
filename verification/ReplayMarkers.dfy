/**
 The replay cache under interleaving: any number of helpers clean up and record in one marker directory
 (crates/helper/src/trust.rs, crates/helper/src/main.rs). A directory entry points at the file some helper
 created; a file holds as many of its three writes as its creator has made, also after it was unlinked.
 Marker names are digests of signatures, so the name determines the response and its expiry.
 */
module ReplayMarkers {
  import opened Bytes
  import opened MarkerTexts

  type Name = bytes
  type Expiry = Name -> u64

  datatype Pc =
    | Cleaning(pending: Option<Name>)
    | Creating
    | Writing(pieces: nat)
    | Recorded
    | Refused
    | Broken(pieces: nat)

  /** One run of `record_replay_marker`; `now` is the clock reading its cleanup uses. */
  datatype Helper = Helper(name: Name, now: u64, pc: Pc)

  datatype State = State(dir: map<Name, nat>, helpers: map<nat, Helper>)

  datatype Action =
    | Start(name: Name, now: u64)
    | Inspect(target: Name)
    | Unlink
    | UnlinkFails
    | FinishCleanup
    | GiveUp
    | Create
    | WritePiece
    | WriteFails

  const EMPTY := State(map[], map[])

  predicate Owns(h: Helper) { h.pc.Writing? || h.pc.Recorded? || h.pc.Broken? }

  /** The helper has read a marker as expired, and is about to remove it. */
  predicate UnlinksNext(h: Helper) { h.pc.Cleaning? && h.pc.pending.Some? }

  /** How many writes the file created by `h` holds. */
  function Pieces(h: Helper): (k: nat)
    requires Owns(h)
  {
    match h.pc
    case Writing(k) => k
    case Recorded => 3
    case Broken(k) => k
    case _ => 0
  }

  ghost predicate WellFormed(s: State) {
    && (forall n :: n in s.dir ==> s.dir[n] in s.helpers && Owns(s.helpers[s.dir[n]]) && s.helpers[s.dir[n]].name == n)
    && (forall i :: i in s.helpers && Owns(s.helpers[i]) ==> Pieces(s.helpers[i]) <= 3)
  }

  /** What reading entry `n` tells a cleaner whose clock says `now`: its parsed expiry lies in the past. */
  predicate ReadsAsExpired(s: State, n: Name, now: u64, expiry: Expiry) {
    && n in s.dir && s.dir[n] in s.helpers && Owns(s.helpers[s.dir[n]]) && Pieces(s.helpers[s.dir[n]]) <= 3
    && var parsed := ParseExpiry(Take(Written(expiry(n), Pieces(s.helpers[s.dir[n]]))));
       parsed.Some? && parsed.value < now
  }

  /** One atomic step of helper `i`. */
  function Apply(s: State, i: nat, a: Action, expiry: Expiry): Option<State> {
    if a.Start? then
      if i in s.helpers then None else Some(s.(helpers := s.helpers[i := Helper(a.name, a.now, Cleaning(None))]))
    else if i !in s.helpers then None
    else
      var h := s.helpers[i];
      match a
      case Inspect(n) =>
        if h.pc != Cleaning(None) then None
        else if ReadsAsExpired(s, n, h.now, expiry) then Some(Put(s, i, Cleaning(Some(n)))) else Some(s)
      case Unlink =>
        if !UnlinksNext(h) then None
        else Some(Put(s.(dir := s.dir - {h.pc.pending.value}), i, Cleaning(None)))
      case UnlinkFails => if !UnlinksNext(h) then None else Some(Put(s, i, Cleaning(None)))
      case GiveUp => if h.pc != Cleaning(None) && h.pc != Creating then None else Some(Put(s, i, Refused))
      case FinishCleanup => if h.pc != Cleaning(None) then None else Some(Put(s, i, Creating))
      case Create =>
        if h.pc != Creating then None
        else if h.name in s.dir then Some(Put(s, i, Refused))
        else Some(Put(s.(dir := s.dir[h.name := i]), i, Writing(0)))
      case WritePiece =>
        if !h.pc.Writing? then None
        else Some(Put(s, i, if h.pc.pieces >= 2 then Recorded else Writing(h.pc.pieces + 1)))
      case WriteFails => if !h.pc.Writing? then None else Some(Put(s, i, Broken(h.pc.pieces)))
      case _ => None
  }

  function Put(s: State, i: nat, pc: Pc): State
    requires i in s.helpers
  {
    s.(helpers := s.helpers[i := s.helpers[i].(pc := pc)])
  }

  /** Entries name helpers that created them; whoever is about to unlink a name has a clock past its expiry. */
  ghost predicate Inv(s: State, expiry: Expiry) {
    && WellFormed(s)
    && (forall i :: i in s.helpers && UnlinksNext(s.helpers[i]) ==>
          expiry(s.helpers[i].pc.pending.value) < s.helpers[i].now)
    && (forall i :: i in s.helpers && s.helpers[i].pc.Writing? ==> s.helpers[i].pc.pieces <= 2)
  }

  /**
   As long as no cleanup clock has passed the expiry of `n`, the marker of a helper that created it is still there.
   */
  ghost predicate Held(s: State, n: Name, expiry: Expiry) {
    (forall i :: i in s.helpers ==> s.helpers[i].now <= expiry(n)) ==>
      forall i :: i in s.helpers && s.helpers[i].name == n && Owns(s.helpers[i]) ==> n in s.dir && s.dir[n] == i
  }

  lemma InspectTellsTheTruth(s: State, n: Name, now: u64, expiry: Expiry)
    requires ReadsAsExpired(s, n, now, expiry)
    ensures expiry(n) < now && Pieces(s.helpers[s.dir[n]]) >= 2
  {
    MarkerRoundTrip(expiry(n), Pieces(s.helpers[s.dir[n]]));
  }

  /** Both facts at once. */
  ghost predicate Good(s: State, n: Name, expiry: Expiry) { Inv(s, expiry) && Held(s, n, expiry) }

  lemma StartIsGood(s: State, i: nat, name: Name, now: u64, n: Name, expiry: Expiry)
    requires Good(s, n, expiry) && i !in s.helpers
    ensures Good(s.(helpers := s.helpers[i := Helper(name, now, Cleaning(None))]), n, expiry)
  {
    var t := s.(helpers := s.helpers[i := Helper(name, now, Cleaning(None))]);
    if forall j :: j in t.helpers ==> t.helpers[j].now <= expiry(n) {
      assert forall j :: j in s.helpers ==> j in t.helpers && t.helpers[j] == s.helpers[j];
    }
  }

  /** Moving one helper along without touching the directory. */
  lemma PutIsGood(s: State, i: nat, pc: Pc, n: Name, expiry: Expiry)
    requires Good(s, n, expiry) && i in s.helpers
    requires Owns(s.helpers[i]) <==> Owns(s.helpers[i].(pc := pc))
    requires Owns(s.helpers[i].(pc := pc)) ==> Pieces(s.helpers[i].(pc := pc)) <= 3
    requires pc.Writing? ==> pc.pieces <= 2
    requires pc.Cleaning? && pc.pending.Some? ==> expiry(pc.pending.value) < s.helpers[i].now
    ensures Good(Put(s, i, pc), n, expiry)
  {
    var t := Put(s, i, pc);
    assert forall j :: j in t.helpers ==>
             j in s.helpers && t.helpers[j].now == s.helpers[j].now
             && t.helpers[j].name == s.helpers[j].name;
    assert forall j :: j in s.helpers ==> j in t.helpers && (Owns(t.helpers[j]) <==> Owns(s.helpers[j]));
  }

  lemma UnlinkIsGood(s: State, i: nat, n: Name, expiry: Expiry)
    requires Good(s, n, expiry) && i in s.helpers && UnlinksNext(s.helpers[i])
    ensures Good(s.(dir := s.dir - {s.helpers[i].pc.pending.value}), n, expiry)
  {
  }

  /** Creating an entry that is not there. */
  function Created(s: State, i: nat): State
    requires i in s.helpers
  {
    Put(s.(dir := s.dir[s.helpers[i].name := i]), i, Writing(0))
  }

  lemma CreateKeepsInv(s: State, i: nat, expiry: Expiry)
    requires Inv(s, expiry) && i in s.helpers && s.helpers[i].pc == Creating && s.helpers[i].name !in s.dir
    ensures Inv(Created(s, i), expiry)
  {
    var t := Created(s, i);
    assert forall n :: n in t.dir && n != s.helpers[i].name ==> n in s.dir && t.dir[n] == s.dir[n] && t.dir[n] != i;
  }

  lemma CreateKeepsHeld(s: State, i: nat, n: Name, expiry: Expiry)
    requires Held(s, n, expiry) && i in s.helpers && s.helpers[i].pc == Creating && s.helpers[i].name !in s.dir
    ensures Held(Created(s, i), n, expiry)
  {
    var t := Created(s, i);
    if forall j :: j in t.helpers ==> t.helpers[j].now <= expiry(n) {
      assert forall j :: j in s.helpers ==> j in t.helpers && t.helpers[j].now == s.helpers[j].now;
      forall j | j in t.helpers && t.helpers[j].name == n && Owns(t.helpers[j]) ensures n in t.dir && t.dir[n] == j {
        if j != i { assert t.helpers[j] == s.helpers[j]; }
      }
    }
  }

  lemma CreateIsGood(s: State, i: nat, n: Name, expiry: Expiry)
    requires Good(s, n, expiry) && i in s.helpers && s.helpers[i].pc == Creating && s.helpers[i].name !in s.dir
    ensures Good(Created(s, i), n, expiry)
  {
    CreateKeepsInv(s, i, expiry);
    CreateKeepsHeld(s, i, n, expiry);
  }

  lemma CleaningIsGood(s: State, i: nat, a: Action, n: Name, expiry: Expiry)
    requires Good(s, n, expiry) && (a.Inspect? || a.Unlink?) && Apply(s, i, a, expiry).Some?
    ensures Good(Apply(s, i, a, expiry).value, n, expiry)
  {
    if a.Unlink? {
      UnlinkIsGood(s, i, n, expiry);
      PutIsGood(s.(dir := s.dir - {s.helpers[i].pc.pending.value}), i, Cleaning(None), n, expiry);
    } else if ReadsAsExpired(s, a.target, s.helpers[i].now, expiry) {
      InspectTellsTheTruth(s, a.target, s.helpers[i].now, expiry);
      PutIsGood(s, i, Cleaning(Some(a.target)), n, expiry);
    }
  }

  lemma WritingIsGood(s: State, i: nat, a: Action, n: Name, expiry: Expiry)
    requires Good(s, n, expiry) && (a.WritePiece? || a.WriteFails?) && Apply(s, i, a, expiry).Some?
    ensures Good(Apply(s, i, a, expiry).value, n, expiry)
  {
    var k := s.helpers[i].pc.pieces;
    if a.WriteFails? { PutIsGood(s, i, Broken(k), n, expiry); }
    else { PutIsGood(s, i, if k >= 2 then Recorded else Writing(k + 1), n, expiry); }
  }

  lemma StepPreserves(s: State, i: nat, a: Action, n: Name, expiry: Expiry)
    requires Good(s, n, expiry) && Apply(s, i, a, expiry).Some?
    ensures Good(Apply(s, i, a, expiry).value, n, expiry)
  {
    match a
    case Start(name, now) => StartIsGood(s, i, name, now, n, expiry);
    case Inspect(_) => CleaningIsGood(s, i, a, n, expiry);
    case Unlink => CleaningIsGood(s, i, a, n, expiry);
    case UnlinkFails => PutIsGood(s, i, Cleaning(None), n, expiry);
    case GiveUp => PutIsGood(s, i, Refused, n, expiry);
    case FinishCleanup => PutIsGood(s, i, Creating, n, expiry);
    case Create =>
      if s.helpers[i].name in s.dir { PutIsGood(s, i, Refused, n, expiry); } else { CreateIsGood(s, i, n, expiry); }
    case WritePiece => WritingIsGood(s, i, a, n, expiry);
    case WriteFails => WritingIsGood(s, i, a, n, expiry);
  }

  // ---- Whole runs ----

  datatype Step = Step(helper: nat, action: Action)

  /** The state after the steps, if every one of them was possible. */
  function Run(steps: seq<Step>, expiry: Expiry): Option<State> {
    if steps == [] then Some(EMPTY)
    else
      match Run(steps[..|steps| - 1], expiry)
      case None => None
      case Some(s) => Apply(s, steps[|steps| - 1].helper, steps[|steps| - 1].action, expiry)
  }

  lemma {:induction false} RunIsGood(steps: seq<Step>, n: Name, expiry: Expiry)
    requires Run(steps, expiry).Some?
    ensures Good(Run(steps, expiry).value, n, expiry)
  {
    if steps != [] {
      var front, last := steps[..|steps| - 1], steps[|steps| - 1];
      RunIsGood(front, n, expiry);
      StepPreserves(Run(front, expiry).value, last.helper, last.action, n, expiry);
    }
  }

  ghost predicate ClocksUpTo(s: State, bound: u64) {
    forall i :: i in s.helpers ==> s.helpers[i].now <= bound
  }

  predicate RecordedBy(s: State, i: nat, n: Name) {
    i in s.helpers && s.helpers[i].name == n && s.helpers[i].pc.Recorded?
  }

  ghost predicate AtMostOneRecorded(s: State, n: Name) {
    forall i, j :: RecordedBy(s, i, n) && RecordedBy(s, j, n) ==> i == j
  }

  /** Whatever is unlinked, by whoever, has expired by the clock of the helper that unlinks it. */
  lemma OnlyExpiredMarkersGo(steps: seq<Step>, i: nat, expiry: Expiry, n: Name)
    requires Run(steps, expiry).Some? && Run(steps + [Step(i, Unlink)], expiry).Some?
    ensures var s, t := Run(steps, expiry).value, Run(steps + [Step(i, Unlink)], expiry).value;
            n in s.dir && n !in t.dir ==> i in s.helpers && expiry(n) < s.helpers[i].now
  {
    assert (steps + [Step(i, Unlink)])[..|steps|] == steps;
    RunIsGood(steps, n, expiry);
  }

  /** While every cleanup clock reads at most the expiry, one signature is recorded at most once. */
  lemma RecordedAtMostOnce(steps: seq<Step>, expiry: Expiry, n: Name)
    requires Run(steps, expiry).Some? && ClocksUpTo(Run(steps, expiry).value, expiry(n))
    ensures AtMostOneRecorded(Run(steps, expiry).value, n)
  {
    RunIsGood(steps, n, expiry);
  }

  // ---- The condition is exact ----

  lemma Extend(steps: seq<Step>, s: State, i: nat, a: Action, expiry: Expiry) returns (more: seq<Step>)
    requires Run(steps, expiry) == Some(s) && Apply(s, i, a, expiry).Some?
    ensures Run(more, expiry) == Apply(s, i, a, expiry)
  {
    more := steps + [Step(i, a)];
    assert more[..|steps|] == steps;
  }

  /** A helper that finds no marker of its name records it. */
  lemma RecordsFully(steps: seq<Step>, s: State, i: nat, expiry: Expiry) returns (more: seq<Step>, t: State)
    requires Run(steps, expiry) == Some(s)
    requires i in s.helpers && s.helpers[i].pc == Cleaning(None) && s.helpers[i].name !in s.dir
    ensures Run(more, expiry) == Some(t)
    ensures t == State(s.dir[s.helpers[i].name := i], s.helpers[i := s.helpers[i].(pc := Recorded)])
  {
    more := Extend(steps, s, i, FinishCleanup, expiry);
    var s1 := Put(s, i, Creating);
    more := Extend(more, s1, i, Create, expiry);
    var s2 := Put(s1.(dir := s.dir[s.helpers[i].name := i]), i, Writing(0));
    more := Extend(more, s2, i, WritePiece, expiry);
    var s3 := Put(s2, i, Writing(1));
    more := Extend(more, s3, i, WritePiece, expiry);
    var s4 := Put(s3, i, Writing(2));
    more := Extend(more, s4, i, WritePiece, expiry);
    t := Put(s4, i, Recorded);
  }

  /** A helper that reads a marker as expired removes it. */
  lemma CleansUp(steps: seq<Step>, s: State, i: nat, n: Name, expiry: Expiry) returns (more: seq<Step>)
    requires Run(steps, expiry) == Some(s)
    requires i in s.helpers && s.helpers[i].pc == Cleaning(None) && ReadsAsExpired(s, n, s.helpers[i].now, expiry)
    ensures Run(more, expiry) == Some(s.(dir := s.dir - {n}))
  {
    more := Extend(steps, s, i, Inspect(n), expiry);
    var s1 := Put(s, i, Cleaning(Some(n)));
    more := Extend(more, s1, i, Unlink, expiry);
    assert Put(s1.(dir := s1.dir - {n}), i, Cleaning(None)).helpers == s.helpers;
  }

  /** The state in which only helper 0 has run, and has recorded `n`. */
  function OneRecorded(n: Name): State { State(map[n := 0], map[0 := Helper(n, 0, Recorded)]) }

  lemma FirstRecording(n: Name, expiry: Expiry) returns (steps: seq<Step>)
    ensures Run(steps, expiry) == Some(OneRecorded(n))
  {
    var started := State(map[], map[0 := Helper(n, 0, Cleaning(None))]);
    var t: State;
    steps := Extend([], EMPTY, 0, Start(n, 0), expiry);
    assert Run(steps, expiry) == Some(started);
    steps, t := RecordsFully(steps, started, 0, expiry);
    assert t.dir == map[n := 0] && t.helpers == map[0 := Helper(n, 0, Recorded)];
  }

  lemma SecondStart(n: Name, now: u64, expiry: Expiry) returns (steps: seq<Step>, s: State)
    requires expiry(n) < now
    ensures Run(steps, expiry) == Some(s) && n !in s.dir
    ensures s.helpers == OneRecorded(n).helpers[1 := Helper(n, now, Cleaning(None))]
  {
    steps := FirstRecording(n, expiry);
    s := OneRecorded(n);
    steps := Extend(steps, s, 1, Start(n, now), expiry);
    s := s.(helpers := s.helpers[1 := Helper(n, now, Cleaning(None))]);
    MarkerRoundTrip(expiry(n), 3);
    assert ReadsAsExpired(s, n, now, expiry);
    steps := CleansUp(steps, s, 1, n, expiry);
    s := s.(dir := s.dir - {n});
  }

  /** A cleanup clock past the expiry lets the same signature be recorded twice. */
  lemma LateCleanupAdmitsReplay(n: Name, bound: u64, expiry: Expiry) returns (steps: seq<Step>, t: State)
    requires expiry(n) < bound
    ensures Run(steps, expiry) == Some(t) && ClocksUpTo(t, bound) && !AtMostOneRecorded(t, n)
  {
    var s: State;
    steps, s := SecondStart(n, bound, expiry);
    steps, t := RecordsFully(steps, s, 1, expiry);
    assert RecordedBy(t, 0, n) && RecordedBy(t, 1, n);
  }

  /**
   Recording at most once holds in every run whose cleanup clocks stay within a bound exactly when the bound is no
   later than the expiry.
   */
  lemma AtMostOnceExactly(n: Name, bound: u64, expiry: Expiry)
    ensures (forall steps :: Run(steps, expiry).Some? && ClocksUpTo(Run(steps, expiry).value, bound) ==>
                               AtMostOneRecorded(Run(steps, expiry).value, n))
            <==> bound <= expiry(n)
  {
    if bound <= expiry(n) {
      forall steps | Run(steps, expiry).Some? && ClocksUpTo(Run(steps, expiry).value, bound)
        ensures AtMostOneRecorded(Run(steps, expiry).value, n)
      {
        RecordedAtMostOnce(steps, expiry, n);
      }
    } else {
      var steps, t := LateCleanupAdmitsReplay(n, bound, expiry);
    }
  }
}
