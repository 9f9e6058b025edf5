/**
 The two models of the marker directory agree: what one helper does to the texts of the directory in one piece is a
 run of the interleaved steps, so what is proved of those holds of the directory too.
 */
module MarkerRuns {
  import opened Bytes
  import opened MarkerTexts
  import Dir = MarkerDirectories
  import Cache = ReplayMarkers

  /** What a reader of the directory finds. */
  ghost function Texts(s: Cache.State, expiry: Cache.Expiry): map<bytes, Dir.Entry>
    requires Cache.WellFormed(s)
  {
    map n | n in s.dir :: Dir.Regular(Written(expiry(n), Cache.Pieces(s.helpers[s.dir[n]])))
  }

  ghost predicate AllMarkerNames(s: Cache.State) { forall n :: n in s.dir ==> Dir.IsMarkerName(n) }

  /** Where a helper stands after a recording with this outcome. */
  function EndOf(r: Outcome<Dir.RecordError>, writes: nat): Cache.Pc {
    match r
    case Pass => Cache.Recorded
    case Fail(e) => if e.WriteFailed? then Cache.Broken(writes) else Cache.Refused
  }

  /** The steps lead from the empty directory to `s`. */
  ghost predicate Leads(steps: seq<Cache.Step>, expiry: Cache.Expiry, s: Cache.State) {
    Cache.Run(steps, expiry) == Some(s) && Cache.WellFormed(s)
  }

  lemma RunIsWellFormed(steps: seq<Cache.Step>, expiry: Cache.Expiry, s: Cache.State)
    requires Cache.Run(steps, expiry) == Some(s)
    ensures Leads(steps, expiry, s)
  {
    Cache.RunIsGood(steps, [], expiry);
  }

  lemma Extend(steps: seq<Cache.Step>, s: Cache.State, i: nat, a: Cache.Action, expiry: Cache.Expiry, t: Cache.State)
      returns (more: seq<Cache.Step>)
    requires Leads(steps, expiry, s) && Cache.Apply(s, i, a, expiry) == Some(t)
    ensures Leads(more, expiry, t)
  {
    more := Cache.Extend(steps, s, i, a, expiry);
    RunIsWellFormed(more, expiry, t);
  }

  // ---- Cleaning up ----

  /** Reading an entry as expired is what makes it removable. */
  lemma RemovableIsReadAsExpired(s: Cache.State, n: Cache.Name, now: u64, expiry: Cache.Expiry)
    requires Cache.WellFormed(s) && n in s.dir && Dir.IsMarkerName(n)
    ensures Dir.Removable(n, Texts(s, expiry)[n], now) <==> Cache.ReadsAsExpired(s, n, now, expiry)
  {
  }

  lemma WithoutOne(s: Cache.State, n: Cache.Name, expiry: Cache.Expiry)
    requires Cache.WellFormed(s)
    ensures Cache.WellFormed(s.(dir := s.dir - {n}))
    ensures Texts(s.(dir := s.dir - {n}), expiry) == Texts(s, expiry) - {n}
  {
  }

  lemma PutBack(s: Cache.State, i: nat, pc: Cache.Pc, dir: map<Cache.Name, nat>)
    requires i in s.helpers
    ensures Cache.Put(Cache.Put(s, i, pc).(dir := dir), i, s.helpers[i].pc) == s.(dir := dir)
  {
    assert s.helpers[i := s.helpers[i].(pc := pc)][i := s.helpers[i]] == s.helpers;
  }

  /** An expired entry that the cleanup can read is removed, or stays if that fails. */
  lemma ExpiredVisitIsSteps(steps: seq<Cache.Step>, s: Cache.State, i: nat, n: Cache.Name, removes: bool,
                            expiry: Cache.Expiry) returns (more: seq<Cache.Step>)
    requires Leads(steps, expiry, s) && i in s.helpers && s.helpers[i].pc == Cache.Cleaning(None)
    requires Cache.ReadsAsExpired(s, n, s.helpers[i].now, expiry)
    ensures Leads(more, expiry, s.(dir := if removes then s.dir - {n} else s.dir))
  {
    var found := Cache.Put(s, i, Cache.Cleaning(Some(n)));
    more := Extend(steps, s, i, Cache.Inspect(n), expiry, found);
    var dir := if removes then s.dir - {n} else s.dir;
    PutBack(s, i, Cache.Cleaning(Some(n)), dir);
    more := Extend(more, found, i, if removes then Cache.Unlink else Cache.UnlinkFails, expiry, s.(dir := dir));
  }

  /** One entry that the cleanup visits. */
  lemma VisitIsSteps(steps: seq<Cache.Step>, s: Cache.State, i: nat, v: Dir.Visit, expiry: Cache.Expiry)
      returns (more: seq<Cache.Step>)
    requires Leads(steps, expiry, s) && i in s.helpers && s.helpers[i].pc == Cache.Cleaning(None) && AllMarkerNames(s)
    ensures var goes := v.readable && v.removes && Cache.ReadsAsExpired(s, v.name, s.helpers[i].now, expiry);
            Leads(more, expiry, if goes then s.(dir := s.dir - {v.name}) else s)
  {
    more := steps;
    if v.readable && Cache.ReadsAsExpired(s, v.name, s.helpers[i].now, expiry) {
      more := ExpiredVisitIsSteps(steps, s, i, v.name, v.removes, expiry);
    }
  }

  /** A whole cleanup is a run, at the end of which the directory holds what the cleanup leaves. */
  lemma {:induction false} CleanupIsSteps(steps: seq<Cache.Step>, s: Cache.State, i: nat, visits: seq<Dir.Visit>,
                                          expiry: Cache.Expiry) returns (more: seq<Cache.Step>, t: Cache.State)
    requires Leads(steps, expiry, s) && i in s.helpers && s.helpers[i].pc == Cache.Cleaning(None) && AllMarkerNames(s)
    ensures Leads(more, expiry, t) && t.helpers == s.helpers && AllMarkerNames(t)
    ensures Texts(t, expiry) == Dir.Cleaned(Texts(s, expiry), visits, s.helpers[i].now)
    decreases |visits|
  {
    if visits == [] {
      more, t := steps, s;
      assert Dir.Cleaned(Texts(s, expiry), visits, s.helpers[i].now) == Texts(s, expiry);
    } else {
      var front, v := visits[..|visits| - 1], visits[|visits| - 1];
      assert front + [v] == visits;
      var u: Cache.State;
      more, u := CleanupIsSteps(steps, s, i, front, expiry);
      Dir.CleanedOne(Texts(s, expiry), front, v, s.helpers[i].now);
      if v.name in u.dir { RemovableIsReadAsExpired(u, v.name, s.helpers[i].now, expiry); }
      WithoutOne(u, v.name, expiry);
      more := VisitIsSteps(more, u, i, v, expiry);
      var goes := v.readable && v.removes && Cache.ReadsAsExpired(u, v.name, s.helpers[i].now, expiry);
      t := if goes then u.(dir := u.dir - {v.name}) else u;
    }
  }

  // ---- Writing ----

  /** The marker of helper `i` after `k` writes. */
  lemma {:induction false} WritesAreSteps(steps: seq<Cache.Step>, s: Cache.State, i: nat, k: nat, expiry: Cache.Expiry)
      returns (more: seq<Cache.Step>)
    requires Leads(steps, expiry, s) && i in s.helpers && s.helpers[i].pc == Cache.Writing(0) && k <= 3
    ensures Leads(more, expiry, Cache.Put(s, i, if k == 3 then Cache.Recorded else Cache.Writing(k)))
  {
    if k == 0 {
      more := steps;
      assert Cache.Put(s, i, Cache.Writing(0)) == s;
    } else {
      var j: nat := k - 1;
      more := WritesAreSteps(steps, s, i, j, expiry);
      var before := Cache.Put(s, i, Cache.Writing(j));
      var after := Cache.Put(s, i, if k == 3 then Cache.Recorded else Cache.Writing(k));
      assert Cache.Put(before, i, after.helpers[i].pc) == after;
      more := Extend(more, before, i, Cache.WritePiece, expiry, after);
    }
  }

  // ---- Recording ----

  lemma StartIsAStep(steps: seq<Cache.Step>, s: Cache.State, i: nat, name: Cache.Name, now: u64, expiry: Cache.Expiry)
      returns (more: seq<Cache.Step>)
    requires Leads(steps, expiry, s) && i !in s.helpers
    ensures var t := s.(helpers := s.helpers[i := Cache.Helper(name, now, Cache.Cleaning(None))]);
            Leads(more, expiry, t) && Texts(t, expiry) == Texts(s, expiry)
  {
    var t := s.(helpers := s.helpers[i := Cache.Helper(name, now, Cache.Cleaning(None))]);
    more := Extend(steps, s, i, Cache.Start(name, now), expiry, t);
  }

  /** Moving a helper without a marker leaves the texts as they are. */
  lemma NoMarkerNoChange(s: Cache.State, i: nat, pc: Cache.Pc, expiry: Cache.Expiry)
    requires i in s.helpers && !Cache.Owns(s.helpers[i])
    requires Cache.WellFormed(s) && Cache.WellFormed(Cache.Put(s, i, pc))
    ensures Texts(Cache.Put(s, i, pc), expiry) == Texts(s, expiry)
  {
  }

  /** Moving a helper with one changes that one. */
  lemma OwnMarkerChanges(s: Cache.State, i: nat, pc: Cache.Pc, expiry: Cache.Expiry)
    requires i in s.helpers && s.helpers[i].name in s.dir && s.dir[s.helpers[i].name] == i
    requires Cache.WellFormed(s) && Cache.WellFormed(Cache.Put(s, i, pc))
    ensures var t, name := Cache.Put(s, i, pc), s.helpers[i].name;
            && Cache.Owns(t.helpers[i])
            && Texts(t, expiry)
               == Texts(s, expiry)[name := Dir.Regular(Written(expiry(name), Cache.Pieces(t.helpers[i])))]
  {
    assert Cache.Put(s, i, pc).dir[s.helpers[i].name] == i;
  }

  /** A helper whose clean-up is over gives up. */
  lemma GivingUpIsAStep(steps: seq<Cache.Step>, s: Cache.State, i: nat, expiry: Cache.Expiry)
      returns (more: seq<Cache.Step>)
    requires Leads(steps, expiry, s) && i in s.helpers && s.helpers[i].pc == Cache.Cleaning(None)
    ensures var t := Cache.Put(s, i, Cache.Refused); Leads(more, expiry, t) && Texts(t, expiry) == Texts(s, expiry)
  {
    more := Extend(steps, s, i, Cache.GiveUp, expiry, Cache.Put(s, i, Cache.Refused));
    NoMarkerNoChange(s, i, Cache.Refused, expiry);
  }

  /** It is refused if there is a marker of its name. */
  lemma RefusalIsSteps(steps: seq<Cache.Step>, s: Cache.State, i: nat, expiry: Cache.Expiry)
      returns (more: seq<Cache.Step>)
    requires Leads(steps, expiry, s) && i in s.helpers && s.helpers[i].pc == Cache.Cleaning(None)
    requires s.helpers[i].name in s.dir
    ensures var t := Cache.Put(s, i, Cache.Refused); Leads(more, expiry, t) && Texts(t, expiry) == Texts(s, expiry)
  {
    var creating := Cache.Put(s, i, Cache.Creating);
    more := Extend(steps, s, i, Cache.FinishCleanup, expiry, creating);
    assert Cache.Put(creating, i, Cache.Refused) == Cache.Put(s, i, Cache.Refused);
    more := Extend(more, creating, i, Cache.Create, expiry, Cache.Put(s, i, Cache.Refused));
    NoMarkerNoChange(s, i, Cache.Refused, expiry);
  }

  lemma CreatedFromCreating(s: Cache.State, i: nat)
    requires i in s.helpers
    ensures Cache.Created(Cache.Put(s, i, Cache.Creating), i) == Cache.Created(s, i)
  {
    assert Cache.Created(Cache.Put(s, i, Cache.Creating), i).helpers == Cache.Created(s, i).helpers;
  }

  lemma CreatedTexts(s: Cache.State, i: nat, expiry: Cache.Expiry)
    requires Cache.WellFormed(s) && i in s.helpers && !Cache.Owns(s.helpers[i]) && s.helpers[i].name !in s.dir
    requires Cache.WellFormed(Cache.Created(s, i))
    ensures Texts(Cache.Created(s, i), expiry) == Texts(s, expiry)[s.helpers[i].name := Dir.Regular([])]
  {
  }

  /** Otherwise it creates its marker, still empty. */
  lemma CreationIsSteps(steps: seq<Cache.Step>, s: Cache.State, i: nat, expiry: Cache.Expiry)
      returns (more: seq<Cache.Step>)
    requires Leads(steps, expiry, s) && i in s.helpers && s.helpers[i].pc == Cache.Cleaning(None)
    requires s.helpers[i].name !in s.dir
    ensures var t := Cache.Created(s, i);
            && Leads(more, expiry, t)
            && Texts(t, expiry) == Texts(s, expiry)[s.helpers[i].name := Dir.Regular([])]
  {
    var creating := Cache.Put(s, i, Cache.Creating);
    more := Extend(steps, s, i, Cache.FinishCleanup, expiry, creating);
    CreatedFromCreating(s, i);
    more := Extend(more, creating, i, Cache.Create, expiry, Cache.Created(s, i));
    CreatedTexts(s, i, expiry);
  }

  /** And writes to it until a write fails. */
  lemma WritingIsSteps(steps: seq<Cache.Step>, s: Cache.State, i: nat, writes: nat, expiry: Cache.Expiry)
      returns (more: seq<Cache.Step>)
    requires Leads(steps, expiry, s) && i in s.helpers && s.helpers[i].pc == Cache.Writing(0)
    requires s.helpers[i].name in s.dir && s.dir[s.helpers[i].name] == i
    ensures var t := Cache.Put(s, i, if writes < 3 then Cache.Broken(writes) else Cache.Recorded);
            var name := s.helpers[i].name;
            && Leads(more, expiry, t)
            && Texts(t, expiry) == Texts(s, expiry)[name := Dir.Regular(Written(expiry(name), Min(writes, 3)))]
  {
    var k := Min(writes, 3);
    more := WritesAreSteps(steps, s, i, k, expiry);
    if writes < 3 {
      var before, after := Cache.Put(s, i, Cache.Writing(writes)), Cache.Put(s, i, Cache.Broken(writes));
      assert Cache.Put(before, i, Cache.Broken(writes)) == after;
      more := Extend(more, before, i, Cache.WriteFails, expiry, after);
      OwnMarkerChanges(s, i, Cache.Broken(writes), expiry);
    } else {
      OwnMarkerChanges(s, i, Cache.Recorded, expiry);
    }
  }

  /** A marker that is not there is created and written. */
  lemma MarkerIsWritten(steps: seq<Cache.Step>, s: Cache.State, i: nat, writes: nat, expiry: Cache.Expiry)
      returns (more: seq<Cache.Step>, t: Cache.State)
    requires Leads(steps, expiry, s) && i in s.helpers && s.helpers[i].pc == Cache.Cleaning(None)
    requires s.helpers[i].name !in s.dir
    ensures var name := s.helpers[i].name;
            && Leads(more, expiry, t)
            && t.helpers == s.helpers[i := s.helpers[i].(pc := if writes < 3 then Cache.Broken(writes)
                                                               else Cache.Recorded)]
            && Texts(t, expiry) == Texts(s, expiry)[name := Dir.Regular(Written(expiry(name), Min(writes, 3)))]
  {
    var created, name := Cache.Created(s, i), s.helpers[i].name;
    more := CreationIsSteps(steps, s, i, expiry);
    more := WritingIsSteps(more, created, i, writes, expiry);
    t := Cache.Put(created, i, if writes < 3 then Cache.Broken(writes) else Cache.Recorded);
    WrittenOver(Texts(s, expiry), name, Dir.Regular([]), Dir.Regular(Written(expiry(name), Min(writes, 3))));
  }

  lemma WrittenOver(m: map<bytes, Dir.Entry>, name: bytes, first: Dir.Entry, second: Dir.Entry)
    ensures m[name := first][name := second] == m[name := second]
  {
  }

  /** What creating and writing come to, given whether there is a marker of the name. */
  function CreateOutcome(present: bool, create: bool, writes: nat): Outcome<Dir.RecordError> {
    if !create then Fail(Dir.CreateFailed) else if present then Fail(Dir.ReplayDetected)
    else if writes < 3 then Fail(Dir.WriteFailed) else Pass
  }

  /** From the end of the cleanup to the end of the recording. */
  lemma AfterCleanupIsSteps(steps: seq<Cache.Step>, s: Cache.State, i: nat, create: bool, writes: nat,
                            expiry: Cache.Expiry) returns (more: seq<Cache.Step>, t: Cache.State)
    requires Leads(steps, expiry, s) && i in s.helpers && s.helpers[i].pc == Cache.Cleaning(None)
    ensures Leads(more, expiry, t)
    ensures var name := s.helpers[i].name;
            && t.helpers == s.helpers[i := s.helpers[i].(
                              pc := EndOf(CreateOutcome(name in s.dir, create, writes), writes))]
            && Texts(t, expiry) == if !create || name in s.dir then Texts(s, expiry)
                                   else Texts(s, expiry)[name := Dir.Regular(Written(expiry(name), Min(writes, 3)))]
  {
    if create && s.helpers[i].name !in s.dir {
      more, t := MarkerIsWritten(steps, s, i, writes, expiry);
    } else {
      t := Cache.Put(s, i, Cache.Refused);
      if !create { more := GivingUpIsAStep(steps, s, i, expiry); } else { more := RefusalIsSteps(steps, s, i, expiry); }
    }
  }

  /** How helper `i` stands after a recording: where its outcome says, under the name and the clock it used. */
  predicate RecordedAs(s: Cache.State, t: Cache.State, i: nat, name: Cache.Name, now: u64, r: Outcome<Dir.RecordError>,
                       writes: nat) {
    t.helpers == s.helpers[i := Cache.Helper(name, now, EndOf(r, writes))]
  }

  lemma StartedThenEnded(s: Cache.State, s1: Cache.State, t: Cache.State, i: nat, name: Cache.Name, now: u64,
                         r: Outcome<Dir.RecordError>, writes: nat)
    requires s1.helpers == s.helpers[i := Cache.Helper(name, now, Cache.Cleaning(None))]
    requires t.helpers == s1.helpers[i := s1.helpers[i].(pc := EndOf(r, writes))]
    ensures RecordedAs(s, t, i, name, now, r, writes)
  {
  }

  /** The names in the directory are those of its texts. */
  lemma SameNames(s: Cache.State, expiry: Cache.Expiry)
    requires Cache.WellFormed(s)
    ensures Texts(s, expiry).Keys == s.dir.Keys
  {
  }

  /** Once started, with the directory open: the cleanup and what comes after it. */
  lemma OpenedIsSteps(steps: seq<Cache.Step>, s: Cache.State, i: nat, calls: Dir.Calls, expiry: Cache.Expiry)
      returns (more: seq<Cache.Step>, t: Cache.State)
    requires Leads(steps, expiry, s) && i in s.helpers && s.helpers[i].pc == Cache.Cleaning(None) && AllMarkerNames(s)
    requires calls.clock == Some(s.helpers[i].now) && calls.openDirectory
    ensures Leads(more, expiry, t)
    ensures var name, texts := s.helpers[i].name, Texts(s, expiry);
            && t.helpers == s.helpers[i := s.helpers[i].(
                              pc := EndOf(Dir.RecordOutcome(texts, name, calls), calls.writes))]
            && Texts(t, expiry) == Dir.AfterRecording(texts, name, expiry(name), calls)
  {
    var s2: Cache.State;
    more, s2 := CleanupIsSteps(steps, s, i, calls.visits, expiry);
    SameNames(s2, expiry);
    more, t := AfterCleanupIsSteps(more, s2, i, calls.create, calls.writes, expiry);
  }

  /** A recording puts no other name into the directory. */
  lemma NamesStay(s: Cache.State, t: Cache.State, name: Cache.Name, calls: Dir.Calls, expiry: Cache.Expiry)
    requires Cache.WellFormed(s) && Cache.WellFormed(t) && AllMarkerNames(s) && Dir.IsMarkerName(name)
    requires Texts(t, expiry) == Dir.AfterRecording(Texts(s, expiry), name, expiry(name), calls)
    ensures AllMarkerNames(t)
  {
    SameNames(s, expiry);
    SameNames(t, expiry);
    forall n | n in t.dir ensures Dir.IsMarkerName(n) {
      assert n in Texts(t, expiry).Keys;
      assert n == name || n in Texts(s, expiry).Keys;
    }
  }

  /**
   Recording in one piece is a run of steps of one more helper, from any reachable state in which the directory holds
   markers alone: it leaves the very texts that the steps leave, and the helper where its outcome says.
   */
  lemma RecordingIsARun(steps: seq<Cache.Step>, s: Cache.State, i: nat, name: Cache.Name, calls: Dir.Calls,
                        expiry: Cache.Expiry) returns (more: seq<Cache.Step>, t: Cache.State)
    requires Leads(steps, expiry, s) && i !in s.helpers && AllMarkerNames(s) && Dir.IsMarkerName(name)
    requires calls.clock.Some?
    ensures Leads(more, expiry, t) && AllMarkerNames(t)
    ensures RecordedAs(s, t, i, name, calls.clock.value, Dir.RecordOutcome(Texts(s, expiry), name, calls),
                       calls.writes)
    ensures Texts(t, expiry) == Dir.AfterRecording(Texts(s, expiry), name, expiry(name), calls)
  {
    var now := calls.clock.value;
    var s1 := s.(helpers := s.helpers[i := Cache.Helper(name, now, Cache.Cleaning(None))]);
    more := StartIsAStep(steps, s, i, name, now, expiry);
    if calls.openDirectory {
      more, t := OpenedIsSteps(more, s1, i, calls, expiry);
    } else {
      more := GivingUpIsAStep(more, s1, i, expiry);
      t := Cache.Put(s1, i, Cache.Refused);
    }
    StartedThenEnded(s, s1, t, i, name, now, Dir.RecordOutcome(Texts(s, expiry), name, calls), calls.writes);
    NamesStay(s, t, name, calls, expiry);
  }

  // ---- One directory, recording after recording ----

  datatype Recording = Recording(name: Cache.Name, calls: Dir.Calls)

  /** What a directory that was empty at first holds after these recordings. */
  function AfterAll(list: seq<Recording>, expiry: Cache.Expiry): map<bytes, Dir.Entry> {
    if list == [] then map[]
    else
      var front, last := list[..|list| - 1], list[|list| - 1];
      Dir.AfterRecording(AfterAll(front, expiry), last.name, expiry(last.name), last.calls)
  }

  function OutcomeAt(list: seq<Recording>, k: nat, expiry: Cache.Expiry): Outcome<Dir.RecordError>
    requires k < |list|
  {
    Dir.RecordOutcome(AfterAll(list[..k], expiry), list[k].name, list[k].calls)
  }

  /** Recording `k` of the list, if it could read its clock, is helper `k`. */
  predicate HelperIs(list: seq<Recording>, k: nat, expiry: Cache.Expiry, t: Cache.State) {
    && k < |list|
    && (k in t.helpers <==> list[k].calls.clock.Some?)
    && (k in t.helpers ==>
          t.helpers[k] == Cache.Helper(list[k].name, list[k].calls.clock.value,
                                       EndOf(OutcomeAt(list, k, expiry), list[k].calls.writes)))
  }

  ghost predicate HelpersAre(list: seq<Recording>, expiry: Cache.Expiry, t: Cache.State) {
    && (forall k :: k in t.helpers ==> k < |list|)
    && (forall k: nat :: k < |list| ==> HelperIs(list, k, expiry, t))
  }

  ghost predicate NamesAreMarkers(list: seq<Recording>) {
    forall k :: 0 <= k < |list| ==> Dir.IsMarkerName(list[k].name)
  }

  lemma HelperStillIs(front: seq<Recording>, last: Recording, k: nat, expiry: Cache.Expiry, s: Cache.State,
                      t: Cache.State)
    requires HelperIs(front, k, expiry, s) && (k in t.helpers <==> k in s.helpers)
    requires k in s.helpers ==> t.helpers[k] == s.helpers[k]
    ensures HelperIs(front + [last], k, expiry, t)
  {
    assert (front + [last])[..k] == front[..k];
  }

  lemma LastHelperIs(front: seq<Recording>, last: Recording, expiry: Cache.Expiry, t: Cache.State)
    requires var r := Dir.RecordOutcome(AfterAll(front, expiry), last.name, last.calls);
             && (|front| in t.helpers <==> last.calls.clock.Some?)
             && (|front| in t.helpers ==>
                   t.helpers[|front|] == Cache.Helper(last.name, last.calls.clock.value, EndOf(r, last.calls.writes)))
    ensures HelperIs(front + [last], |front|, expiry, t)
  {
    assert (front + [last])[..|front|] == front;
  }

  lemma OneMoreHelper(front: seq<Recording>, last: Recording, expiry: Cache.Expiry, s: Cache.State, t: Cache.State)
    requires HelpersAre(front, expiry, s)
    requires var r := Dir.RecordOutcome(AfterAll(front, expiry), last.name, last.calls);
             if last.calls.clock.Some?
             then RecordedAs(s, t, |front|, last.name, last.calls.clock.value, r, last.calls.writes) else t == s
    ensures HelpersAre(front + [last], expiry, t)
  {
    LastHelperIs(front, last, expiry, t);
    forall k: nat | k < |front| ensures HelperIs(front + [last], k, expiry, t) {
      HelperStillIs(front, last, k, expiry, s, t);
    }
  }

  /** Any list of recordings is a run, helper by helper. */
  lemma {:induction false} RecordingsAreARun(list: seq<Recording>, expiry: Cache.Expiry)
      returns (steps: seq<Cache.Step>, t: Cache.State)
    requires NamesAreMarkers(list)
    ensures Leads(steps, expiry, t) && AllMarkerNames(t) && HelpersAre(list, expiry, t)
    ensures Texts(t, expiry) == AfterAll(list, expiry)
    decreases |list|
  {
    if list == [] {
      steps, t := [], Cache.EMPTY;
    } else {
      var front, last := list[..|list| - 1], list[|list| - 1];
      assert front + [last] == list;
      var s: Cache.State;
      steps, s := RecordingsAreARun(front, expiry);
      if last.calls.clock.Some? {
        steps, t := RecordingIsARun(steps, s, |front|, last.name, last.calls, expiry);
      } else {
        t := s;
      }
      OneMoreHelper(front, last, expiry, s, t);
    }
  }

  /**
   So what holds of interleaved steps holds of the directory: in any list of recordings whose clocks do not pass the
   expiry of a name, at most one recording of that name succeeds.
   */
  lemma SucceedsAtMostOnce(list: seq<Recording>, expiry: Cache.Expiry, j: nat, k: nat)
    requires NamesAreMarkers(list) && j < |list| && k < |list| && list[j].name == list[k].name
    requires forall i :: 0 <= i < |list| && list[i].calls.clock.Some? ==>
               list[i].calls.clock.value <= expiry(list[j].name)
    requires OutcomeAt(list, j, expiry).Pass? && OutcomeAt(list, k, expiry).Pass?
    ensures j == k
  {
    var n := list[j].name;
    var steps, t := RecordingsAreARun(list, expiry);
    assert HelperIs(list, j, expiry, t) && HelperIs(list, k, expiry, t);
    forall i | i in t.helpers ensures t.helpers[i].now <= expiry(n) { assert HelperIs(list, i, expiry, t); }
    Cache.RecordedAtMostOnce(steps, expiry, n);
    assert Cache.RecordedBy(t, j, n) && Cache.RecordedBy(t, k, n);
  }
}
