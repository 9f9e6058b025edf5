/**
 The marker directory as one helper uses it: `cleanup_markers`, `create_marker` and `record_replay_marker` in
 sequence.
 */
module MarkerDirectories {
  import opened Bytes
  import opened MarkerTexts

  datatype Entry = Regular(contents: bytes) | NotRegular

  datatype RecordError = ClockUnreadable | CleanupFailed | ReplayDetected | CreateFailed | WriteFailed

  predicate IsHexDigit(b: byte) {
    '0' as int <= b <= '9' as int || 'a' as int <= b <= 'f' as int || 'A' as int <= b <= 'F' as int
  }

  predicate IsMarkerName(name: bytes) {
    |name| == 64 && forall i :: 0 <= i < |name| ==> IsHexDigit(name[i])
  }

  /** A regular file under a marker name whose text parses to an expiry in the past. */
  predicate Removable(name: bytes, entry: Entry, now: u64) {
    && IsMarkerName(name)
    && entry.Regular?
    && ParseExpiry(Take(entry.contents)).Some?
    && ParseExpiry(Take(entry.contents)).value < now
  }

  /** An entry the listing shows, whether it can be opened and read, and whether removing it works. */
  datatype Visit = Visit(name: bytes, readable: bool, removes: bool)

  /** Some visit removes this entry. */
  predicate Removed(name: bytes, entry: Entry, visits: seq<Visit>, now: u64) {
    Removable(name, entry, now) && exists i :: 0 <= i < |visits| && visits[i] == Visit(name, true, true)
  }

  /** The directory after a cleanup that made these visits. */
  function Cleaned(entries: map<bytes, Entry>, visits: seq<Visit>, now: u64): map<bytes, Entry> {
    map n | n in entries && !Removed(n, entries[n], visits, now) :: entries[n]
  }

  lemma RemovedOne(name: bytes, entry: Entry, visits: seq<Visit>, v: Visit, now: u64)
    ensures Removed(name, entry, visits + [v], now) <==>
              Removed(name, entry, visits, now) || (Removable(name, entry, now) && v == Visit(name, true, true))
  {
    var more, hit := visits + [v], Visit(name, true, true);
    if i :| 0 <= i < |visits| && visits[i] == hit { assert more[i] == hit; }
    if v == hit { assert more[|visits|] == hit; }
  }

  lemma CleanedOne(entries: map<bytes, Entry>, visits: seq<Visit>, v: Visit, now: u64)
    ensures var before := Cleaned(entries, visits, now);
            Cleaned(entries, visits + [v], now) ==
            if v.readable && v.removes && v.name in before && Removable(v.name, before[v.name], now)
                then before - {v.name} else before
  {
    forall n | n in entries
      ensures Removed(n, entries[n], visits + [v], now) <==>
              Removed(n, entries[n], visits, now) || (Removable(n, entries[n], now) && v == Visit(n, true, true))
    {
      RemovedOne(n, entries[n], visits, v, now);
    }
  }

  /** What the clock and the system calls of one recording answer; `writes` is how many of the three writes work. */
  datatype Calls = Calls(clock: Option<u64>, openDirectory: bool, visits: seq<Visit>, create: bool, writes: nat)

  /** The first thing to go wrong. */
  function RecordOutcome(entries: map<bytes, Entry>, name: bytes, calls: Calls): Outcome<RecordError> {
    if calls.clock.None? then Fail(ClockUnreadable)
    else if !calls.openDirectory then Fail(CleanupFailed)
    else if !calls.create then Fail(CreateFailed)
    else if name in Cleaned(entries, calls.visits, calls.clock.value) then Fail(ReplayDetected)
    else if calls.writes < 3 then Fail(WriteFailed)
    else Pass
  }

  /** What the directory then holds: cleaned at most, or with a marker of as many writes as worked. */
  function AfterRecording(entries: map<bytes, Entry>, name: bytes, expiry: u64, calls: Calls): map<bytes, Entry> {
    if calls.clock.None? || !calls.openDirectory then entries
    else
      var r, cleaned := RecordOutcome(entries, name, calls), Cleaned(entries, calls.visits, calls.clock.value);
      if r in {Fail(CreateFailed), Fail(ReplayDetected)} then cleaned
      else cleaned[name := Regular(Written(expiry, Min(calls.writes, 3)))]
  }

  class MarkerDirectory {
    var entries: map<bytes, Entry>

    constructor (entries: map<bytes, Entry>)
      ensures this.entries == entries
    {
      this.entries := entries;
    }

    /**
     Removes exactly the removable entries it can read and remove; everything else, symbolic links included, stays.
     */
    method CleanupMarkers(opens: bool, visits: seq<Visit>, now: u64) returns (r: Outcome<RecordError>)
      modifies this
      ensures r == if opens then Pass else Fail(CleanupFailed)
      ensures entries == if opens then Cleaned(old(entries), visits, now) else old(entries)
    {
      if !opens { return Fail(CleanupFailed); }
      var i := 0;
      assert entries == Cleaned(entries, [], now);
      while i < |visits|
        invariant 0 <= i <= |visits|
        invariant entries == Cleaned(old(entries), visits[..i], now)
      {
        var visit := visits[i];
        assert visits[..i + 1] == visits[..i] + [visit];
        CleanedOne(old(entries), visits[..i], visit, now);
        i := i + 1;
        if !IsMarkerName(visit.name) { continue; }
        if visit.name !in entries || !visit.readable { continue; }
        if entries[visit.name].NotRegular? { continue; }
        var parsed := ParseExpiry(Take(entries[visit.name].contents));
        if parsed.Some? && parsed.value < now && visit.removes {
          entries := entries - {visit.name};
        }
      }
      assert visits[..i] == visits;
      return Pass;
    }

    /** Exclusive creation: fails on anything that is already there, and for reasons of its own. */
    method CreateMarker(name: bytes, works: bool) returns (r: Outcome<RecordError>)
      modifies this
      ensures r == if !works then Fail(CreateFailed) else if name in old(entries) then Fail(ReplayDetected) else Pass
      ensures entries == if r.Pass? then old(entries)[name := Regular([])] else old(entries)
    {
      if !works { return Fail(CreateFailed); }
      if name in entries { return Fail(ReplayDetected); }
      entries := entries[name := Regular([])];
      return Pass;
    }

    method Append(name: bytes, text: bytes)
      requires name in entries && entries[name].Regular?
      modifies this
      ensures entries == old(entries)[name := Regular(old(entries)[name].contents + text)]
    {
      entries := entries[name := Regular(entries[name].contents + text)];
    }

    /** The first failure, and what the directory holds then. */
    method RecordReplayMarker(name: bytes, expiry: u64, calls: Calls) returns (r: Outcome<RecordError>)
      modifies this
      ensures r == RecordOutcome(old(entries), name, calls)
      ensures entries == AfterRecording(old(entries), name, expiry, calls)
    {
      if calls.clock.None? { return Fail(ClockUnreadable); }
      r := CleanupMarkers(calls.openDirectory, calls.visits, calls.clock.value);
      if r.Fail? { return; }
      r := CreateMarker(name, calls.create);
      if r.Fail? { return; }
      if calls.writes < 1 { return Fail(WriteFailed); }
      Append(name, PREFIX);
      assert [] + PREFIX == Written(expiry, 1);
      if calls.writes < 2 { return Fail(WriteFailed); }
      Append(name, Decimal(expiry));
      if calls.writes < 3 { return Fail(WriteFailed); }
      Append(name, [NEWLINE]);
      return Pass;
    }
  }

  /**
   A recorded marker goes exactly when some cleanup can read and remove it by a clock past its expiry; so the second
   recording of a response is refused exactly until then.
   */
  lemma RecordedMarkerStays(entries: map<bytes, Entry>, name: bytes, expiry: u64, visits: seq<Visit>, now: u64)
    requires IsMarkerName(name) && name in entries && entries[name] == Regular(Written(expiry, 3))
    ensures name !in Cleaned(entries, visits, now) <==>
            expiry < now && exists i :: 0 <= i < |visits| && visits[i] == Visit(name, true, true)
  {
    MarkerRoundTrip(expiry, 3);
  }

  /**
   Recording twice: the second time is refused as a replay unless its cleanup removed the first marker, past its
   expiry.
   */
  lemma SecondRecordingIsRefused(entries: map<bytes, Entry>, name: bytes, expiry: u64, first: Calls, second: Calls)
    requires IsMarkerName(name) && RecordOutcome(entries, name, first).Pass? && second.clock.Some?
             && second.openDirectory && second.create
    ensures var recorded := Cleaned(entries, first.visits, first.clock.value)[name := Regular(Written(expiry, 3))];
            RecordOutcome(recorded, name, second) == Fail(ReplayDetected) <==>
            !(&& expiry < second.clock.value
              && exists i :: 0 <= i < |second.visits| && second.visits[i] == Visit(name, true, true))
  {
    var recorded := Cleaned(entries, first.visits, first.clock.value)[name := Regular(Written(expiry, 3))];
    RecordedMarkerStays(recorded, name, expiry, second.visits, second.clock.value);
  }
}
