/**
 The sliding-window limiter of agent/Sources/MacosAuthAgent/main.swift, and the limiter with a full history that it
 refines.
 */
module RateLimiting {
  import opened Bytes

  const PIPE: byte := '|' as int

  /** The key under which the admissions of a (host, service, user) triple are counted. */
  function Key(host: bytes, service: bytes, user: bytes): bytes {
    host + [PIPE] + service + [PIPE] + user
  }

  function SaturatingMilliseconds(seconds: u64): u64 {
    if seconds * 1000 >= U64_LIMIT then U64_MAX else seconds * 1000
  }

  /** The oldest instant that still counts at `now`. */
  function Cutoff(now: u64, windowMs: u64): u64 { if now > windowMs then now - windowMs else 0 }

  function Recent(events: seq<u64>, cutoff: u64): (r: seq<u64>)
    ensures |r| <= |events|
    ensures forall t :: t in r <==> t in events && t >= cutoff
  {
    if events == [] then []
    else
      var front, last := events[..|events| - 1], events[|events| - 1];
      assert events == front + [last];
      if last >= cutoff then Recent(front, cutoff) + [last] else Recent(front, cutoff)
  }

  /**
   The reference limiter: it forgets nothing, and admits while the window ending now holds fewer than `maxRequests`.
   */
  predicate FullHistoryAllows(history: seq<u64>, now: u64, windowMs: u64, maxRequests: int) {
    maxRequests <= 0 || |Recent(history, Cutoff(now, windowMs))| < maxRequests
  }

  lemma {:induction false} RecentAppend(events: seq<u64>, t: u64, cutoff: u64)
    ensures Recent(events + [t], cutoff) == if t >= cutoff then Recent(events, cutoff) + [t] else Recent(events, cutoff)
  {
    assert (events + [t])[..|events|] == events;
  }

  /** Pruning with an older cutoff first changes nothing. */
  lemma {:induction false} RecentOfRecent(events: seq<u64>, older: u64, cutoff: u64)
    requires older <= cutoff
    ensures Recent(Recent(events, older), cutoff) == Recent(events, cutoff)
  {
    if events != [] {
      var front, last := events[..|events| - 1], events[|events| - 1];
      RecentOfRecent(front, older, cutoff);
      if last >= older { RecentAppend(Recent(front, older), last, cutoff); }
    }
  }

  // ---- Whole runs ----

  predicate Nondecreasing(times: seq<u64>) {
    forall i, j :: 0 <= i < j < |times| ==> times[i] <= times[j]
  }

  /** Every admission, when it was made, was one the reference limiter allows. */
  predicate AdmittedOneByOne(history: seq<u64>, windowMs: u64, maxRequests: int) {
    forall i :: 0 <= i < |history| ==> FullHistoryAllows(history[..i], history[i], windowMs, maxRequests)
  }

  /** The admissions in the closed interval from `lo` to `hi`. */
  function Within(history: seq<u64>, lo: int, hi: int): seq<u64> {
    if history == [] then []
    else
      var front, last := history[..|history| - 1], history[|history| - 1];
      if lo <= last <= hi then Within(front, lo, hi) + [last] else Within(front, lo, hi)
  }

  lemma {:induction false} WithinIsRecent(history: seq<u64>, lo: int, hi: int, cutoff: u64)
    requires cutoff <= lo || cutoff == 0
    ensures |Within(history, lo, hi)| <= |Recent(history, cutoff)|
  {
    if history != [] {
      WithinIsRecent(history[..|history| - 1], lo, hi, cutoff);
    }
  }

  /** No closed interval as long as the window ever holds more than `maxRequests` admissions. */
  lemma {:induction false} WindowBound(history: seq<u64>, windowMs: u64, maxRequests: int, lo: int)
    requires maxRequests > 0
    requires Nondecreasing(history) && AdmittedOneByOne(history, windowMs, maxRequests)
    ensures |Within(history, lo, lo + windowMs)| <= maxRequests
  {
    if history != [] {
      var front, last := history[..|history| - 1], history[|history| - 1];
      assert Nondecreasing(front);
      assert AdmittedOneByOne(front, windowMs, maxRequests) by {
        forall i | 0 <= i < |front| ensures FullHistoryAllows(front[..i], front[i], windowMs, maxRequests) {
          assert front[..i] == history[..i] && front[i] == history[i];
        }
      }
      if lo <= last <= lo + windowMs {
        assert history[..|history| - 1] == front;
        assert FullHistoryAllows(front, last, windowMs, maxRequests);
        WithinIsRecent(front, lo, lo + windowMs, Cutoff(last, windowMs));
      } else {
        WindowBound(front, windowMs, maxRequests, lo);
      }
    }
  }

  // ---- One key across calls ----

  function Last(readings: seq<u64>): u64 { if readings == [] then 0 else readings[|readings| - 1] }

  /** Under a clock that never went back: the stored list and the full list agree on everything that still counts. */
  ghost predicate Agrees(stored: seq<u64>, admitted: seq<u64>, last: u64, windowMs: u64, maxRequests: int) {
    && Recent(stored, Cutoff(last, windowMs)) == Recent(admitted, Cutoff(last, windowMs))
    && Nondecreasing(admitted)
    && (admitted != [] ==> admitted[|admitted| - 1] <= last)
    && AdmittedOneByOne(admitted, windowMs, maxRequests)
  }

  /** What holds of one key's stored list and its full list of admissions, given all clock readings so far. */
  ghost predicate KeyOk(stored: seq<u64>, admitted: seq<u64>, readings: seq<u64>, windowMs: u64, maxRequests: int) {
    && (maxRequests > 0 ==> |stored| <= maxRequests)
    && (Nondecreasing(readings) ==> Agrees(stored, admitted, Last(readings), windowMs, maxRequests))
  }

  lemma LaterReading(readings: seq<u64>, now: u64)
    requires Nondecreasing(readings + [now])
    ensures Nondecreasing(readings) && Last(readings) <= now
  {
    var later := readings + [now];
    assert forall i :: 0 <= i < |readings| ==> later[i] == readings[i];
    if readings != [] { assert later[|readings| - 1] <= later[|readings|]; }
  }

  /** Agreement with the full history outlives the passing of time. */
  lemma AgreesLater(stored: seq<u64>, admitted: seq<u64>, last: u64, now: u64, windowMs: u64, maxRequests: int)
    requires last <= now && Agrees(stored, admitted, last, windowMs, maxRequests)
    ensures Agrees(stored, admitted, now, windowMs, maxRequests)
  {
    RecentOfRecent(stored, Cutoff(last, windowMs), Cutoff(now, windowMs));
    RecentOfRecent(admitted, Cutoff(last, windowMs), Cutoff(now, windowMs));
  }

  lemma TimePasses(stored: seq<u64>, admitted: seq<u64>, readings: seq<u64>, now: u64, windowMs: u64, maxRequests: int)
    requires KeyOk(stored, admitted, readings, windowMs, maxRequests)
    ensures KeyOk(stored, admitted, readings + [now], windowMs, maxRequests)
  {
    if Nondecreasing(readings + [now]) {
      LaterReading(readings, now);
      AgreesLater(stored, admitted, Last(readings), now, windowMs, maxRequests);
    }
  }

  lemma AdmitOneMore(admitted: seq<u64>, now: u64, windowMs: u64, maxRequests: int)
    requires Nondecreasing(admitted) && (admitted != [] ==> admitted[|admitted| - 1] <= now)
    requires AdmittedOneByOne(admitted, windowMs, maxRequests)
    requires FullHistoryAllows(admitted, now, windowMs, maxRequests)
    ensures Nondecreasing(admitted + [now]) && AdmittedOneByOne(admitted + [now], windowMs, maxRequests)
  {
    OneMoreByOne(admitted, now, windowMs, maxRequests);
  }

  /** The limiter's step on one key: prune, decide, record. */
  function Step(stored: seq<u64>, now: u64, windowMs: u64, maxRequests: int): (seq<u64>, bool) {
    var events := Recent(stored, Cutoff(now, windowMs));
    if maxRequests <= 0 then (stored, true)
    else if |events| >= maxRequests then (events, false)
    else (events + [now], true)
  }

  lemma AgreesStep(stored: seq<u64>, admitted: seq<u64>, now: u64, windowMs: u64, maxRequests: int)
    requires maxRequests > 0 && Agrees(stored, admitted, now, windowMs, maxRequests)
    ensures var (after, ok) := Step(stored, now, windowMs, maxRequests);
            && ok == FullHistoryAllows(admitted, now, windowMs, maxRequests)
            && Agrees(after, if ok then admitted + [now] else admitted, now, windowMs, maxRequests)
  {
    var cutoff := Cutoff(now, windowMs);
    var events := Recent(stored, cutoff);
    RecentOfRecent(stored, cutoff, cutoff);
    if |events| < maxRequests {
      assert Recent(events, cutoff) == events == Recent(admitted, cutoff);
      RecentAppend(events, now, cutoff);
      RecentAppend(admitted, now, cutoff);
      AdmitOneMore(admitted, now, windowMs, maxRequests);
    }
  }

  /** One call keeps the key in order, and decides as the full history does while the clock has not gone back. */
  lemma KeyStep(stored: seq<u64>, admitted: seq<u64>, readings: seq<u64>, now: u64, windowMs: u64, maxRequests: int)
    requires maxRequests > 0
    requires KeyOk(stored, admitted, readings, windowMs, maxRequests)
    ensures var (after, ok) := Step(stored, now, windowMs, maxRequests);
            && KeyOk(after, if ok then admitted + [now] else admitted, readings + [now], windowMs, maxRequests)
            && (Nondecreasing(readings + [now]) ==> ok == FullHistoryAllows(admitted, now, windowMs, maxRequests))
  {
    if Nondecreasing(readings + [now]) {
      LaterReading(readings, now);
      AgreesLater(stored, admitted, Last(readings), now, windowMs, maxRequests);
      AgreesStep(stored, admitted, now, windowMs, maxRequests);
    }
  }

  // ---- Whole runs on one key ----

  /** The stored list and the decisions of the pruning limiter. */
  function PrunedRun(times: seq<u64>, windowMs: u64, maxRequests: int): (seq<u64>, seq<bool>) {
    if times == [] then ([], [])
    else
      var (stored, decisions) := PrunedRun(times[..|times| - 1], windowMs, maxRequests);
      var (after, ok) := Step(stored, times[|times| - 1], windowMs, maxRequests);
      (after, decisions + [ok])
  }

  /** The admissions and the decisions of the reference limiter. */
  function FullRun(times: seq<u64>, windowMs: u64, maxRequests: int): (seq<u64>, seq<bool>) {
    if times == [] then ([], [])
    else
      var (admitted, decisions) := FullRun(times[..|times| - 1], windowMs, maxRequests);
      var ok := FullHistoryAllows(admitted, times[|times| - 1], windowMs, maxRequests);
      (if ok then admitted + [times[|times| - 1]] else admitted, decisions + [ok])
  }

  /** Under a nondecreasing clock the pruning limiter decides every call of every run as the reference limiter does. */
  lemma {:induction false} PruningRefinesFullHistory(times: seq<u64>, windowMs: u64, maxRequests: int)
    requires maxRequests > 0 && Nondecreasing(times)
    ensures PrunedRun(times, windowMs, maxRequests).1 == FullRun(times, windowMs, maxRequests).1
    ensures KeyOk(PrunedRun(times, windowMs, maxRequests).0, FullRun(times, windowMs, maxRequests).0, times, windowMs,
                  maxRequests)
  {
    if times != [] {
      var front, now := times[..|times| - 1], times[|times| - 1];
      assert front + [now] == times;
      LaterReading(front, now);
      PruningRefinesFullHistory(front, windowMs, maxRequests);
      KeyStep(PrunedRun(front, windowMs, maxRequests).0, FullRun(front, windowMs, maxRequests).0, front, now,
              windowMs, maxRequests);
    }
  }

  lemma PrunedRunAppend(times: seq<u64>, now: u64, windowMs: u64, maxRequests: int)
    ensures var (stored, decisions) := PrunedRun(times, windowMs, maxRequests);
            var (after, ok) := Step(stored, now, windowMs, maxRequests);
            PrunedRun(times + [now], windowMs, maxRequests) == (after, decisions + [ok])
  {
    assert (times + [now])[..|times|] == times;
  }

  lemma FullRunAppend(times: seq<u64>, now: u64, windowMs: u64, maxRequests: int)
    ensures var (admitted, decisions) := FullRun(times, windowMs, maxRequests);
            var ok := FullHistoryAllows(admitted, now, windowMs, maxRequests);
            FullRun(times + [now], windowMs, maxRequests)
            == (if ok then admitted + [now] else admitted, decisions + [ok])
  {
    assert (times + [now])[..|times|] == times;
  }

  // ---- When the clock may go back ----

  predicate SameDecisions(times: seq<u64>, windowMs: u64, maxRequests: int) {
    PrunedRun(times, windowMs, maxRequests).1 == FullRun(times, windowMs, maxRequests).1
  }

  /** Without a limit nothing is ever refused. */
  lemma {:induction false} NoLimit(times: seq<u64>, windowMs: u64, maxRequests: int)
    requires maxRequests <= 0
    ensures SameDecisions(times, windowMs, maxRequests)
  {
    if times != [] { NoLimit(times[..|times| - 1], windowMs, maxRequests); }
  }

  lemma {:induction false} NothingOld(events: seq<u64>, cutoff: u64)
    requires cutoff == 0
    ensures Recent(events, cutoff) == events
  {
    if events != [] {
      NothingOld(events[..|events| - 1], cutoff);
      assert events == events[..|events| - 1] + [events[|events| - 1]];
    }
  }

  /** The widest window never prunes. */
  lemma {:induction false} WidestWindow(times: seq<u64>, windowMs: u64, maxRequests: int)
    requires windowMs == U64_MAX && maxRequests > 0
    ensures SameDecisions(times, windowMs, maxRequests)
    ensures PrunedRun(times, windowMs, maxRequests).0 == FullRun(times, windowMs, maxRequests).0
    ensures |FullRun(times, windowMs, maxRequests).0| <= maxRequests
  {
    if times != [] {
      var front, now := times[..|times| - 1], times[|times| - 1];
      WidestWindow(front, windowMs, maxRequests);
      NothingOld(FullRun(front, windowMs, maxRequests).0, Cutoff(now, windowMs));
    }
  }

  lemma {:induction false} RecentOfNondecreasing(events: seq<u64>, cutoff: u64)
    requires Nondecreasing(events)
    ensures Recent(events, cutoff) == [] <==> (events != [] ==> events[|events| - 1] < cutoff)
  {
    if events != [] {
      var front := events[..|events| - 1];
      assert Nondecreasing(front);
      RecentOfNondecreasing(front, cutoff);
    }
  }

  /** The stored list of a limiter with one place: the last admission, and that is the latest. */
  predicate HoldsLast(stored: seq<u64>, admitted: seq<u64>) {
    Nondecreasing(admitted) && stored == if admitted == [] then [] else [admitted[|admitted| - 1]]
  }

  lemma OnePlaceStep(stored: seq<u64>, admitted: seq<u64>, now: u64, windowMs: u64, maxRequests: int)
    requires maxRequests == 1 && HoldsLast(stored, admitted)
    ensures var (after, ok) := Step(stored, now, windowMs, maxRequests);
            ok == FullHistoryAllows(admitted, now, windowMs, maxRequests)
                && HoldsLast(after, if ok then admitted + [now] else admitted)
  {
    var cutoff := Cutoff(now, windowMs);
    RecentOfNondecreasing(admitted, cutoff);
    if admitted != [] { RecentOfOne(admitted[|admitted| - 1], cutoff); }
  }

  /** With a limit of one the list holds the last admission, and admissions only ever get later. */
  lemma {:induction false} LimitOfOne(times: seq<u64>, windowMs: u64, maxRequests: int)
    requires maxRequests == 1
    ensures SameDecisions(times, windowMs, maxRequests)
    ensures HoldsLast(PrunedRun(times, windowMs, maxRequests).0, FullRun(times, windowMs, maxRequests).0)
  {
    if times != [] {
      var front, now := times[..|times| - 1], times[|times| - 1];
      LimitOfOne(front, windowMs, maxRequests);
      OnePlaceStep(PrunedRun(front, windowMs, maxRequests).0, FullRun(front, windowMs, maxRequests).0, now, windowMs,
                   maxRequests);
    }
  }

  lemma RecentOfOne(t: u64, cutoff: u64)
    ensures Recent([t], cutoff) == if t >= cutoff then [t] else []
  {
    RecentAppend([], t, cutoff);
    assert [] + [t] == [t];
  }

  function Zeros(n: nat): seq<u64> { seq(n, _ => 0) }

  function Trues(n: nat): seq<bool> { seq(n, _ => true) }

  lemma {:induction false} RecentZeros(n: nat, cutoff: u64)
    ensures Recent(Zeros(n), cutoff) == if cutoff == 0 then Zeros(n) else []
  {
    if n > 0 {
      assert Zeros(n)[..n - 1] == Zeros(n - 1);
      RecentZeros(n - 1, cutoff);
      assert Zeros(n) == Zeros(n - 1) + [0];
    }
  }

  /** At first both limiters admit alike, as long as there is room. */
  lemma {:induction false} ZerosAdmitted(n: nat, windowMs: u64, maxRequests: int)
    requires n <= maxRequests
    ensures PrunedRun(Zeros(n), windowMs, maxRequests) == (Zeros(n), Trues(n))
    ensures FullRun(Zeros(n), windowMs, maxRequests) == (Zeros(n), Trues(n))
  {
    if n > 0 {
      assert Zeros(n) == Zeros(n - 1) + [0];
      assert Trues(n) == Trues(n - 1) + [true];
      ZerosAdmitted(n - 1, windowMs, maxRequests);
      RecentZeros(n - 1, 0);
      PrunedRunAppend(Zeros(n - 1), 0, windowMs, maxRequests);
      FullRunAppend(Zeros(n - 1), 0, windowMs, maxRequests);
    } else {
      assert Zeros(n) == [] && Trues(n) == [];
    }
  }

  /** A late reading prunes the early admissions, and takes one place. */
  lemma LatePrunes(n: nat, late: u64, windowMs: u64, maxRequests: int)
    requires n <= maxRequests && maxRequests >= 1 && late > windowMs
    ensures PrunedRun(Zeros(n) + [late], windowMs, maxRequests) == ([late], Trues(n) + [true])
    ensures FullRun(Zeros(n) + [late], windowMs, maxRequests) == (Zeros(n) + [late], Trues(n) + [true])
  {
    ZerosAdmitted(n, windowMs, maxRequests);
    RecentZeros(n, Cutoff(late, windowMs));
    PrunedRunAppend(Zeros(n), late, windowMs, maxRequests);
    FullRunAppend(Zeros(n), late, windowMs, maxRequests);
    assert [] + [late] == [late];
  }

  /** Then the clock goes back: the pruned list admits again, the full history knows better once it is full. */
  lemma ClockGoesBack(n: nat, late: u64, windowMs: u64, maxRequests: int)
    requires n <= maxRequests && maxRequests >= 2 && late > windowMs && n + 1 >= maxRequests
    ensures PrunedRun(Zeros(n) + [late] + [0], windowMs, maxRequests).1 == Trues(n) + [true] + [true]
    ensures FullRun(Zeros(n) + [late] + [0], windowMs, maxRequests).1 == Trues(n) + [true] + [false]
  {
    LatePrunes(n, late, windowMs, maxRequests);
    PrunedRunAppend(Zeros(n) + [late], 0, windowMs, maxRequests);
    FullRunAppend(Zeros(n) + [late], 0, windowMs, maxRequests);
    NothingOld([late], Cutoff(0, windowMs));
    NothingOld(Zeros(n) + [late], Cutoff(0, windowMs));
  }

  /**
   Pruning decides as the full history does on every sequence of readings, backward steps included, exactly if the
   limit is at most one or the window is the widest there is. Otherwise the readings of `ClockGoesBack` differ.
   */
  lemma PruningIsExact(windowMs: u64, maxRequests: int)
    ensures (forall times :: SameDecisions(times, windowMs, maxRequests)) <==> maxRequests <= 1 || windowMs == U64_MAX
  {
    if maxRequests <= 1 || windowMs == U64_MAX {
      forall times ensures SameDecisions(times, windowMs, maxRequests) {
        if maxRequests <= 0 { NoLimit(times, windowMs, maxRequests); }
        else if maxRequests == 1 { LimitOfOne(times, windowMs, maxRequests); }
        else { WidestWindow(times, windowMs, maxRequests); }
      }
    } else {
      var n := maxRequests - 1;
      var times := Zeros(n) + [U64_MAX] + [0];
      ClockGoesBack(n, U64_MAX, windowMs, maxRequests);
      var pruned, full := PrunedRun(times, windowMs, maxRequests).1, FullRun(times, windowMs, maxRequests).1;
      assert pruned[n + 1] != full[n + 1];
      assert !SameDecisions(times, windowMs, maxRequests);
    }
  }

  /** The readings on which the limiter admitted. */
  function Admissions(times: seq<u64>, windowMs: u64, maxRequests: int): seq<u64> {
    if times == [] then []
    else
      var front, now := times[..|times| - 1], times[|times| - 1];
      var earlier := Admissions(front, windowMs, maxRequests);
      if Step(PrunedRun(front, windowMs, maxRequests).0, now, windowMs, maxRequests).1 then earlier + [now] else earlier
  }

  predicate WindowHolds(times: seq<u64>, windowMs: u64, maxRequests: int, lo: int) {
    |Within(Admissions(times, windowMs, maxRequests), lo, lo + windowMs)| <= maxRequests
  }

  /** Where the decisions agree on every beginning, the admissions are those of the reference limiter. */
  lemma {:induction false} AdmissionsAgree(times: seq<u64>, windowMs: u64, maxRequests: int)
    requires forall i :: 0 <= i <= |times| ==> SameDecisions(times[..i], windowMs, maxRequests)
    ensures Admissions(times, windowMs, maxRequests) == FullRun(times, windowMs, maxRequests).0
  {
    if times != [] {
      var front := times[..|times| - 1];
      forall i | 0 <= i <= |front| ensures SameDecisions(front[..i], windowMs, maxRequests) {
        assert front[..i] == times[..i];
      }
      AdmissionsAgree(front, windowMs, maxRequests);
      assert times[..|times|] == times;
      var pruned, full := PrunedRun(times, windowMs, maxRequests).1, FullRun(times, windowMs, maxRequests).1;
      assert pruned == full by { assert SameDecisions(times[..|times|], windowMs, maxRequests); }
      assert pruned[|pruned| - 1] == full[|full| - 1];
    }
  }

  lemma {:induction false} FullRunOneByOne(times: seq<u64>, windowMs: u64, maxRequests: int)
    ensures AdmittedOneByOne(FullRun(times, windowMs, maxRequests).0, windowMs, maxRequests)
  {
    if times != [] {
      var front, now := times[..|times| - 1], times[|times| - 1];
      var admitted := FullRun(front, windowMs, maxRequests).0;
      FullRunOneByOne(front, windowMs, maxRequests);
      if FullHistoryAllows(admitted, now, windowMs, maxRequests) { OneMoreByOne(admitted, now, windowMs, maxRequests); }
    }
  }

  lemma OneMoreByOne(admitted: seq<u64>, now: u64, windowMs: u64, maxRequests: int)
    requires AdmittedOneByOne(admitted, windowMs, maxRequests)
    requires FullHistoryAllows(admitted, now, windowMs, maxRequests)
    ensures AdmittedOneByOne(admitted + [now], windowMs, maxRequests)
  {
    var more := admitted + [now];
    forall i | 0 <= i < |more| ensures FullHistoryAllows(more[..i], more[i], windowMs, maxRequests) {
      assert i < |admitted| ==> more[..i] == admitted[..i];
      assert i == |admitted| ==> more[..i] == admitted;
    }
  }

  lemma {:induction false} WithinIsShorter(history: seq<u64>, lo: int, hi: int)
    ensures |Within(history, lo, hi)| <= |history|
  {
    if history != [] { WithinIsShorter(history[..|history| - 1], lo, hi); }
  }

  lemma WindowHoldsAnyway(times: seq<u64>, windowMs: u64, maxRequests: int, lo: int)
    requires maxRequests == 1 || (maxRequests > 0 && windowMs == U64_MAX)
    ensures WindowHolds(times, windowMs, maxRequests, lo)
  {
    forall i | 0 <= i <= |times| ensures SameDecisions(times[..i], windowMs, maxRequests) {
      if maxRequests == 1 { LimitOfOne(times[..i], windowMs, maxRequests); }
          else { WidestWindow(times[..i], windowMs, maxRequests); }
    }
    AdmissionsAgree(times, windowMs, maxRequests);
    var admitted := FullRun(times, windowMs, maxRequests).0;
    if maxRequests == 1 {
      LimitOfOne(times, windowMs, maxRequests);
      FullRunOneByOne(times, windowMs, maxRequests);
      WindowBound(admitted, windowMs, maxRequests, lo);
    } else {
      WidestWindow(times, windowMs, maxRequests);
      WithinIsShorter(admitted, lo, lo + windowMs);
    }
  }

  /** While the clock does not go back, the window holds. */
  lemma WindowHoldsInOrder(times: seq<u64>, windowMs: u64, maxRequests: int, lo: int)
    requires maxRequests > 0 && Nondecreasing(times)
    ensures WindowHolds(times, windowMs, maxRequests, lo)
  {
    forall i | 0 <= i <= |times| ensures SameDecisions(times[..i], windowMs, maxRequests) {
      PruningRefinesFullHistory(times[..i], windowMs, maxRequests);
    }
    AdmissionsAgree(times, windowMs, maxRequests);
    PruningRefinesFullHistory(times, windowMs, maxRequests);
    WindowBound(FullRun(times, windowMs, maxRequests).0, windowMs, maxRequests, lo);
  }

  lemma AdmissionsAppend(times: seq<u64>, now: u64, windowMs: u64, maxRequests: int)
    ensures var ok := Step(PrunedRun(times, windowMs, maxRequests).0, now, windowMs, maxRequests).1;
            var earlier := Admissions(times, windowMs, maxRequests);
            Admissions(times + [now], windowMs, maxRequests) == if ok then earlier + [now] else earlier
  {
    assert (times + [now])[..|times|] == times;
  }

  lemma {:induction false} AdmissionsOfZeros(n: nat, windowMs: u64, maxRequests: int)
    requires n <= maxRequests
    ensures Admissions(Zeros(n), windowMs, maxRequests) == Zeros(n)
  {
    if n > 0 {
      assert Zeros(n) == Zeros(n - 1) + [0];
      AdmissionsOfZeros(n - 1, windowMs, maxRequests);
      ZerosAdmitted(n - 1, windowMs, maxRequests);
      RecentZeros(n - 1, 0);
      AdmissionsAppend(Zeros(n - 1), 0, windowMs, maxRequests);
    }
  }

  lemma WithinAppend(history: seq<u64>, t: u64, lo: int, hi: int)
    ensures Within(history + [t], lo, hi) == if lo <= t <= hi then Within(history, lo, hi) + [t]
            else Within(history, lo, hi)
  {
    assert (history + [t])[..|history|] == history;
  }

  lemma {:induction false} WithinZeros(n: nat, hi: int)
    requires hi >= 0
    ensures |Within(Zeros(n), 0, hi)| == n
  {
    if n > 0 {
      assert Zeros(n) == Zeros(n - 1) + [0];
      WithinZeros(n - 1, hi);
      WithinAppend(Zeros(n - 1), 0, 0, hi);
    }
  }

  /** One more than the limit is admitted at instant 0 when the clock goes back there from a late reading. */
  lemma WindowOverflows(late: u64, windowMs: u64, maxRequests: int)
    requires maxRequests >= 2 && late > windowMs
    ensures !WindowHolds(Zeros(maxRequests) + [late] + [0], windowMs, maxRequests, 0)
  {
    var zeros, start := Zeros(maxRequests), Zeros(maxRequests) + [late];
    AdmissionsOfZeros(maxRequests, windowMs, maxRequests);
    ZerosAdmitted(maxRequests, windowMs, maxRequests);
    RecentZeros(maxRequests, Cutoff(late, windowMs));
    AdmissionsAppend(zeros, late, windowMs, maxRequests);
    LatePrunes(maxRequests, late, windowMs, maxRequests);
    NothingOld([late], Cutoff(0, windowMs));
    AdmissionsAppend(start, 0, windowMs, maxRequests);
    WithinZeros(maxRequests, windowMs);
    WithinAppend(zeros, late, 0, windowMs);
    WithinAppend(start, 0, 0, windowMs);
  }

  /**
   The window bound too survives every sequence of readings exactly if the limit is one or the window is the widest.
   */
  lemma WindowBoundIsExact(windowMs: u64, maxRequests: int)
    requires maxRequests > 0
    ensures (forall times, lo :: WindowHolds(times, windowMs, maxRequests, lo)) <==>
              maxRequests == 1
              || windowMs == U64_MAX
  {
    if maxRequests == 1 || windowMs == U64_MAX {
      forall times, lo ensures WindowHolds(times, windowMs, maxRequests, lo) {
        WindowHoldsAnyway(times, windowMs, maxRequests, lo);
      }
    } else {
      WindowOverflows(U64_MAX, windowMs, maxRequests);
    }
  }

  // ---- All keys ----

  function Lookup(m: map<bytes, seq<u64>>, key: bytes): seq<u64> { if key in m then m[key] else [] }

  ghost predicate AllKeysOk(events: map<bytes, seq<u64>>, history: map<bytes, seq<u64>>, readings: seq<u64>,
                            windowMs: u64,
                            maxRequests: int) {
    forall key :: KeyOk(Lookup(events, key), Lookup(history, key), readings, windowMs, maxRequests)
  }

  lemma AllKeysStep(events: map<bytes, seq<u64>>, history: map<bytes, seq<u64>>, readings: seq<u64>, now: u64,
                    key: bytes,
                    windowMs: u64, maxRequests: int)
    requires maxRequests > 0 && AllKeysOk(events, history, readings, windowMs, maxRequests)
    ensures var (after, ok) := Step(Lookup(events, key), now, windowMs, maxRequests);
            var admitted := Lookup(history, key);
            AllKeysOk(events[key := after], if ok then history[key := admitted + [now]] else history,
                      readings + [now], windowMs, maxRequests)
  {
    var (after, ok) := Step(Lookup(events, key), now, windowMs, maxRequests);
    var admitted := Lookup(history, key);
    var events', history' := events[key := after], if ok then history[key := admitted + [now]] else history;
    forall other ensures KeyOk(Lookup(events', other), Lookup(history', other), readings + [now], windowMs,
                               maxRequests) {
      if other == key {
        KeyStep(Lookup(events, key), admitted, readings, now, windowMs, maxRequests);
      } else {
        TimePasses(Lookup(events, other), Lookup(history, other), readings, now, windowMs, maxRequests);
      }
    }
  }

  /**
   The limiter object. `history` and `readings` are ghost: all admissions per key and all clock readings.
   `Valid()` ties every pruned list to the full history for as long as the wall clock has not gone backwards.
   */
  class RateLimiter {
    const windowMs: u64
    const maxRequests: int
    var eventsByKey: map<bytes, seq<u64>>
    ghost var history: map<bytes, seq<u64>>
    ghost var readings: seq<u64>

    ghost predicate Valid()
      reads this
    {
      AllKeysOk(eventsByKey, history, readings, windowMs, maxRequests)
    }

    constructor (windowSeconds: u64, maxRequests: int)
      ensures Valid() && readings == [] && history == map[]
      ensures windowMs == SaturatingMilliseconds(windowSeconds) && this.maxRequests == maxRequests
    {
      windowMs := SaturatingMilliseconds(windowSeconds);
      this.maxRequests := maxRequests;
      eventsByKey := map[];
      history := map[];
      readings := [];
    }

    /**
     Decides as the reference limiter does on the full history while the clock never goes back; a refusal admits
     nothing.
     */
    method Allow(host: bytes, service: bytes, user: bytes, now: u64) returns (ok: bool)
      requires Valid()
      modifies this
      ensures Valid()
      ensures (Lookup(eventsByKey, Key(host, service, user)), ok) ==
              Step(Lookup(old(eventsByKey), Key(host, service, user)), now, windowMs, maxRequests)
      ensures maxRequests <= 0 ==>
                ok && readings == old(readings) && history == old(history)
                && eventsByKey == old(eventsByKey)
      ensures maxRequests > 0 ==> readings == old(readings) + [now]
      ensures maxRequests > 0 && Nondecreasing(readings) ==>
                ok == FullHistoryAllows(Lookup(old(history), Key(host, service, user)), now, windowMs, maxRequests)
      ensures maxRequests > 0 ==>
                var key := Key(host, service, user);
                history == if !ok then old(history) else old(history)[key := Lookup(old(history), key) + [now]]
      ensures forall key :: key != Key(host, service, user) ==>
                Lookup(eventsByKey, key)
                == Lookup(old(eventsByKey), key)
    {
      if maxRequests <= 0 { return true; }
      var cutoff := Cutoff(now, windowMs);
      var key := Key(host, service, user);
      var events := Recent(Lookup(eventsByKey, key), cutoff);
      AllKeysStep(eventsByKey, history, readings, now, key, windowMs, maxRequests);
      KeyStep(Lookup(eventsByKey, key), Lookup(history, key), readings, now, windowMs, maxRequests);
      readings := readings + [now];
      if |events| >= maxRequests {
        eventsByKey := eventsByKey[key := events];
        return false;
      }
      history := history[key := Lookup(history, key) + [now]];
      eventsByKey := eventsByKey[key := events + [now]];
      return true;
    }

    /**
     In every state the object can reach: no window overflows while the clock has not gone back, and storage is
     bounded anyway.
     */
    lemma WindowNeverOverflows(key: bytes, lo: int)
      requires Valid() && maxRequests > 0
      ensures Nondecreasing(readings) ==> |Within(Lookup(history, key), lo, lo + windowMs)| <= maxRequests
      ensures |Lookup(eventsByKey, key)| <= maxRequests
    {
      assert KeyOk(Lookup(eventsByKey, key), Lookup(history, key), readings, windowMs, maxRequests);
      if Nondecreasing(readings) { WindowBound(Lookup(history, key), windowMs, maxRequests, lo); }
    }
  }

  // ---- Separation of keys ----

  predicate NoPipe(s: bytes) { PIPE !in s }

  /** The text up to the first '|' and what follows it. */
  function CutAtPipe(s: bytes): (r: (bytes, bytes))
    requires !NoPipe(s)
    ensures NoPipe(r.0) && s == r.0 + [PIPE] + r.1
  {
    if s[0] == PIPE then ([], s[1..])
    else
      var (head, tail) := CutAtPipe(s[1..]);
      ([s[0]] + head, tail)
  }

  lemma {:induction false} CutAfter(head: bytes, tail: bytes)
    requires NoPipe(head)
    ensures !NoPipe(head + [PIPE] + tail) && CutAtPipe(head + [PIPE] + tail) == (head, tail)
  {
    var s := head + [PIPE] + tail;
    assert s[|head|] == PIPE;
    if head == [] {
      assert s[0] == PIPE && s[1..] == tail;
    } else {
      assert head[0] in head && s[0] == head[0];
      assert NoPipe(head[1..]);
      assert [head[0]] + head[1..] == head;
      CutAfter(head[1..], tail);
      assert s[1..] == head[1..] + [PIPE] + tail;
    }
  }

  /** Keys separate triples whose host and service contain no '|'. */
  lemma KeysSeparate(h1: bytes, s1: bytes, u1: bytes, h2: bytes, s2: bytes, u2: bytes)
    requires NoPipe(h1) && NoPipe(s1) && NoPipe(h2) && NoPipe(s2)
    requires Key(h1, s1, u1) == Key(h2, s2, u2)
    ensures h1 == h2 && s1 == s2 && u1 == u2
  {
    assert Key(h1, s1, u1) == h1 + [PIPE] + (s1 + [PIPE] + u1);
    assert Key(h2, s2, u2) == h2 + [PIPE] + (s2 + [PIPE] + u2);
    CutAfter(h1, s1 + [PIPE] + u1);
    CutAfter(h2, s2 + [PIPE] + u2);
    CutAfter(s1, u1);
    CutAfter(s2, u2);
  }

  /** A triple has its key to itself, among all triples, exactly when none of the three contains '|'. */
  lemma KeyIsExclusive(host: bytes, service: bytes, user: bytes)
    ensures (forall h: bytes, s: bytes, u: bytes :: Key(h, s, u) == Key(host, service, user) ==>
              h == host
              && s == service && u == user)
            <==> NoPipe(host) && NoPipe(service) && NoPipe(user)
  {
    if !NoPipe(host) {
      var (a, b) := CutAtPipe(host);
      assert Key(a, b, service + [PIPE] + user) == Key(host, service, user);
      assert a != host;
    } else if !NoPipe(service) {
      var (a, b) := CutAtPipe(service);
      assert Key(host, a, b + [PIPE] + user) == Key(host, service, user);
      assert a != service;
    } else if !NoPipe(user) {
      var (a, b) := CutAtPipe(user);
      assert Key(host + [PIPE] + service, a, b) == Key(host, service, user);
      assert (host + [PIPE] + service)[|host|] == PIPE;
    } else {
      forall h: bytes, s: bytes, u: bytes | Key(h, s, u) == Key(host, service, user)
        ensures h == host && s == service && u == user
      {
        PipeFreeKey(host, service, user, h, s, u);
      }
    }
  }

  lemma PipeFreeKey(host: bytes, service: bytes, user: bytes, h: bytes, s: bytes, u: bytes)
    requires NoPipe(host) && NoPipe(service) && NoPipe(user)
    requires Key(h, s, u) == Key(host, service, user)
    ensures h == host && s == service && u == user
  {
    PipeCountOfKey(host, service, user);
    PipeCountOfKey(h, s, u);
    PipeCountZero(host);
    PipeCountZero(service);
    PipeCountZero(user);
    PipeCountZero(h);
    PipeCountZero(s);
    KeysSeparate(host, service, user, h, s, u);
  }

  function PipeCount(s: bytes): nat { if s == [] then 0 else (if s[0] == PIPE then 1 else 0) + PipeCount(s[1..]) }

  lemma {:induction false} PipeCountConcat(a: bytes, b: bytes)
    ensures PipeCount(a + b) == PipeCount(a) + PipeCount(b)
  {
    if a == [] {
      assert a + b == b;
    } else {
      PipeCountConcat(a[1..], b);
      assert (a + b)[1..] == a[1..] + b;
    }
  }

  lemma {:induction false} PipeCountZero(s: bytes)
    ensures NoPipe(s) <==> PipeCount(s) == 0
  {
    if s != [] {
      PipeCountZero(s[1..]);
      assert s == [s[0]] + s[1..];
    }
  }

  lemma PipeCountOfKey(host: bytes, service: bytes, user: bytes)
    ensures PipeCount(Key(host, service, user)) == PipeCount(host) + PipeCount(service) + PipeCount(user) + 2
  {
    PipeCountConcat(host + [PIPE] + service + [PIPE], user);
    PipeCountConcat(host + [PIPE] + service, [PIPE]);
    PipeCountConcat(host + [PIPE], service);
    PipeCountConcat(host, [PIPE]);
    assert PipeCount([PIPE]) == 1 + PipeCount([]);
  }
}
