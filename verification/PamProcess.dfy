/**
 The PAM shim's process machine (pam/pam_macos_auth.c): fork, poll, terminate, reap, and the mapping of exit codes.
 */
module PamProcess {
  import opened Bytes

  const HARD_FAILURE := 127
  const HELPER_TIMEOUT_EXIT := 10
  const GRACE_POLLS := 20

  datatype Status = Exited(code: int) | Signaled(signal: int) | OtherStatus

  /** What a `waitpid` call may report. For the blocking call `StillRunning` means that it has not returned yet. */
  datatype Wait = Reaps(status: Status) | StillRunning | Eintr | Echild | WaitOther

  /** One pass of a loop: the result of its `waitpid`, and the monotonic clock in milliseconds if it is read. */
  datatype Tick = Tick(wait: Wait, clock: Option<nat>)

  /** What has become of the child when the function returns. */
  datatype Fate = NeverForked | ReapedChild | NoSuchChild | WaitRefused | Abandoned

  function StatusCode(s: Status): int { if s.Exited? then s.code else HARD_FAILURE }

  /** The main loop goes round again: interrupted, or still running with a sane clock inside the time allowed. */
  predicate KeepsPolling(t: Tick, startMs: nat, timeoutMs: nat) {
    || t.wait == Eintr
    || (t.wait == StillRunning && t.clock.Some? && startMs <= t.clock.value && t.clock.value - startMs < timeoutMs)
  }

  /** The first pass on which the main loop does something else. */
  function Decisive(script: seq<Tick>, startMs: nat, timeoutMs: nat): (k: nat)
    ensures k <= |script|
    ensures forall j :: 0 <= j < k ==> KeepsPolling(script[j], startMs, timeoutMs)
    ensures k < |script| ==> !KeepsPolling(script[k], startMs, timeoutMs)
  {
    if script == [] || !KeepsPolling(script[0], startMs, timeoutMs) then 0
        else 1 + Decisive(script[1..], startMs, timeoutMs)
  }

  predicate BlocksOn(t: Tick) { t.wait == Eintr || t.wait == StillRunning }

  /** The first tick from `from` on at which the blocking wait of `kill_and_reap` ends. */
  function Ending(script: seq<Tick>, from: nat): (k: nat)
    requires from <= |script|
    ensures from <= k <= |script|
    ensures forall j :: from <= j < k ==> BlocksOn(script[j])
    ensures k < |script| ==> !BlocksOn(script[k])
    decreases |script| - from
  {
    if from == |script| || !BlocksOn(script[from]) then from else Ending(script, from + 1)
  }

  function FateOf(w: Wait): Fate {
    if w.Reaps? then ReapedChild else if w == Echild then NoSuchChild else WaitRefused
  }

  /** The child is accounted for: reaped, or the kernel says that there is none. */
  predicate AccountedFor(f: Fate) { f == ReapedChild || f == NoSuchChild }

  /** How a function ends: its result, absent if the script ended first; the child's fate; and the ticks used. */
  datatype Course = Course(code: Option<int>, fate: Fate, used: nat)

  /** SIGKILL, then the blocking wait. */
  function KillCourse(script: seq<Tick>, from: nat, code: int): Course
    requires from <= |script|
  {
    var e := Ending(script, from);
    if e == |script| then Course(None, Abandoned, e) else Course(Some(code), FateOf(script[e].wait), e + 1)
  }

  /** The first of at most `polls` polls from `from` on that finds the child or finds none; else where the polls end. */
  function GraceEnd(script: seq<Tick>, from: nat, polls: nat): (g: nat)
    requires from <= |script|
    ensures from <= g <= |script| && g <= from + polls
    ensures forall j :: from <= j < g ==> !script[j].wait.Reaps? && script[j].wait != Echild
    ensures g < |script| && g < from + polls ==> script[g].wait.Reaps? || script[g].wait == Echild
    decreases |script| - from
  {
    if polls == 0 || from == |script| || script[from].wait.Reaps? || script[from].wait == Echild then from
    else GraceEnd(script, from + 1, polls - 1)
  }

  /** The timeout branch: SIGTERM, a limited number of polls, then SIGKILL. */
  function TerminateCourse(script: seq<Tick>, from: nat): Course
    requires from <= |script|
  {
    var g := GraceEnd(script, from, GRACE_POLLS);
    if g == from + GRACE_POLLS then KillCourse(script, g, HELPER_TIMEOUT_EXIT)
    else if g == |script| then Course(None, Abandoned, g)
    else if script[g].wait.Reaps? then Course(Some(HELPER_TIMEOUT_EXIT), ReapedChild, g + 1)
    else Course(Some(HARD_FAILURE), NoSuchChild, g + 1)
  }

  predicate ClockFails(t: Tick, startMs: nat) { t.clock.None? || t.clock.value < startMs }

  /** The parent side of `run_helper` after the fork. */
  function HelperCourse(script: seq<Tick>, startMs: nat, timeoutMs: nat): Course {
    var k := Decisive(script, startMs, timeoutMs);
    if k == |script| then Course(None, Abandoned, k) else DecidedCourse(script, k, startMs)
  }

  /** From the decisive tick `k` on. */
  function DecidedCourse(script: seq<Tick>, k: nat, startMs: nat): Course
    requires k < |script|
  {
    match script[k].wait
    case Reaps(status) => Course(Some(StatusCode(status)), ReapedChild, k + 1)
    case Echild => Course(Some(HARD_FAILURE), NoSuchChild, k + 1)
    case WaitOther => KillCourse(script, k + 1, HARD_FAILURE)
    case _ =>
      if ClockFails(script[k], startMs) then KillCourse(script, k + 1, HARD_FAILURE) else TerminateCourse(script, k + 1)
  }

  // ---- The loops ----

  method KillAndReap(script: seq<Tick>, from: nat, code: int) returns (c: Course)
    requires from <= |script|
    ensures c == KillCourse(script, from, code)
  {
    var at := from;
    while at < |script|
      invariant from <= at <= |script|
      invariant Ending(script, from) == Ending(script, at)
    {
      if !BlocksOn(script[at]) { return Course(Some(code), FateOf(script[at].wait), at + 1); }
      at := at + 1;
    }
    return Course(None, Abandoned, at);
  }

  method Terminate(script: seq<Tick>, from: nat) returns (c: Course)
    requires from <= |script|
    ensures c == TerminateCourse(script, from)
  {
    for i := 0 to GRACE_POLLS
      invariant from + i <= |script|
      invariant GraceEnd(script, from, GRACE_POLLS) == GraceEnd(script, from + i, GRACE_POLLS - i)
    {
      if from + i == |script| { return Course(None, Abandoned, from + i); }
      var wait := script[from + i].wait;
      if wait.Reaps? { return Course(Some(HELPER_TIMEOUT_EXIT), ReapedChild, from + i + 1); }
      if wait == Echild { return Course(Some(HARD_FAILURE), NoSuchChild, from + i + 1); }
    }
    c := KillAndReap(script, from + GRACE_POLLS, HELPER_TIMEOUT_EXIT);
  }

  method RunHelper(timeoutMs: nat, startMs: Option<nat>, forked: bool, script: seq<Tick>) returns (c: Course)
    ensures c == if timeoutMs == 0 || startMs.None? || !forked then Course(Some(HARD_FAILURE), NeverForked, 0)
                 else HelperCourse(script, startMs.value, timeoutMs)
  {
    if timeoutMs == 0 || startMs.None? || !forked { return Course(Some(HARD_FAILURE), NeverForked, 0); }
    var start := startMs.value;
    var at := 0;
    while at < |script|
      invariant 0 <= at <= |script|
      invariant forall j :: 0 <= j < at ==> KeepsPolling(script[j], start, timeoutMs)
      decreases |script| - at
    {
      var tick := script[at];
      assert !KeepsPolling(tick, start, timeoutMs) ==> at == Decisive(script, start, timeoutMs);
      at := at + 1;
      if tick.wait.Reaps? { return Course(Some(StatusCode(tick.wait.status)), ReapedChild, at); }
      if tick.wait == Eintr { continue; }
      if tick.wait == Echild { return Course(Some(HARD_FAILURE), NoSuchChild, at); }
      if tick.wait == WaitOther {
        c := KillAndReap(script, at, HARD_FAILURE);
        return;
      }
      if tick.clock.None? || tick.clock.value < start {
        c := KillAndReap(script, at, HARD_FAILURE);
        return;
      }
      if tick.clock.value - start >= timeoutMs {
        c := Terminate(script, at);
        return;
      }
    }
    return Course(None, Abandoned, at);
  }

  // ---- What becomes of the child ----

  /**
   Where `kill_and_reap` is entered, if it is: after a failed wait, a failed clock, or a grace period without success.
   */
  function KillFrom(script: seq<Tick>, startMs: nat, timeoutMs: nat): (from: Option<nat>)
    ensures from.Some? ==> from.value <= |script|
  {
    var k := Decisive(script, startMs, timeoutMs);
    if k == |script| || script[k].wait.Reaps? || script[k].wait == Echild then None
    else if script[k].wait == WaitOther || ClockFails(script[k], startMs) then Some(k + 1)
    else
      var g := GraceEnd(script, k + 1, GRACE_POLLS);
      if g == k + 1 + GRACE_POLLS then Some(g) else None
  }

  /**
   The blocking wait of `kill_and_reap` comes to its end with an error that is neither an interruption nor "no child".
   */
  predicate WaitIsRefused(script: seq<Tick>, startMs: nat, timeoutMs: nat) {
    var from := KillFrom(script, startMs, timeoutMs);
    from.Some? && var e := Ending(script, from.value); e < |script| && script[e].wait == WaitOther
  }

  /** The blocking wait ends open, with the child accounted for, or refused. */
  lemma KillEnds(script: seq<Tick>, from: nat, code: int)
    requires from <= |script|
    ensures var c, e := KillCourse(script, from, code), Ending(script, from);
            && (c.code.None? <==> c.fate == Abandoned) && (c.code.None? <==> e == |script|)
                && (c.code.None? ==> c.used == |script|)
            && (c.code.Some? ==> (AccountedFor(c.fate) <==> script[e].wait != WaitOther))
  {
  }

  lemma TerminateEnds(script: seq<Tick>, from: nat)
    requires from <= |script|
    ensures var c, g := TerminateCourse(script, from), GraceEnd(script, from, GRACE_POLLS);
            && (c.code.None? <==> c.fate == Abandoned) && (c.code.None? ==> c.used == |script|)
            && (g != from + GRACE_POLLS && c.code.Some? ==> AccountedFor(c.fate))
            && (g == from + GRACE_POLLS ==> c == KillCourse(script, g, HELPER_TIMEOUT_EXIT))
  {
    KillEnds(script, GraceEnd(script, from, GRACE_POLLS), HELPER_TIMEOUT_EXIT);
  }

  /** On every way out the child has been reaped, or there is none, exactly unless the blocking wait is refused. */
  lemma ChildIsAccountedFor(script: seq<Tick>, startMs: nat, timeoutMs: nat)
    requires HelperCourse(script, startMs, timeoutMs).code.Some?
    ensures AccountedFor(HelperCourse(script, startMs, timeoutMs).fate) <==> !WaitIsRefused(script, startMs, timeoutMs)
  {
    var k := Decisive(script, startMs, timeoutMs);
    var wait := script[k].wait;
    if wait.Reaps? || wait == Echild {
      assert KillFrom(script, startMs, timeoutMs) == None;
    } else if wait == WaitOther || ClockFails(script[k], startMs) {
      KillEnds(script, k + 1, HARD_FAILURE);
      assert KillFrom(script, startMs, timeoutMs) == Some(k + 1);
    } else {
      var g := GraceEnd(script, k + 1, GRACE_POLLS);
      TerminateEnds(script, k + 1);
      KillEnds(script, g, HELPER_TIMEOUT_EXIT);
      assert KillFrom(script, startMs, timeoutMs) == if g == k + 1 + GRACE_POLLS then Some(g) else None;
    }
  }

  /**
   A script on which it is: two waits in a row fail with another error, and the function returns without its child.
   */
  lemma RefusedWaitLeavesTheChild(startMs: nat, timeoutMs: nat, clock: Option<nat>)
    ensures var t := Tick(WaitOther, clock);
            HelperCourse([t, t], startMs, timeoutMs) == Course(Some(HARD_FAILURE), WaitRefused, 2)
  {
    var t := Tick(WaitOther, clock);
    assert Decisive([t, t], startMs, timeoutMs) == 0;
    assert Ending([t, t], 1) == 1;
  }

  /** The child has run out of time at this tick. */
  predicate TimesOut(t: Tick, startMs: nat, timeoutMs: nat) {
    t.wait == StillRunning && t.clock.Some? && startMs <= t.clock.value && t.clock.value - startMs >= timeoutMs
  }

  /**
   Once the timeout branch is entered the child's own status no longer matters: the result is 10, or 127 if there is
   no child.
   */
  lemma TimeoutHidesTheStatus(script: seq<Tick>, startMs: nat, timeoutMs: nat)
    requires var k := Decisive(script, startMs, timeoutMs); k < |script| && TimesOut(script[k], startMs, timeoutMs)
    ensures var c := HelperCourse(script, startMs, timeoutMs);
            c.code.Some? ==>
              c.code.value == HELPER_TIMEOUT_EXIT || (c.code.value == HARD_FAILURE && c.fate == NoSuchChild)
  {
  }

  // ---- When it ends ----

  lemma {:induction false} DecisiveOfPrefix(script: seq<Tick>, more: seq<Tick>, startMs: nat, timeoutMs: nat)
    ensures var k := Decisive(script, startMs, timeoutMs);
            Decisive(script + more, startMs, timeoutMs) == if k < |script| then k
                else |script| + Decisive(more, startMs, timeoutMs)
  {
    if script == [] {
      assert script + more == more;
    } else if KeepsPolling(script[0], startMs, timeoutMs) {
      assert (script + more)[1..] == script[1..] + more;
      DecisiveOfPrefix(script[1..], more, startMs, timeoutMs);
    }
  }

  lemma {:induction false} EndingOfPrefix(script: seq<Tick>, more: seq<Tick>, from: nat)
    requires from <= |script|
    ensures Ending(script, from) < |script| ==> Ending(script + more, from) == Ending(script, from)
    ensures Ending(script, from) == |script| ==> Ending(script + more, from) == Ending(script + more, |script|)
    decreases |script| - from
  {
    if from < |script| && BlocksOn(script[from]) { EndingOfPrefix(script, more, from + 1); }
  }

  lemma {:induction false} GraceEndOfPrefix(script: seq<Tick>, more: seq<Tick>, from: nat, polls: nat)
    requires from <= |script|
    ensures var g := GraceEnd(script, from, polls);
            g < |script| || g == from + polls ==> GraceEnd(script + more, from, polls) == g
    ensures var g := GraceEnd(script, from, polls);
            g == |script| < from + polls ==>
              GraceEnd(script + more, from, polls) == GraceEnd(script + more, |script|, polls - (|script| - from))
    decreases |script| - from
  {
    if polls > 0 && from < |script| && !script[from].wait.Reaps? && script[from].wait != Echild {
      GraceEndOfPrefix(script, more, from + 1, polls - 1);
    }
  }

  lemma KillOfPrefix(script: seq<Tick>, more: seq<Tick>, from: nat, code: int)
    requires from <= |script|
    ensures KillCourse(script, from, code).code.Some? ==>
              KillCourse(script + more, from, code)
              == KillCourse(script, from, code)
    ensures KillCourse(script, from, code).code.None? && more != [] && !BlocksOn(more[0]) ==>
            KillCourse(script + more, from, code).code.Some?
  {
    EndingOfPrefix(script, more, from);
  }

  lemma TerminateOfPrefix(script: seq<Tick>, more: seq<Tick>, from: nat)
    requires from <= |script|
    ensures TerminateCourse(script, from).code.Some? ==>
              TerminateCourse(script + more, from)
              == TerminateCourse(script, from)
    ensures TerminateCourse(script, from).code.None? && more != [] && more[0].wait.Reaps? ==>
            TerminateCourse(script + more, from).code.Some?
  {
    var g := GraceEnd(script, from, GRACE_POLLS);
    GraceEndOfPrefix(script, more, from, GRACE_POLLS);
    if g == from + GRACE_POLLS { KillOfPrefix(script, more, g, HELPER_TIMEOUT_EXIT); }
  }

  /** The kill branches, after a failed wait or clock. */
  lemma KillBranchStays(script: seq<Tick>, more: seq<Tick>, k: nat, startMs: nat)
    requires k < |script| && !script[k].wait.Reaps? && script[k].wait != Echild
    requires script[k].wait == WaitOther || ClockFails(script[k], startMs)
    requires DecidedCourse(script, k, startMs).code.Some?
    ensures DecidedCourse(script + more, k, startMs) == DecidedCourse(script, k, startMs)
  {
    assert (script + more)[k] == script[k];
    KillOfPrefix(script, more, k + 1, HARD_FAILURE);
  }

  /** The timeout branch. */
  lemma TimeoutBranchStays(script: seq<Tick>, more: seq<Tick>, k: nat, startMs: nat)
    requires k < |script| && (script[k].wait == StillRunning || script[k].wait == Eintr)
    requires !ClockFails(script[k], startMs) && DecidedCourse(script, k, startMs).code.Some?
    ensures DecidedCourse(script + more, k, startMs) == DecidedCourse(script, k, startMs)
  {
    assert (script + more)[k] == script[k];
    TerminateOfPrefix(script, more, k + 1);
  }

  /** A result, once there, does not depend on what comes later. */
  lemma ResultStays(script: seq<Tick>, more: seq<Tick>, startMs: nat, timeoutMs: nat)
    requires HelperCourse(script, startMs, timeoutMs).code.Some?
    ensures HelperCourse(script + more, startMs, timeoutMs) == HelperCourse(script, startMs, timeoutMs)
  {
    DecisiveOfPrefix(script, more, startMs, timeoutMs);
    var k := Decisive(script, startMs, timeoutMs);
    var wait := script[k].wait;
    if wait.Reaps? || wait == Echild {
      assert (script + more)[k] == script[k];
    } else if wait == WaitOther || ClockFails(script[k], startMs) {
      KillBranchStays(script, more, k, startMs);
    } else {
      TimeoutBranchStays(script, more, k, startMs);
    }
  }

  /** There is no result exactly if the script ends first: then all of it has been used. */
  lemma OnlyTheEndLeavesItOpen(script: seq<Tick>, startMs: nat, timeoutMs: nat)
    ensures var c := HelperCourse(script, startMs, timeoutMs);
            (c.code.None? <==> c.fate == Abandoned) && (c.code.None? ==> c.used == |script|)
  {
    var k := Decisive(script, startMs, timeoutMs);
    if k < |script| {
      KillEnds(script, k + 1, HARD_FAILURE);
      TerminateEnds(script, k + 1);
    }
  }

  /** And then the very next wait that finds the child brings the result, wherever the function is. */
  lemma NextReapEndsIt(script: seq<Tick>, more: seq<Tick>, startMs: nat, timeoutMs: nat)
    requires HelperCourse(script, startMs, timeoutMs).code.None? && more != [] && more[0].wait.Reaps?
    ensures HelperCourse(script + more, startMs, timeoutMs).code.Some?
  {
    DecisiveOfPrefix(script, more, startMs, timeoutMs);
    var k := Decisive(script, startMs, timeoutMs);
    if k < |script| {
      assert (script + more)[k] == script[k];
      KillOfPrefix(script, more, k + 1, HARD_FAILURE);
      TerminateOfPrefix(script, more, k + 1);
    } else {
      assert (script + more)[k] == more[0];
    }
  }

  // ---- PAM results ----

  datatype PamResult = PamSuccess | PamAuthInfoUnavail | PamAuthErr

  function MapExit(code: int): PamResult {
    match code
    case 0 => PamSuccess
    case 10 => PamAuthInfoUnavail
    case 11 => PamAuthInfoUnavail
    case 12 => PamAuthInfoUnavail
    case _ => PamAuthErr
  }

  function AuthenticateResult(userKnown: bool, helperTrusted: bool, timeoutMs: nat, startMs: Option<nat>,
                              forked: bool, script: seq<Tick>):
      Option<PamResult>
  {
    if !userKnown || !helperTrusted || timeoutMs == 0 || startMs.None? || !forked then Some(PamAuthErr)
    else
      match HelperCourse(script, startMs.value, timeoutMs).code
      case None => None
      case Some(code) => Some(MapExit(code))
  }

  /** `pam_sm_authenticate`. */
  method Authenticate(userKnown: bool, helperTrusted: bool, timeoutMs: nat, startMs: Option<nat>, forked: bool,
                      script: seq<Tick>)
      returns (r: Option<PamResult>)
    ensures r == AuthenticateResult(userKnown, helperTrusted, timeoutMs, startMs, forked, script)
  {
    if !userKnown { return Some(PamAuthErr); }
    if !helperTrusted { return Some(PamAuthErr); }
    var c := RunHelper(timeoutMs, startMs, forked, script);
    if c.code.None? { return None; }
    return Some(MapExit(c.code.value));
  }

  /** The helper was started. */
  predicate Started(userKnown: bool, helperTrusted: bool, timeoutMs: nat, startMs: Option<nat>, forked: bool) {
    userKnown && helperTrusted && timeoutMs > 0 && startMs.Some? && forked
  }

  /** The child's own exit code, collected before its time was up. */
  predicate CollectedInTime(script: seq<Tick>, startMs: nat, timeoutMs: nat, code: int) {
    var k := Decisive(script, startMs, timeoutMs);
    k < |script| && script[k].wait == Reaps(Exited(code))
  }

  /** The child's time was up, and it was then terminated, with the grace period not finding it gone. */
  predicate TimedOutAndEnded(script: seq<Tick>, startMs: nat, timeoutMs: nat) {
    var k := Decisive(script, startMs, timeoutMs);
    && k < |script| && TimesOut(script[k], startMs, timeoutMs)
    && var g := GraceEnd(script, k + 1, GRACE_POLLS);
       if g == k + 1 + GRACE_POLLS then Ending(script, g) < |script| else g < |script| && script[g].wait.Reaps?
  }

  /**
   Success exactly if the helper was started and its own exit with 0 was collected in time; no result exactly if the
   script ended first.
   */
  lemma SuccessExactly(userKnown: bool, helperTrusted: bool, timeoutMs: nat, startMs: Option<nat>, forked: bool,
                       script: seq<Tick>)
    ensures var r := AuthenticateResult(userKnown, helperTrusted, timeoutMs, startMs, forked, script);
            var started := Started(userKnown, helperTrusted, timeoutMs, startMs, forked);
            && (r == Some(PamSuccess) <==> started && CollectedInTime(script, startMs.value, timeoutMs, 0))
            && (r == None <==> started && HelperCourse(script, startMs.value, timeoutMs).fate == Abandoned)
  {
    if startMs.Some? { OnlyTheEndLeavesItOpen(script, startMs.value, timeoutMs); }
  }

  lemma TimeoutCode(script: seq<Tick>, startMs: nat, timeoutMs: nat)
    requires var k := Decisive(script, startMs, timeoutMs); k < |script| && !script[k].wait.Reaps?
    ensures HelperCourse(script, startMs, timeoutMs).code == Some(HELPER_TIMEOUT_EXIT)
            <==> TimedOutAndEnded(script, startMs, timeoutMs)
    ensures HelperCourse(script, startMs, timeoutMs).code in {None, Some(HELPER_TIMEOUT_EXIT), Some(HARD_FAILURE)}
  {
  }

  /**
   Fallback exactly on 10, 11, 12 collected in time or on the timeout. So the hard failure is what remains: a helper
   not started, any other exit or a signal, a failed wait or clock, and a child that was gone when its time was up.
   */
  lemma FallbackExactly(userKnown: bool, helperTrusted: bool, timeoutMs: nat, startMs: Option<nat>, forked: bool,
                        script: seq<Tick>)
    ensures AuthenticateResult(userKnown, helperTrusted, timeoutMs, startMs, forked, script)
            == Some(PamAuthInfoUnavail) <==>
              && Started(userKnown, helperTrusted, timeoutMs, startMs, forked)
              && (|| CollectedInTime(script, startMs.value, timeoutMs, 10)
                  || CollectedInTime(script, startMs.value, timeoutMs, 11)
                  || CollectedInTime(script, startMs.value, timeoutMs, 12)
                  || TimedOutAndEnded(script, startMs.value, timeoutMs))
  {
    if Started(userKnown, helperTrusted, timeoutMs, startMs, forked) {
      var k := Decisive(script, startMs.value, timeoutMs);
      if k < |script| && !script[k].wait.Reaps? { TimeoutCode(script, startMs.value, timeoutMs); }
    }
  }
}
