/** The outcome of a helper run as PAM sees it. */
module EndToEnd {
  import opened Bytes
  import opened Messages
  import opened RustTransport
  import opened HelperRuns
  import opened PamProcess
  import Proto = Protocol
  import Sockets

  /** Authentication succeeds on a reported approval and on nothing else. */
  lemma SuccessIsApproval(stage: Stage)
    requires ExitCode(stage).Some?
    ensures MapExit(ExitCode(stage).value) == PamSuccess <==> stage == Decided(Approved)
  {
  }

  /** The password is offered exactly when the agent could not be reached or was late, or itself said so. */
  lemma FallbackIsUnavailability(stage: Stage)
    requires ExitCode(stage).Some?
    ensures MapExit(ExitCode(stage).value) == PamAuthInfoUnavail <==>
              || stage == Unreachable || stage == TooLate
              || stage == WriteFailed(Timeout) || stage == ReadFailed(Timeout)
              || stage in {Decided(Unavailable), Decided(Cancelled), Decided(Failed)}
  {
  }

  /**
   Each family of failures has its own code; a forged or misdirected answer is never mistaken for a broken frame or a
   late one.
   */
  lemma CodesPartitionTheStages(stage: Stage)
    requires ExitCode(stage).Some?
    ensures ExitCode(stage).value == EXIT_TAMPER <==>
              stage.Rejected? || stage == StaleResponse
              || stage == ReplayRefused
    ensures ExitCode(stage).value == EXIT_PROTOCOL <==>
              || (stage.WriteFailed? && stage.writeError != Timeout)
              || (stage.ReadFailed? && stage.readError != Timeout)
    ensures ExitCode(stage).value == EXIT_UNSAFE_CONFIG <==> stage == UnsafeConfig
    ensures ExitCode(stage).value == EXIT_DENIED <==> stage == Decided(Denied)
    ensures ExitCode(stage).value == EXIT_APPROVED <==> stage == Decided(Approved)
    ensures ExitCode(stage).value == EXIT_CANCELLED <==> stage == Decided(Cancelled)
    ensures ExitCode(stage).value == EXIT_FAILED <==> stage == Decided(Failed)
    ensures ExitCode(stage).value == EXIT_INTERNAL <==> stage == InternalError
    ensures ExitCode(stage).value == EXIT_UNAVAILABLE <==>
              || stage in {Unreachable, TooLate, Decided(Unavailable)}
              || stage == WriteFailed(Timeout) || stage == ReadFailed(Timeout)
  {
  }

  /** What a run of the helper goes through after its answer arrived is three steps of the protocol. */
  lemma DecidedRunIsThreeSteps(p: Proto.Setup, s: Proto.State, i: nat, r: Response, first: nat, last: nat,
                               checkWallMs: u64, finalWallMs: u64)
    requires i in s.helpers && s.helpers[i].pc.Awaiting?
    requires Proto.SignedBy(s.signed, p.agentKey, p.codec.response(r)) && p.codec.binds(r, s.helpers[i].request)
    requires first < s.helpers[i].deadline && last < s.helpers[i].deadline
    requires RequestFresh(s.helpers[i].request, checkWallMs, s.helpers[i].skewMs)
             && ResponseFresh(r, checkWallMs, s.helpers[i].skewMs)
    requires RequestFresh(s.helpers[i].request, finalWallMs, s.helpers[i].skewMs)
    ensures var h := s.helpers[i];
            var received := h.(pc := Proto.Verified(r), accepted := Some(r));
            var checked := received.(pc := Proto.Fresh(r), checkedMs := checkWallMs);
            var done := checked.(pc := Proto.Exited(ExitForDecision(r.decision), last, finalWallMs));
            && Proto.HelperStep(p, s, h, Proto.HelperReceives(r, true)) == Some(received)
            && Proto.HelperStep(p, s, received, Proto.HelperChecks(first, checkWallMs)) == Some(checked)
            && Proto.HelperStep(p, s, checked, Proto.HelperFinishes(last, finalWallMs)) == Some(done)
  {
  }

  /** Those three steps, taken at the end of a run. */
  lemma DecidedRunContinues(p: Proto.Setup, steps: seq<Proto.Step>, i: nat, r: Response, first: nat, last: nat,
                            checkWallMs: u64, finalWallMs: u64)
      returns (more: seq<Proto.Step>)
    requires Proto.Run(p, steps).Some?
    requires var s := Proto.Run(p, steps).value;
             && i in s.helpers && s.helpers[i].pc.Awaiting?
             && Proto.SignedBy(s.signed, p.agentKey, p.codec.response(r)) && p.codec.binds(r, s.helpers[i].request)
             && first < s.helpers[i].deadline && last < s.helpers[i].deadline
             && RequestFresh(s.helpers[i].request, checkWallMs, s.helpers[i].skewMs)
             && ResponseFresh(r, checkWallMs, s.helpers[i].skewMs)
             && RequestFresh(s.helpers[i].request, finalWallMs, s.helpers[i].skewMs)
    ensures Proto.Run(p, more).Some?
    ensures var s, t := Proto.Run(p, steps).value, Proto.Run(p, more).value;
            && t.conns == s.conns && t.auth == s.auth
            && i in t.helpers && t.helpers[i].request == s.helpers[i].request && t.helpers[i].accepted == Some(r)
            && t.helpers[i].pc == Proto.Exited(ExitForDecision(r.decision), last, finalWallMs)
  {
    var s := Proto.Run(p, steps).value;
    DecidedRunIsThreeSteps(p, s, i, r, first, last, checkWallMs, finalWallMs);
    var receives := Proto.Step(i, Proto.HelperReceives(r, true));
    var checks := Proto.Step(i, Proto.HelperChecks(first, checkWallMs));
    var finishes := Proto.Step(i, Proto.HelperFinishes(last, finalWallMs));
    Proto.RunAppend(p, steps, receives);
    Proto.RunAppend(p, steps + [receives], checks);
    Proto.RunAppend(p, steps + [receives] + [checks], finishes);
    more := steps + [receives] + [checks] + [finishes];
  }

  /** Every signature that verifies under the agent's key was made in the run. */
  ghost predicate Unforged(p: Proto.Setup, s: Proto.State, lib: Library) {
    forall message, signature :: lib.valid(p.agentKey, message, signature) ==> (p.agentKey, message) in s.signed
  }

  /**
   From a duly decided run to the Mac's user: if a helper that is part of a run of the protocol duly decides and PAM
   reports success on its exit code, then a connection of the agent had an approved, completed and cancelled
   session for exactly this helper's request, and signed the very answer the helper accepted.
   */
  lemma SuccessMeansSession(p: Proto.Setup, steps: seq<Proto.Step>, i: nat, stage: Stage, answer: SignedResponse,
                            settings: Settings, env: Environment, lib: Library, first: nat, last: nat,
                            agentKeyId: bytes)
      returns (more: seq<Proto.Step>, c: nat)
    requires Proto.Real(p, agentKeyId, lib.hash) && Proto.Run(p, steps).Some?
    requires var s := Proto.Run(p, steps).value;
             && i in s.helpers && s.helpers[i].pc.Awaiting? && Unforged(p, s, lib)
             && settings.agentKey == p.agentKey && settings.skewMs == s.helpers[i].skewMs
             && DulyDecided(stage, answer, s.helpers[i].request, s.helpers[i].deadline, first, last, settings, env, lib)
    requires MapExit(ExitCode(stage).value) == PamSuccess
    ensures Proto.Run(p, more).Some? && Proto.ApprovedBy(Proto.Run(p, more).value, i, c)
    ensures var s, t := Proto.Run(p, steps).value, Proto.Run(p, more).value;
            && t.conns == s.conns && t.auth == s.auth && t.helpers[i].request == s.helpers[i].request
            && s.conns[c].answer == Some(answer.body)
  {
    SuccessIsApproval(stage);
    more := DecidedRunContinues(p, steps, i, answer.body, first, last, env.checkWallMs.value, env.finalWallMs.value);
    c := Proto.ApprovalImpliesSession(p, more, i, agentKeyId, lib.hash);
  }

  /** Helper `i` of the protocol is the run of the helper with these settings, waiting for its answer. */
  predicate IsRunOf(p: Proto.Setup, s: Proto.State, i: nat, settings: Settings, env: Environment) {
    && i in s.helpers && s.helpers[i].pc.Awaiting?
    && Prepare(Some(settings), env) == Ok((s.helpers[i].request, s.helpers[i].deadline))
    && s.helpers[i].skewMs == settings.skewMs && p.agentKey == settings.agentKey
  }

  lemma DecidedHasAnswer(settings: Settings, env: Environment, lib: Library, w: Sockets.Wire)
    requires RequestRun(Some(settings), env, lib, w).stage.Decided?
    ensures RequestRun(Some(settings), env, lib, w).received.Some?
  {
    RunWithoutAnswer(Some(settings), env, lib, w);
  }

  /** A run that exits 0 exchanged one frame for another, and then decided duly on two readings of the clock. */
  lemma ApprovingRun(settings: Settings, env: Environment, lib: Library, w: Sockets.Wire)
      returns (first: nat, last: nat)
    requires ExitCode(RequestRun(Some(settings), env, lib, w).stage) == Some(EXIT_APPROVED)
    ensures var e := RequestRun(Some(settings), env, lib, w);
            && e.stage == Decided(Approved) && e.received.Some? && Prepare(Some(settings), env).Ok?
            && Exchanged(w, e.wire, Payload(Some(settings), env, lib), lib.fromJson, e.received)
            && var (request, deadline) := Prepare(Some(settings), env).value;
               DulyDecided(e.stage, e.received.value, request, deadline, first, last, settings, env, lib)
  {
    var e := RequestRun(Some(settings), env, lib, w);
    SuccessIsApproval(e.stage);
    DecidedHasAnswer(settings, env, lib, w);
    RunWithAnswer(Some(settings), env, lib, w);
    RunExchanges(Some(settings), env, lib, w);
    first, last := w.script[e.wire.at - 2].now, w.script[e.wire.at - 1].now;
  }

  /**
   From the Linux login to the Mac's user. The helper runs on any script of system calls and any bytes from the
   socket; PAM runs on any script of its own in which the exit code it collects, if any, is that of the helper. If
   PAM reports success, the helper received an answer, and a connection of the agent signed this very answer after
   an approved, completed and cancelled session for exactly the request this run prepared, checked in time.
   */
  lemma LoginMeansSession(p: Proto.Setup, steps: seq<Proto.Step>, i: nat, settings: Settings, env: Environment,
                          lib: Library, w: Sockets.Wire, userKnown: bool, helperTrusted: bool, timeoutMs: nat,
                          startMs: Option<nat>, forked: bool, script: seq<PamProcess.Tick>, agentKeyId: bytes)
      returns (more: seq<Proto.Step>, c: nat)
    requires Proto.Real(p, agentKeyId, lib.hash) && Proto.Run(p, steps).Some?
    requires var s := Proto.Run(p, steps).value; IsRunOf(p, s, i, settings, env) && Unforged(p, s, lib)
    requires startMs.Some? ==> forall code :: CollectedInTime(script, startMs.value, timeoutMs, code) ==>
               ExitCode(RequestRun(Some(settings), env, lib, w).stage) == Some(code)
    requires AuthenticateResult(userKnown, helperTrusted, timeoutMs, startMs, forked, script) == Some(PamSuccess)
    ensures var e := RequestRun(Some(settings), env, lib, w);
            && e.stage == Decided(Approved) && e.received.Some?
            && Exchanged(w, e.wire, Payload(Some(settings), env, lib), lib.fromJson, e.received)
            && Proto.Run(p, more).Some? && Proto.ApprovedBy(Proto.Run(p, more).value, i, c)
            && Proto.Run(p, more).value.conns == Proto.Run(p, steps).value.conns
            && Proto.Run(p, more).value.auth == Proto.Run(p, steps).value.auth
            && Proto.Run(p, more).value.helpers[i].request == Prepare(Some(settings), env).value.0
            && Proto.Run(p, more).value.conns[c].answer == Some(e.received.value.body)
  {
    var e := RequestRun(Some(settings), env, lib, w);
    SuccessExactly(userKnown, helperTrusted, timeoutMs, startMs, forked, script);
    assert ExitCode(e.stage) == Some(EXIT_APPROVED);
    var first, last := ApprovingRun(settings, env, lib, w);
    more, c := SuccessMeansSession(p, steps, i, e.stage, e.received.value, settings, env, lib, first, last, agentKeyId);
  }
}
