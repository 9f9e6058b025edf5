# macos-auth: a model of the approval protocol, with proofs

This project models the approval protocol by which a Linux login is confirmed on a Mac, and the machinery around
it: the Rust helper, the Swift agent, the C PAM module that runs the helper, and the release scripts.

A helper signs a request (host, user, service, a nonce, a time window) and sends it as one frame. The agent checks
signature and freshness, limits the rate, asks the user through a one-slot coordinator, and signs an answer bound to
the request. The helper accepts an answer only under the pinned agent key, only for its own request, only within one
absolute deadline and the window of the request, and only once per signature if it keeps a replay cache. Its exit code
becomes the result of the login.

| file | models |
|---|---|
| `Protocol.dfy`, `EndToEnd.dfy`, `Completeness.dfy` | helpers, agent connections, coordinator and an arbitrary transport as one state machine; from PAM success to the session; that honest logins succeed |
| `SharedCache.dfy`, `LimitedAgent.dfy` | the state machine with a replay cache that helpers share; with the agent's rate limiter |
| `Fields.dfy`, `Messages.dfy`, `Encoders.dfy`, `SwiftMessages.dfy` | the canonical encoding, its reader, and both encoders |
| `Binding.dfy`, `Timing.dfy` | which request an answer is for; freshness and deadline arithmetic on both sides |
| `Helper.dfy` | a helper run, from its budget to its exit code |
| `Streams.dfy`, `RustStreams.dfy`, `SwiftStreams.dfy` | sockets and frames; the deadline and frame loops of either side, and the two talking to each other |
| `Coordinator.dfy`, `Lifetime.dfy`, `RateLimiter.dfy`, `ConnectionPool.dfy` | the agent's bounded resources |
| `MarkerText.dfy`, `ReplayMarkers.dfy`, `MarkerDirectory.dfy`, `MarkerRuns.dfy` | the replay cache, concurrent and as one helper uses it, and that the two agree |
| `PamProcess.dfy`, `PathWalk.dfy`, `FileModes.dfy` | fork, poll, terminate and reap; the two path walks |
| `ConfigReplace.dfy` | replacing the configuration file across crashes |
| `Collector.dfy`, `Publishing.dfy` | the release collector and its verifier |

Signatures are symbolic (section 5.1 of RFC 8032 is not opened up): a run carries the map of everything ever signed,
and a signature that checks out is in it. SHA-256 (section 6.2 of FIPS 180-4) is a function assumed injective.
System calls are finite scripts, or a different file system at every call. Each loop is proved equal to a function of
its script, and is left undecided only at the end of it; beside what holds on every script, progress is proved on all
scripts that delay as they like but then let enough through.

Where the model had to choose between the code and its documentation it follows the code:

- `docs/protocol.md:121` gives freshness failures exit code 30. The code checks the request's window first, and its
  expiry gives 10; only an answer that is stale while its request is fresh gives 30 (`HelperRuns.Judge`).
- The Rust freshness check accepts exactly at the expiry and the Swift one rejects there (`Timing.FreshnessAgreement`).
- The last check of a helper run looks at the request's window again, not at the answer's.

Properties that hold only under a condition, each with the exact condition and the input that shows the failure: replay
markers (`ReplayMarkers.AtMostOnceExactly`, `SharedCache.OneDecisionExactly`), the rate limiter under a clock that goes back
(`RateLimiting.PruningIsExact`, `RateLimiting.WindowBoundIsExact`, `LimitedAgent.LimitIsExact`), its keys (`RateLimiting.KeyIsExclusive`), reaping
after a refused blocking wait (`PamProcess.ChildIsAccountedFor`, `PamProcess.RefusedWaitLeavesTheChild`), and
verification of a collected directory (`Publishing.CollectedVerifies`, `Publishing.ObstructedIsRefused`).

## Model

| member | source | states |
|---|---|---|
| EndToEnd.LoginMeansSession | pam/pam_macos_auth.c:383-440 | From the PAM result to the Mac's user, in one statement about whole runs: if PAM succeeds on any script in which the exit code it collects is that of the helper run, on any script and any bytes from the socket, then that run received an answer in one frame for one frame, and an agent connection signed this very answer after an approved, completed, cancelled session for exactly the request the run prepared, checked in time |
| EndToEnd.ApprovingRun | crates/helper/src/main.rs:579-638 | A helper run that exits 0 exchanged exactly one frame for one frame and decided duly, with both clocks read twice and in time |
| EndToEnd.SuccessMeansSession | crates/helper/src/main.rs:594-637 | If a helper inside any run of the protocol duly decides and PAM reports success on its exit code, an agent connection had an approved, completed, cancelled session for exactly that request, checked in time after the report, and signed the very answer accepted |
| SharedCache.OneDecisionPerSignature | crates/helper/src/main.rs:622-637 | Protocol and replay cache interleaved in any way: of the helpers that share a cache at most one exits with a decision on a given signature, while no cleanup clock has passed the expiry of the answer |
| SharedCache.OneDecisionExactly | crates/helper/src/main.rs:622-637 | Wherever two helpers could approve on one signed answer: at most one helper decides on that answer, in every run of protocol and cache whose cleanup clocks stay within a bound, if and only if the bound is no later than the expiry of the answer |
| SharedCache.LateCleanupApprovesTwice | crates/helper/src/trust.rs:92-137 | The failing side: a cleanup past the expiry in between, and both helpers exit 0 on one signature |
| SharedCache.RunsTogether | crates/helper/src/main.rs:622-627 | Every run with a shared cache is a run of the protocol beside a run of the cache, and a decision comes only after the helper recorded its own marker |
| SharedCache.ApprovalStillImpliesSession | crates/helper/src/main.rs:622-637 | With a shared cache, too, exit 0 means an approved session for the helper's own request |
| Completeness.LoginSucceeds | crates/helper/src/main.rs:547-638 | The converse possibility: from every reachable state with a free slot, a helper with an allowed key is approved if everybody keeps to the protocol in time and the user agrees; so the safety results are about runs that do succeed |
| Completeness.AgentApproves | agent/Sources/MacosAuthAgent/main.swift:987-1021 | A connection takes a verified, fresh request through admission, coordinator, session and both lifetime checks to a signed approval |
| Completeness.AnswerEncodes | agent/Sources/MacosAuthAgent/main.swift:1010-1017 | The answer to a living request can always be made and encoded |
| Completeness.UserAgrees | agent/Sources/MacosAuthAgent/Authentication.swift:62-73 | A session that reports approval is returned, cancelled and its slot given back |
| EndToEnd.DecidedRunContinues | crates/helper/src/main.rs:602-637 | What the helper does from verification to exit is a continuation of the protocol run that changes neither connections nor sessions |
| EndToEnd.DecidedRunIsThreeSteps | crates/helper/src/main.rs:602-637 | Verification, the two-clock check and the final check are the three helper steps of the protocol, ending in the exit code of the decision |
| EndToEnd.SuccessIsApproval | pam/pam_macos_auth.c:366-381 | PAM success holds exactly for an ended run that reported approval |
| EndToEnd.FallbackIsUnavailability | pam/pam_macos_auth.c:366-381 | Password fallback holds exactly for an unreachable agent, lateness, transport timeouts, and the unavailable, cancelled and failed decisions |
| EndToEnd.CodesPartitionTheStages | crates/helper/src/main.rs:579-638 | Each exit code, with the family of endings that has it: tampering 30, broken frames 32, unsafe configuration 31, denial 20, approval 0 |
| Protocol.Correspondence | crates/helper/src/main.rs:562-638 | Every decision a helper reports was given and signed by an agent connection for exactly its request, the answer was made before the request expired, and the final check was before the deadline and within created plus timeout |
| Protocol.ApprovalImpliesSession | agent/Sources/MacosAuthAgent/main.swift:987-1021 | Over every interleaving and any transport: exit 0 implies a session for that very request which reported approval first, was cancelled, and was confirmed if required; the lifetime check after the report, and the later one of the connection, read a wall clock before the signed expiry and an uptime before both the 15 s and the instant fixed at creation |
| Protocol.ApprovalsAreInjective | crates/helper/src/main.rs:562-638 | Exit-0 runs with different nonces were approved on different connections |
| Protocol.OneRequestPerAnswer | crates/helper/src/main.rs:602-605 | Two helpers that report a decision on the same answer made the same request, with no condition on clocks or cache |
| Protocol.SessionsAreRequested | agent/Sources/MacosAuthAgent/main.swift:993-1004 | So a session exists only for such a request, and after a lifetime check that read wall clock and uptime in time |
| Protocol.WhoSignedTheAnswer | crates/protocol/src/lib.rs:348-355 | A response that verifies under the agent key was signed by an agent connection as its answer, even if a host shares that key |
| Protocol.AnswerIsItsOwn | agent/Sources/MacosAuthAgent/main.swift:1010-1016 | What the agent signs is bound to the request it serves and carries its own verdict, and is made and expires within the life of the request |
| Protocol.ConnectionsAreRequested | agent/Sources/MacosAuthAgent/main.swift:993-997 | After every run, whatever the transport delivered, every connection the agent admitted serves a request that a helper holding the key allowed for that host made, and was admitted before its expiry |
| Protocol.PreparedRunsStart | crates/helper/src/main.rs:547-577 | Every run the helper prepares can enter the protocol with its own window and deadline |
| Protocol.StepKeeps | agent/Sources/MacosAuthAgent/main.swift:987-1021 | Every step of helper, agent, coordinator or outsider keeps the invariant relating signatures, helpers, connections and calls |
| Protocol.RunKeeps | agent/Sources/MacosAuthAgent/main.swift:987-1021 | The invariant holds after every run |
| Protocol.ConnStepKeepsOk | agent/Sources/MacosAuthAgent/main.swift:998-1020 | Lifetime checks, rate limiting, collecting a result and sending keep a connection accountable for its verdict |
| Protocol.HelperStepKeepsOk | crates/helper/src/main.rs:602-637 | A helper that reports a decision holds a verified answer with that decision and passed its final check in time |
| LimitedAgent.SessionsAreLimited | agent/Sources/MacosAuthAgent/main.swift:1003-1008 | With the limiter in the state machine: after every run, whatever the transport replays and however connections interleave, no closed interval as long as the window holds more sessions under one key than the limit, if the clock did not go back between the questions under that key |
| LimitedAgent.LimitIsExact | agent/Sources/MacosAuthAgent/main.swift:394-412 | Wherever a request is signed that the agent would serve: the limit holds in every window of every run, on all clock readings, if and only if it is one or the window is the widest |
| LimitedAgent.ClockBreaksLimit | agent/Sources/MacosAuthAgent/main.swift:394-412 | The failing side: a run in which replayed connections get one session more than the limit into one window |
| LimitedAgent.RunCounts | agent/Sources/MacosAuthAgent/main.swift:394-412 | After every run the sessions under a key in an interval are exactly as many as the admissions of the limiter for that key |
| LimitedAgent.RunIsProtocolRun | agent/Sources/MacosAuthAgent/main.swift:1003-1008 | Every run with the limiter in it is a run of the protocol, so everything proved of those holds |
| HelperRuns.RunRequest | crates/helper/src/main.rs:547-638 | The run ends as its preparation, exchange and judgement determine, and is still running only if the script of system calls is over |
| HelperRuns.RunWithAnswer | crates/helper/src/main.rs:594-638 | On any script: a decodable answer is rejected exactly on a failing verdict; a decision is reported only on a verified answer, after both clocks twice, before the one absolute deadline and no later than created plus timeout |
| HelperRuns.RunWithoutAnswer | crates/helper/src/main.rs:547-600 | Without an answer a run ends in its preparation, unreachable, or in transport trouble, which is a timeout exactly if the last clock reading had reached the deadline |
| HelperRuns.RunExchanges | crates/helper/src/main.rs:579-600 | An answer was exactly one frame in, after exactly one frame with the request out |
| HelperRuns.BadAnswerExits30 | crates/helper/src/main.rs:594-605 | A delivered, decodable answer with a bad signature or binding always exits 30, whatever it says and however the bytes were cut |
| HelperRuns.GoodAnswerDecides | crates/helper/src/main.rs:607-637 | A delivered, verified answer ends the run, and with its decision exactly if both wall-clock checks, its own freshness and the replay cache agree |
| HelperRuns.UndecodableExits32 | crates/helper/src/main.rs:594-600 | A delivered frame that does not decode exits 32 |
| HelperRuns.Judge | crates/helper/src/main.rs:602-638 | The ending as a function of verdict, clock readings and replay verdict; signature and binding before any clock |
| HelperRuns.JudgeIsExact | crates/helper/src/main.rs:602-638 | With two clock readings left the run ends, rejecting exactly on a failing verdict and deciding exactly if all is in order; every other ending has its reason |
| HelperRuns.Exchange | crates/helper/src/main.rs:579-600 | Connect, one frame out, one frame in, decode: the first of them to fail is the ending |
| HelperRuns.ExchangeCompletes | crates/helper/src/main.rs:579-600 | An answer, or a frame that does not decode, means one whole frame out and one in |
| HelperRuns.ExchangeFails | crates/helper/src/main.rs:579-600 | Transport trouble is classified by the last clock reading; only the end of the script leaves the exchange open |
| HelperRuns.CheckedAddIsIdeal | crates/helper/src/main.rs:647-649 | Adding seconds and nanoseconds with a carry is the ideal sum, refused exactly from the first nanosecond that cannot be represented |
| HelperRuns.BudgetRefusesExactly | crates/helper/src/main.rs:640-651 | With wrap-around and carries written out, the budget is refused exactly for a zero timeout or an ideal end beyond either clock; both ends are the same distance away |
| HelperRuns.PrepareWindow | crates/helper/src/main.rs:547-577 | A prepared request is encodable and its window is exactly the timeout on both clocks |
| Frames.HeaderRoundTrip | crates/helper/src/main.rs:1069-1095 | The length header reads back as the payload length |
| Frames.FramesAreUnique | crates/helper/src/main.rs:1083-1095 | A byte stream starts with at most one frame |
| Loops.ReadsReturnWrites | crates/helper/src/main.rs:1083-1095 | On any script, reading frames off the stream of any list of payloads returns that list and leaves what followed, or no result |
| Loops.AllFramesReadBack | crates/helper/src/main.rs:1083-1095 | However the bytes are cut, and whatever delays come first, the whole list is read back |
| Loops.ReadExactSucceeds | crates/helper/src/main.rs:1089-1092 | What is there is read whole, for at most a fixed number of ticks a chunk |
| Loops.WriteAllSucceeds | crates/helper/src/main.rs:1076-1079 | All data goes out, for at most a fixed number of ticks a chunk |
| Loops.ReadExactTakes | crates/helper/src/main.rs:1089-1092 | Exactly the count asked for is taken off the stream, or less and no result |
| Loops.WriteAllGives | crates/helper/src/main.rs:1076-1079 | Exactly the data is put on the stream, or a proper prefix and no result |
| Loops.ReadFrameTakes | crates/helper/src/main.rs:1083-1095 | One whole frame is taken, or nothing returned; of an oversized one no byte of the body is touched |
| Framing.RustToSwift | agent/Sources/MacosAuthAgent/Transport.swift:65-110 | Whatever list of payloads the helper writes, the agent reads that list and takes exactly its frames, under all splittings and delays of both kernels |
| Framing.SwiftToRust | crates/helper/src/main.rs:1069-1095 | The same from the agent to the helper |
| Framing.NeverAnythingElse | crates/helper/src/main.rs:1069-1095 | On any scripts at all both readers return the list that was written, or no list |
| RustTransport.DeadlineStream.Wait | crates/helper/src/transport.rs:38-67 | The polling loop, against its function of the script |
| RustTransport.WaitSettles | crates/helper/src/transport.rs:38-67 | Ready only before the deadline; failing by timeout exactly if the last clock reading reached it; undecided only at the end of the script; nothing is read or written |
| RustTransport.DeadlineStream.Connect | crates/helper/src/transport.rs:75-134 | The connect retry loop, against its function of the script |
| RustTransport.ConnectSettles | crates/helper/src/transport.rs:75-134 | Connected only before the deadline; failures classified by it; undecided only at the end of the script |
| RustTransport.ConnectSucceeds | crates/helper/src/transport.rs:75-134 | After any refusable delays, connecting takes at most four ticks of a kernel that lets things through |
| RustTransport.DeadlineStream.Read | crates/helper/src/transport.rs:141-163 | The retry loop of one read, against its function of the script |
| RustTransport.ReadSettles | crates/helper/src/transport.rs:141-163 | What is returned is what was taken, before the deadline; failures are classified; undecided only at the end of the script |
| RustTransport.ReadSucceeds | crates/helper/src/transport.rs:141-163 | After any delays, a read with something to read moves at least one byte for two ticks |
| RustTransport.DeadlineStream.Write | crates/helper/src/transport.rs:141-168 | The retry loop of one write, against its function of the script |
| RustTransport.WriteSettles | crates/helper/src/transport.rs:141-168 | As much was sent as is returned, before the deadline; failures are classified; undecided only at the end of the script |
| RustTransport.WriteSucceeds | crates/helper/src/transport.rs:141-168 | After any delays, a write moves at least one byte for two ticks |
| RustTransport.DeadlineStream.ReadExact | crates/helper/src/main.rs:1089-1092 | The filling loop equals reading exactly so much by single reads |
| RustTransport.DeadlineStream.WriteAll | crates/helper/src/main.rs:1076-1079 | The sending loop equals writing everything by single writes |
| RustTransport.DeadlineStream.WriteFrame | crates/helper/src/main.rs:1069-1081 | Length, then payload; oversized payloads are refused before anything is sent |
| RustTransport.FrameOutGives | crates/helper/src/main.rs:1069-1081 | One whole frame goes out in time, or a proper prefix of it; nothing of an oversized one; undecided only at the end of the script |
| RustTransport.FrameOutSucceeds | crates/helper/src/main.rs:1069-1081 | A frame goes out whole whenever the kernel lets enough through before the deadline |
| RustTransport.DeadlineStream.ReadFrame | crates/helper/src/main.rs:1083-1095 | Length, then body; an oversized length is refused before the body is read |
| RustTransport.FrameInTakes | crates/helper/src/main.rs:1083-1095 | Success takes exactly 4 + length bytes in time, an oversized frame exactly four; undecided only at the end of the script |
| RustTransport.FrameInSucceeds | crates/helper/src/main.rs:1083-1095 | A frame that is there is read whole whenever the kernel lets enough through before the deadline |
| SwiftTransport.WaitForSocket | agent/Sources/MacosAuthAgent/Transport.swift:49-63 | The polling loop, against its function of the script |
| SwiftTransport.WaitSettles | agent/Sources/MacosAuthAgent/Transport.swift:49-63 | Ready only before the deadline; a timeout only if the last clock reading reached it or the last poll ran out; any other throw while there was time; undecided only at the end of the script |
| SwiftTransport.ReadExactly | agent/Sources/MacosAuthAgent/Transport.swift:95-110 | The filling loop equals reading exactly so much by single reads |
| SwiftTransport.ReadSucceeds | agent/Sources/MacosAuthAgent/Transport.swift:95-110 | After any interruptions, a receive with something to receive moves at least one byte for four ticks |
| SwiftTransport.WriteFrame | agent/Sources/MacosAuthAgent/Transport.swift:75-93 | One buffer with length and body; an oversized body is refused before anything is sent |
| SwiftTransport.SendAll | agent/Sources/MacosAuthAgent/Transport.swift:83-92 | The sending loop equals writing everything by single sends |
| SwiftTransport.FrameOutGives | agent/Sources/MacosAuthAgent/Transport.swift:75-93 | One whole frame goes out in time, or a proper prefix of it; throws are classified |
| SwiftTransport.FrameOutSucceeds | agent/Sources/MacosAuthAgent/Transport.swift:75-93 | A frame goes out whole whenever the kernel lets enough through before the deadline |
| SwiftTransport.ReadLength | agent/Sources/MacosAuthAgent/Transport.swift:65-67 | The shifting length loop is the big-endian value of the header |
| SwiftTransport.ReadFrame | agent/Sources/MacosAuthAgent/Transport.swift:65-73 | Length, then body; an oversized length is refused before the body is read |
| SwiftTransport.FrameInTakes | agent/Sources/MacosAuthAgent/Transport.swift:65-73 | Success takes exactly one frame in time; no byte of an oversized body is touched; throws are classified |
| SwiftTransport.FrameInSucceeds | agent/Sources/MacosAuthAgent/Transport.swift:65-73 | A frame that is there is read whole whenever the kernel lets enough through before the deadline |
| Fields.DecodeFieldsOfEncode | crates/protocol/src/lib.rs:376-432 | Any list of fields that fit is read back from its encoding, whatever follows |
| Fields.EncodeOfDecodeFields | crates/protocol/src/lib.rs:376-432 | Whatever decodes is the encoding of what it decodes to |
| Messages.RequestRoundTrip | crates/protocol/src/lib.rs:143-165 | The decoder returns a body and a rest exactly when the input is that body encoded, followed by that rest |
| Messages.ResponseRoundTrip | crates/protocol/src/lib.rs:274-295 | The same for responses, decision and method names included |
| Messages.RequestPrefixFree | crates/protocol/src/lib.rs:143-165 | Request encodings are injective and prefix-free |
| Messages.ResponsePrefixFree | crates/protocol/src/lib.rs:274-295 | Response encodings are injective and prefix-free |
| Messages.RequestResponseSeparation | crates/protocol/src/lib.rs:16-17 | No request encoding, with anything after it, equals a response encoding with anything after it |
| RustEncoder.RequestCanonicalBytes | crates/protocol/src/lib.rs:143-165 | The appending encoder gives the canonical bytes, or the first error, of the request |
| RustEncoder.ResponseCanonicalBytes | crates/protocol/src/lib.rs:274-295 | The appending encoder gives the canonical bytes, or the first error, of the response |
| RustEncoder.EncodeBytes | crates/protocol/src/lib.rs:388-397 | Appends the length-prefixed field, or refuses a field longer than 32 bits can say |
| RustEncoder.EncodeOptionalStr | crates/protocol/src/lib.rs:407-420 | Appends the presence byte and, if present, the string |
| RustEncoder.EncodeOptionalU32 | crates/protocol/src/lib.rs:422-430 | Appends the presence byte and, if present, the number |
| RustEncoder.EncodeU64 | crates/protocol/src/lib.rs:384-386 | Appends eight big-endian bytes |
| SwiftEncoder.RequestCanonicalBytes | agent/Sources/MacosAuthAgent/main.swift:115-136 | Swift encodes a request exactly when Rust encodes the corresponding one, and to the same bytes |
| SwiftEncoder.ResponseCanonicalBytes | agent/Sources/MacosAuthAgent/main.swift:251-271 | Swift encodes a response exactly when Rust encodes the corresponding one, and to the same bytes |
| SwiftEncoder.EncodeUInt64 | agent/Sources/MacosAuthAgent/main.swift:1273-1277 | The shift loop appends the same eight bytes as the big-endian form |
| SwiftEncoder.EncodeUInt16 | agent/Sources/MacosAuthAgent/main.swift:1261-1264 | The two shifted bytes are the big-endian form |
| SwiftEncoder.EncodeBytes | agent/Sources/MacosAuthAgent/main.swift:1279-1285 | Appends the length-prefixed field, or refuses it |
| SwiftEncoder.EncodeOptionalString | agent/Sources/MacosAuthAgent/main.swift:1291-1298 | Presence byte, then the string |
| SwiftEncoder.EncodeOptionalUInt32 | agent/Sources/MacosAuthAgent/main.swift:1300-1307 | Presence byte, then the number |
| SwiftMessages.MethodSpellingsAgree | agent/Sources/MacosAuthAgent/main.swift:161-170 | Swift and Rust spell each method alike in JSON and alike in the signed bytes, although the two spellings differ for touch-id |
| SwiftMessages.RustRequestsSurvive | agent/Sources/MacosAuthAgent/main.swift:1254-1259 | A Rust request is the same request after its algorithm was respelled on the Swift side |
| Binding.BindingIsTotal | crates/protocol/src/lib.rs:297-311 | Under an injective hash, a response bound to two requests forces them to be equal in every field |
| Binding.AnswerFitsExactlyItsRequest | crates/protocol/src/lib.rs:228-253 | The answer made for a request binds to that request and to no other |
| Binding.SignedBytesDetermineTheRequest | crates/protocol/src/lib.rs:348-355 | One signed message serves one request |
| Binding.RequestsAreNotResponses | crates/protocol/src/lib.rs:16-17 | No request encoding is a response encoding |
| Timing.FreshnessAgreement | agent/Sources/MacosAuthAgent/main.swift:142-149 | Swift and Rust freshness differ exactly at now = expiry; Swift is never the more lenient |
| Timing.SwiftForRequest | agent/Sources/MacosAuthAgent/main.swift:207-234 | Fails exactly for an expired or unencodable request; otherwise created = now < expires <= request expiry |
| Timing.SwiftAnswerIsSound | agent/Sources/MacosAuthAgent/main.swift:207-234 | The answer always validates, is Rust's answer with the same window, is bound to its request, and is fresh for Rust exactly within its window |
| Timing.DeadlineIsIdealClamped | agent/Sources/MacosAuthAgent/Transport.swift:13-27 | With wrap-around written out, the deadline is the ideal sum clamped to 64 bits |
| Timing.RemainingIsCeilingClamped | agent/Sources/MacosAuthAgent/Transport.swift:29-33 | Remaining milliseconds are the exact ceiling, clamped to a signed 32-bit integer, zero exactly from the deadline on |
| RateLimiting.PruningRefinesFullHistory | agent/Sources/MacosAuthAgent/main.swift:394-412 | Under a nondecreasing clock the pruned list decides every request as a limiter with the full history does |
| RateLimiting.PruningIsExact | agent/Sources/MacosAuthAgent/main.swift:394-412 | On all readings, backward ones included, the pruned list decides as the full history if and only if the limit is at most one or the window is the widest 64 bits allow |
| RateLimiting.ClockGoesBack | agent/Sources/MacosAuthAgent/main.swift:394-412 | The readings on which they differ otherwise |
| RateLimiting.WindowBoundIsExact | agent/Sources/MacosAuthAgent/main.swift:394-412 | The window bound holds on all readings under exactly the same condition |
| RateLimiting.WindowHoldsInOrder | agent/Sources/MacosAuthAgent/main.swift:394-412 | The window bound for the pruning limiter itself, on every nondecreasing run |
| RateLimiting.WindowOverflows | agent/Sources/MacosAuthAgent/main.swift:394-412 | The readings on which it fails otherwise: one more than the limit at instant 0 |
| RateLimiting.WindowBound | agent/Sources/MacosAuthAgent/main.swift:394-412 | Every closed interval of the window length holds at most the maximum number of admissions |
| RateLimiting.RateLimiter.Allow | agent/Sources/MacosAuthAgent/main.swift:394-412 | Decision and list of the key are one step of the pruned limiter, whatever the clock does; it admits exactly as the full history does while the clock has not gone back; no other key is touched |
| RateLimiting.RateLimiter.WindowNeverOverflows | agent/Sources/MacosAuthAgent/main.swift:383-413 | Every reachable limiter: no window of any key overflows while the clock has not gone back, and no stored list ever exceeds the limit |
| RateLimiting.KeysSeparate | agent/Sources/MacosAuthAgent/main.swift:403-403 | Equal keys come from equal triples when host and service hold no '|' |
| RateLimiting.KeyIsExclusive | agent/Sources/MacosAuthAgent/main.swift:403-403 | A triple has its key to itself if and only if none of its parts holds a '|' |
| Lifetimes.RequestLifetime.constructor | agent/Sources/MacosAuthAgent/Transport.swift:119-124 | Fixes the monotonic deadline from the signed expiry and the connection deadline |
| Lifetimes.RequestLifetime.Check | agent/Sources/MacosAuthAgent/Transport.swift:126-143 | Succeeds exactly if this and every earlier check was good and nothing cancelled it |
| Lifetimes.RequestLifetime.Cancel | agent/Sources/MacosAuthAgent/Transport.swift:147-151 | After it no check can succeed |
| Lifetimes.FailureIsTerminal | agent/Sources/MacosAuthAgent/Transport.swift:126-151 | Once something failed, no continuation succeeds, however the clocks move |
| Lifetimes.GoodCheckBound | agent/Sources/MacosAuthAgent/Transport.swift:119-138 | A single good check reads the wall clock before the signed expiry and the uptime before both monotonic bounds |
| Lifetimes.LifetimeBound | agent/Sources/MacosAuthAgent/Transport.swift:119-143 | Every successful check was before the 15 s connection deadline and before the monotonic instant fixed at creation; a backward wall clock extends nothing |
| ConnectionPools.RefusedExactlyWhenFull | agent/Sources/MacosAuthAgent/Transport.swift:154-169 | At most eight connections are served at once, and one is refused exactly when eight are |
| ConnectionPools.SlotsComeBack | agent/Sources/MacosAuthAgent/Transport.swift:163-166 | No slot is lost, however the work ends |
| Coordinators.LockedResult.Complete | agent/Sources/MacosAuthAgent/Authentication.swift:20-24 | The first attempt to set the result stays |
| Coordinators.StepKeeps | agent/Sources/MacosAuthAgent/Authentication.swift:54-74 | Every step of any number of calls keeps slot and session invariants |
| Coordinators.OneLiveSession | agent/Sources/MacosAuthAgent/Authentication.swift:54-74 | In every reachable state at most one session is alive, and the slot is free exactly when nobody holds it |
| Coordinators.CancelledBeforeRelease | agent/Sources/MacosAuthAgent/Authentication.swift:58-61 | The slot is given back only after the session, if any, was cancelled, on return and on throw |
| Coordinators.ReleaseFollowsCancel | agent/Sources/MacosAuthAgent/Authentication.swift:58-61 | The same for one step of any state that keeps the invariant; the permit is conserved |
| Coordinators.ReturnedIsFirstCompletion | agent/Sources/MacosAuthAgent/Authentication.swift:62-73 | The returned value is the first completion, followed by a lifetime check whose readings were good, and approval went through confirmation if required |
| Coordinators.OutcomeIsFinal | agent/Sources/MacosAuthAgent/Authentication.swift:20-24 | No later step, late callbacks included, changes an outcome |
| Coordinators.SessionStepKeeps | agent/Sources/MacosAuthAgent/Authentication.swift:86-124 | The step order of a session: no report before evaluation or cancellation by the user, approval only from evaluation |
| MarkerTexts.MarkerRoundTrip | crates/helper/src/main.rs:1031-1057 | A marker parses to its exact 64-bit expiry only when all of it is there; a half-written one never parses to a smaller number |
| MarkerTexts.DecimalRoundTrip | crates/helper/src/main.rs:1049-1057 | Decimal digits read back as the number |
| ReplayMarkers.OnlyExpiredMarkersGo | crates/helper/src/trust.rs:92-137 | Under any interleaving, what is unlinked has expired by the clock of the helper that unlinks it |
| ReplayMarkers.RecordedAtMostOnce | crates/helper/src/main.rs:1031-1047 | While cleanup clocks read at most the expiry, one signature is recorded at most once |
| ReplayMarkers.LateCleanupAdmitsReplay | crates/helper/src/trust.rs:129-132 | A cleanup clock past the expiry lets the same signature be recorded twice, with the run that shows it |
| ReplayMarkers.AtMostOnceExactly | crates/helper/src/main.rs:1031-1047 | Recording at most once holds for all runs within a clock bound if and only if the bound is no later than the expiry |
| MarkerDirectories.MarkerDirectory.CleanupMarkers | crates/helper/src/trust.rs:92-137 | Removes exactly the visited regular files under marker names that can be read and removed and whose parsed expiry is past; fails only if the directory cannot be opened |
| MarkerDirectories.MarkerDirectory.CreateMarker | crates/helper/src/trust.rs:76-90 | Creates exactly if creation works and nothing is there under that name; tells the two failures apart |
| MarkerDirectories.MarkerDirectory.RecordReplayMarker | crates/helper/src/main.rs:1031-1047 | The first thing to go wrong, of clock, listing, creation and three writes, is the error; the directory afterwards exactly, with as much of the marker as was written |
| MarkerDirectories.SecondRecordingIsRefused | crates/helper/src/main.rs:1031-1047 | A second recording is refused as a replay unless its cleanup could read and remove the first marker past its expiry |
| MarkerDirectories.RecordedMarkerStays | crates/helper/src/trust.rs:129-132 | A recorded marker goes if and only if a cleanup is shown it by a clock past its expiry |
| PamProcess.RunHelper | pam/pam_macos_auth.c:281-364 | Result, fate of the child and ticks used as a function of every sequence of waits, interrupts and clock readings |
| PamProcess.ChildIsAccountedFor | pam/pam_macos_auth.c:312-364 | On every way out the child has been reaped or there is none, if and only if the blocking wait is not refused |
| PamProcess.RefusedWaitLeavesTheChild | pam/pam_macos_auth.c:275-279 | A script on which it is refused, and the function returns without its child |
| PamProcess.TimeoutHidesTheStatus | pam/pam_macos_auth.c:334-349 | Once the timeout branch is entered the result is 10, or 127 if there is no child; never the child's own status |
| PamProcess.ResultStays | pam/pam_macos_auth.c:312-364 | A result does not depend on what comes later |
| PamProcess.OnlyTheEndLeavesItOpen | pam/pam_macos_auth.c:312-364 | There is no result exactly if the script ends first, and then all of it was used |
| PamProcess.NextReapEndsIt | pam/pam_macos_auth.c:312-364 | Then the very next wait that finds the child brings the result, wherever the function is |
| PamProcess.Terminate | pam/pam_macos_auth.c:334-349 | SIGTERM, the polls of the grace period, then the kill: result, fate and ticks used, exactly |
| PamProcess.KillAndReap | pam/pam_macos_auth.c:275-279 | Ends at the first wait that is neither interrupted nor unfinished, with its fate |
| PamProcess.Authenticate | pam/pam_macos_auth.c:383-440 | The PAM result as a function of what was known, trusted and started, and of the course of the helper |
| PamProcess.SuccessExactly | pam/pam_macos_auth.c:383-440 | Success exactly if the helper was started and its own exit 0 was collected in time; no result exactly if the script ended first |
| PamProcess.FallbackExactly | pam/pam_macos_auth.c:366-381 | Fallback exactly on 10, 11 or 12 collected in time or on the timeout; the hard failure is what remains |
| PathWalks.ValidateHelperPath | pam/pam_macos_auth.c:116-160 | Gives exactly the last handle of a walk in which every handle was opened relative to the one before and passed when opened; leaves one descriptor open on success and none on failure |
| PathWalks.WalkTokens | pam/pam_macos_auth.c:131-151 | The loop over strtok tokens, against the walk |
| PathWalks.Open | crates/helper/src/trust.rs:38-74 | Gives exactly the last handle of the Rust walk, checked once more |
| PathWalks.Descend | crates/helper/src/trust.rs:55-71 | The loop over components, against the walk |
| PathWalks.CollectComponents | crates/helper/src/trust.rs:47-54 | Drops empty and "." components, refuses ".." and zero bytes |
| PathWalks.WalksToExactly | pam/pam_macos_auth.c:132-151 | The walk ends at a handle if and only if a chain of handles from the root leads there, each opened relative to the one before and each accepted when opened, though names may be rebound in between |
| PathWalks.WalkersAgree | pam/pam_macos_auth.c:110-160 | On a fixed file system C accepts a file if and only if Rust accepts it as root-owned and public, the owner may execute it, and the path is written as C insists |
| PathWalks.TokensArePieces | pam/pam_macos_auth.c:132-139 | strtok tokens are the non-empty pieces between slashes |
| PathWalks.ComponentsWithoutDot | crates/helper/src/trust.rs:48-54 | Without "." the Rust components are the C tokens, or a refusal for ".." |
| PathWalks.AcceptedHelperLasts | pam/pam_macos_auth.c:110-160 | If only root changes what only root may write, the path of an accepted helper names that very, still trusted file at every later moment |
| PathWalks.AcceptedFileLasts | crates/helper/src/trust.rs:16-74 | The same for every path Rust accepts as root-owned |
| ConfigFiles.WriteAll | agent/Sources/MacosAuthAgent/SecureFiles.swift:40-50 | Ending and bytes written exactly as the answers of write determine; nothing else changes after any write |
| ConfigFiles.DoneExactly | agent/Sources/MacosAuthAgent/SecureFiles.swift:40-50 | All is written if and only if some first writes suffice before any failure |
| ConfigFiles.PendingExactly | agent/Sources/MacosAuthAgent/SecureFiles.swift:40-50 | Writing is unfinished if and only if nothing failed and the writes given do not suffice |
| ConfigFiles.ReplaceConfigFile | agent/Sources/MacosAuthAgent/SecureFiles.swift:52-95 | After every system call the name is bound to the original or to a complete, forced-out replacement; the ending is the first thing to go wrong; the directory afterwards exactly |
| ConfigFiles.ReplacedExactly | agent/Sources/MacosAuthAgent/SecureFiles.swift:52-95 | Success if and only if every check passes, the name of the replacement is free, the writes suffice, every call works and the name still leads to the original |
| ConfigFiles.FillReplacement | agent/Sources/MacosAuthAgent/SecureFiles.swift:70-86 | The replacement is filled, given owner and mode, forced out and closed, or the first of these failed; nothing else is touched |
| ConfigFiles.Secure | agent/Sources/MacosAuthAgent/SecureFiles.swift:79-86 | Owner and mode of the original, forced out and closed; throws exactly as the first failing call says |
| ConfigFiles.SwapIn | agent/Sources/MacosAuthAgent/SecureFiles.swift:87-94 | Renames exactly if the name still leads to the original and rename works; only a failed directory sync can throw after it |
| ConfigFiles.CrashLeavesOldOrNew | agent/Sources/MacosAuthAgent/SecureFiles.swift:78-94 | A crash in any such state leaves the original inode with its bytes or the new one with all the data and its mode |
| ConfigFiles.WantedMode | agent/Sources/MacosAuthAgent/SecureFiles.swift:79-79 | Permission bits are the original's, cut to the owner's for private material, and pass the file's own validation |
| Collector.AddSource | packaging/release/artifacts.py:284-295 | A source joins exactly if every package of it is in order and agrees with what was chosen |
| Collector.Choose | packaging/release/artifacts.py:275-297 | Choosing succeeds exactly if every source is in order and no two of them disagree; the choice holds exactly the packages of all sources |
| Collector.OrderDoesNotMatter | packaging/release/artifacts.py:275-297 | Sources in another order are accepted alike and give the same choice |
| Collector.ReadRecordIsFaithful | packaging/release/artifacts.py:152-189 | With collision-free digests, two accepted packages of one build are identical, checksum file included |
| Publishing.CollectedVerifies | packaging/release/artifacts.py:267-382 | What was collected passes verification if and only if the names cover the required ones and no directory sits where a package or published file belongs |
| Publishing.CollectedNamesAreKnown | packaging/release/artifacts.py:49-61 | Every accepted package has one of the four Linux names or the macOS name |
| Publishing.IndexDeterminesRelease | packaging/release/artifacts.py:343-382 | Two directories that pass verification with the same index hold the same packages, byte for byte; so nothing verified can be exchanged unnoticed |
| Publishing.AcceptedIsReleased | packaging/release/artifacts.py:160-189 | An accepted artifact has the recorded digest and checksum line, the released version and a clean released source, and under the macOS name it is notarized with its signed input |
| Publishing.AcceptedIsConsistent | packaging/release/artifacts.py:161-180 | An accepted record names its own file and says macOS exactly under the macOS name |
| Publishing.OutputDirectory.Clean | packaging/release/artifacts.py:325-332 | Removes exactly known files and links; directories stay |
| Publishing.OutputDirectory.CopyIn | packaging/release/artifacts.py:333-337 | Succeeds exactly if no destination is a symbolic link; then everything is in place, directories excepted |
| Publishing.OutputDirectory.Collect | packaging/release/artifacts.py:267-339 | Provenance, conflict and scope failures leave the output untouched; otherwise success exactly if none of the files to be published would go through a symbolic link, and on that refusal no other name differs |
| Publishing.ObstructedIsRefused | packaging/release/artifacts.py:333-337 | The failing side of the condition: with a directory named like the index in the output, collecting goes through and the verifier refuses |
| Publishing.Assemble | packaging/release/artifacts.py:298-322 | The copying loop builds exactly the published set of files |
| MarkerRuns.RecordingIsARun | crates/helper/src/main.rs:1031-1047 | What one recording does to the texts of the directory in one piece is a run of the interleaved steps, from any reachable state and with any failures: the same texts, and the helper where its outcome says |
| MarkerRuns.CleanupIsSteps | crates/helper/src/trust.rs:92-137 | A whole cleanup is a run of steps that leaves exactly the entries it leaves |
| MarkerRuns.RecordingsAreARun | crates/helper/src/main.rs:1031-1047 | Any list of recordings in one directory is a run, recording by recording |
| MarkerRuns.SucceedsAtMostOnce | crates/helper/src/main.rs:1031-1047 | So in any list of recordings whose clocks do not pass the expiry at most one recording of a name succeeds |

## Left out

- Ed25519, SHA-256, key generation and storage: library code; the two assumptions above stand for them.
- JSON, TOML and command-line parsing, hexadecimal, option handling, configuration loading and key files: a run starts from settings, or from their absence; a JSON codec is a pair of functions.
- LocalAuthentication, alerts, run loops and the keychain: a session is started, may report at any time after its steps allow it, and is cancelled.
- Fake-agent paths, sample and test-vector commands, host list editing, logging texts.
- The Unix socket listener with its stale-socket handling, and the accept loop around the pool.
- Closing inherited descriptors and building the argument vector in the PAM module.
- Swift strings are byte sequences; lower-casing and trimming are ASCII only.
- The name of the field in a field-too-large error.
- Marker files that are not UTF-8; a marker name is taken to determine the expiry of its response, as it is the digest of a signature over it.
- Shifts are halvings on unbounded integers; the shift amounts of the source are all within the width.
- The encoders are cut into runs of consecutive fields; the order of the appends is that of the source.
- The ghost reader of the canonical encoding has no counterpart in the repository; it is there to state what the encoding determines.
- In the state machine with a shared cache every helper uses it; a helper without one is an ordinary helper of the protocol.
- A helper run that fails before its request is signed does not enter the protocol state machine.
- In `Protocol` the rate limiter's verdict is free; `LimitedAgent` puts the limiter in, and asking it and entering the coordinator are one step there.
- Swift reading a frame within two seconds, and socket buffers, do not appear in the protocol: its transport delivers anything at any time.
- PathWalks.Open: does not tell which error is reported, only that there is none.
- PathWalks.AcceptedHelperLasts: contents of the file and access by descriptors already open for writing are not part of the model.
- ConfigFiles.ReplaceConfigFile: another writer appears only as the free answer of the last look at the file; what a second writer does between that look and the rename is not covered, nor are path resolution and the umask.
- ConfigFiles.CrashLeavesOldOrNew: a crash is taken to keep what was forced out and some state of the directory since its last sync.
- Publishing.OutputDirectory.Collect: fetching over scp, the temporary directory, special files, and an output path that itself holds a colon; after a refused symbolic link it says nothing about which files had been copied.
- Collector.Choose: which of several errors is reported first depends on the order of names and sources and is not specified.
- Building, signing, notarizing and uploading packages; platform checks of the verifier.
