/** The frame functions of agent/Sources/MacosAuthAgent/Transport.swift. */
module SwiftTransport {
  import opened Bytes
  import opened Frames
  import opened Loops
  import opened Sockets
  import opened SwiftMessages

  /**
   Still running only if the script is over. A throw is a timeout only if the clock, read last, had reached the
   deadline or the last poll ran out of time; any other throw came while there was time.
   */
  predicate Settled<T>(w: Wire, r: Run<T, AgentError>, deadline: nat) {
    && (r.Pending? ==> Over(w))
    && (r.Failure? ==>
          || (r.error == AgentTimeout
              && (w.lastClock >= deadline || (0 < w.at <= |w.script| && w.script[w.at - 1].poll.TimedOut?)))
          || (r.error == IoError && w.lastClock < deadline))
  }

  // ---- What each loop does ----

  function WaitRun(w: Wire, deadline: nat): (r: (Wire, Run<(), AgentError>))
    ensures r.0.script == w.script && r.0.at >= w.at && (r.1.Done? ==> r.0.at > w.at)
    decreases |w.script| - w.at
  {
    if Over(w) then (w, Pending)
    else
      var before := ReadClock(w);
      if before.lastClock >= deadline then (before, Failure(AgentTimeout))
      else if Over(before) then (before, Pending)
      else if before.script[before.at].poll.PollInterrupted? then WaitRun(Skip(before), deadline)
      else AfterPoll(Skip(before), before.script[before.at].poll, deadline)
  }

  /** A poll that came back is looked at, with the deadline checked once more. */
  function AfterPoll(polled: Wire, result: Poll, deadline: nat): (Wire, Run<(), AgentError>) {
    if result.PollBroken? then (polled, Failure(IoError))
    else if result.TimedOut? then (polled, Failure(AgentTimeout))
    else if Over(polled) then (polled, Pending)
    else
      var after := ReadClock(polled);
      if after.lastClock >= deadline then (after, Failure(AgentTimeout))
      else (after, if result.InvalidFd? then Failure(IoError) else Done(()))
  }

  /** What a transfer that was no mere delay amounts to; `Gone` moved nothing. */
  function ReadResult(moved: Moved): Run<bytes, AgentError> {
    match moved
    case Got(chunk) => Done(chunk)
    case Gone => Done([])
    case Failed => Failure(IoError)
    case _ => Pending
  }

  function WriteResult(moved: Moved): Run<nat, AgentError> {
    match moved
    case Got(chunk) => Done(|chunk|)
    case Gone => Done(0)
    case Failed => Failure(IoError)
    case _ => Pending
  }

  /** Waits and receives until some bytes come, or none at end of file. */
  function ReadRun(w: Wire, max: nat, deadline: nat): (r: (Wire, Run<bytes, AgentError>))
    requires max > 0
    ensures r.1.Done? ==> |r.1.value| <= max
    decreases |w.script| - w.at
  {
    var (ready, waited) := WaitRun(w, deadline);
    if !waited.Done? then (ready, if waited.Pending? then Pending else Failure(waited.error))
    else
      var (next, moved) := Receive(ready, max);
      if moved.Again? || moved.Retry? then ReadRun(next, max, deadline) else (next, ReadResult(moved))
  }

  /** Waits and sends until some bytes go out, or a send takes none. */
  function WriteRun(w: Wire, data: bytes, deadline: nat): (r: (Wire, Run<nat, AgentError>))
    requires data != []
    ensures r.1.Done? ==> r.1.value <= |data|
    decreases |w.script| - w.at
  {
    var (ready, waited) := WaitRun(w, deadline);
    if !waited.Done? then (ready, if waited.Pending? then Pending else Failure(waited.error))
    else
      var (next, moved) := Transmit(ready, data);
      if moved.Again? || moved.Retry? then WriteRun(next, data, deadline) else (next, WriteResult(moved))
  }

  function Reads(deadline: nat): ReadCall<AgentError> {
    (w: Wire, max: nat) => if max == 0 then (w, Done([])) else ReadRun(w, max, deadline)
  }

  function Writes(deadline: nat): WriteCall<AgentError> {
    (w: Wire, data: bytes) => if data == [] then (w, Done(0)) else WriteRun(w, data, deadline)
  }

  const OVERSIZED: nat -> AgentError := (len: nat) => IoError

  // ---- What a single call keeps to ----

  lemma {:induction false} WaitSettles(w: Wire, deadline: nat)
    ensures var (later, r) := WaitRun(w, deadline);
            && Took(w, later, []) && Gave(w, later, []) && Settled(later, r, deadline)
                && (r.Done? ==> later.lastClock < deadline)
    decreases |w.script| - w.at
  {
    if !Over(w) && !Over(ReadClock(w)) { WaitSettles(Skip(ReadClock(w)), deadline); }
  }

  /** A single read takes what it returns, before the deadline. */
  lemma {:induction false} ReadSettles(w: Wire, max: nat, deadline: nat)
    requires max > 0
    ensures var (later, r) := ReadRun(w, max, deadline);
            ReadOk(w, max, (later, r)) && Settled(later, r, deadline) && (r.Done? ==> later.lastClock < deadline)
    decreases |w.script| - w.at
  {
    WaitSettles(w, deadline);
    var (ready, waited) := WaitRun(w, deadline);
    if waited.Done? {
      var (next, moved) := Receive(ready, max);
      if moved.Again? || moved.Retry? { ReadSettles(next, max, deadline); }
    }
  }

  /** A single write sends as much as it returns, before the deadline. */
  lemma {:induction false} WriteSettles(w: Wire, data: bytes, deadline: nat)
    requires data != []
    ensures var (later, r) := WriteRun(w, data, deadline);
            WriteOk(w, data, (later, r)) && Settled(later, r, deadline) && (r.Done? ==> later.lastClock < deadline)
    decreases |w.script| - w.at
  {
    WaitSettles(w, deadline);
    var (ready, waited) := WaitRun(w, deadline);
    if waited.Done? {
      var (next, moved) := Transmit(ready, data);
      if moved.Again? || moved.Retry? { WriteSettles(next, data, deadline); }
    }
  }

  lemma SingleCalls(deadline: nat)
    ensures ReadsSome(Reads(deadline)) && WritesSome(Writes(deadline))
  {
    forall w: Wire, max: nat | max > 0 ensures ReadOk(w, max, Reads(deadline)(w, max)) {
      ReadSettles(w, max, deadline);
    }
    forall w: Wire, data: bytes | data != [] ensures WriteOk(w, data, Writes(deadline)(w, data)) {
      WriteSettles(w, data, deadline);
    }
  }

  // ---- Whole buffers and frames ----

  function ReadAllOf(w: Wire, count: nat, deadline: nat): (Wire, Run<bytes, AgentError>) {
    SingleCalls(deadline);
    ReadExactRun(Reads(deadline), IoError, w, count)
  }

  function WriteAllOf(w: Wire, data: bytes, deadline: nat): (Wire, Run<(), AgentError>) {
    SingleCalls(deadline);
    WriteAllRun(Writes(deadline), IoError, w, data)
  }

  /** `readJSONFrame` up to the decoding. */
  function FrameIn(w: Wire, deadline: nat): (Wire, Run<bytes, AgentError>) {
    SingleCalls(deadline);
    ReadFrameRun(Reads(deadline), IoError, OVERSIZED, w)
  }

  /** `writeJSONFrame` after the encoding: an oversized body is refused before anything is sent. */
  function FrameOut(w: Wire, body: bytes, deadline: nat): (Wire, Run<(), AgentError>) {
    if |body| > MAX_FRAME_LEN then (w, Failure(IoError)) else WriteAllOf(w, Frame(body), deadline)
  }

  /** `readExactly` with `data` in the buffer already. */
  function ReadOn(w: Wire, count: nat, data: bytes, deadline: nat): (Wire, Run<bytes, AgentError>) {
    SingleCalls(deadline);
    ReadOnRun(Reads(deadline), IoError, w, count, data)
  }

  /** One turn of the reading loop. */
  lemma ReadOnStep(w: Wire, count: nat, data: bytes, deadline: nat, next: Wire, chunk: Run<bytes, AgentError>)
    requires count > 0 && ReadRun(w, count, deadline) == (next, chunk)
    ensures ReadOn(w, count, data, deadline) ==
            if !chunk.Done? then (next, chunk)
            else if chunk.value == [] then (next, Failure(IoError))
            else ReadOn(next, count - |chunk.value|, data + chunk.value, deadline)
  {
    SingleCalls(deadline);
    ReadOnOnce(Reads(deadline), IoError, w, count, data, next, chunk);
  }

  lemma NothingToRead(w: Wire, data: bytes, deadline: nat)
    ensures ReadOn(w, 0, data, deadline) == (w, Done(data))
  {
    SingleCalls(deadline);
  }

  /** An attempt that moved nothing leaves everything still to be read. */
  lemma SameRead(w: Wire, count: nat, data: bytes, deadline: nat, next: Wire)
    requires count > 0 && ReadRun(w, count, deadline) == ReadRun(next, count, deadline)
    ensures ReadOn(w, count, data, deadline) == ReadOn(next, count, data, deadline)
  {
    var (later, chunk) := ReadRun(w, count, deadline);
    ReadOnStep(w, count, data, deadline, later, chunk);
    ReadOnStep(next, count, data, deadline, later, chunk);
  }

  /** Waiting that fails ends the loop. */
  lemma FillFails(w: Wire, count: nat, data: bytes, deadline: nat, ready: Wire, waited: Run<(), AgentError>)
    requires count > 0 && WaitRun(w, deadline) == (ready, waited) && !waited.Done?
    ensures ReadOn(w, count, data, deadline) == (ready, if waited.Pending? then Pending else Failure(waited.error))
  {
    ReadOnStep(w, count, data, deadline, ready, if waited.Pending? then Pending else Failure(waited.error));
  }

  /** One attempt after waiting. */
  lemma FillStep(w: Wire, count: nat, data: bytes, deadline: nat, ready: Wire, waited: Run<(), AgentError>,
                 next: Wire, moved: Moved)
    requires count > 0 && WaitRun(w, deadline) == (ready, waited) && waited.Done?
             && Receive(ready, count) == (next, moved)
    ensures ReadOn(w, count, data, deadline) ==
            if moved.Again? || moved.Retry? then ReadOn(next, count, data, deadline)
            else if moved.Got? then ReadOn(next, count - |moved.chunk|, data + moved.chunk, deadline)
            else (next, if moved.NoTick? then Pending else Failure(IoError))
  {
    if moved.Again? || moved.Retry? {
      SameRead(w, count, data, deadline, next);
    } else {
      ReadOnStep(w, count, data, deadline, next, ReadResult(moved));
    }
  }

  lemma ReadOnFromNothing(w: Wire, count: nat, deadline: nat)
    ensures ReadOn(w, count, [], deadline) == ReadAllOf(w, count, deadline)
  {
    SingleCalls(deadline);
    ReadOnJoins(Reads(deadline), IoError, w, count, []);
    NothingBefore(ReadAllOf(w, count, deadline));
  }

  /** One turn of the sending loop. */
  lemma WriteAllStep(w: Wire, data: bytes, deadline: nat, next: Wire, n: Run<nat, AgentError>)
    requires data != [] && WriteRun(w, data, deadline) == (next, n)
    ensures WriteAllOf(w, data, deadline) ==
            if n.Pending? then (next, Pending)
            else if n.Failure? then (next, Failure(n.error))
            else if n.value == 0 then (next, Failure(IoError))
            else WriteAllOf(next, data[n.value..], deadline)
  {
    SingleCalls(deadline);
    assert Writes(deadline)(w, data) == (next, n);
  }

  lemma NothingToWrite(w: Wire, deadline: nat)
    ensures WriteAllOf(w, [], deadline) == (w, Done(()))
  {
    SingleCalls(deadline);
  }

  // ---- What the loops keep to ----

  lemma {:induction false} ReadsSettle(w: Wire, count: nat, deadline: nat)
    ensures var (later, r) := ReadAllOf(w, count, deadline);
            Settled(later, r, deadline) && (r.Done? && count > 0 ==> later.lastClock < deadline)
    decreases count
  {
    SingleCalls(deadline);
    if count > 0 {
      var (next, chunk) := Reads(deadline)(w, count);
      assert (next, chunk) == ReadRun(w, count, deadline);
      ReadSettles(w, count, deadline);
      if chunk.Done? && chunk.value != [] { ReadsSettle(next, count - |chunk.value|, deadline); }
    }
  }

  lemma {:induction false} WritesSettle(w: Wire, data: bytes, deadline: nat)
    ensures var (later, r) := WriteAllOf(w, data, deadline);
            Settled(later, r, deadline) && (r.Done? && data != [] ==> later.lastClock < deadline)
    decreases |data|
  {
    SingleCalls(deadline);
    if data != [] {
      var (next, n) := Writes(deadline)(w, data);
      assert (next, n) == WriteRun(w, data, deadline);
      WriteSettles(w, data, deadline);
      if n.Done? && n.value > 0 { WritesSettle(next, data[n.value..], deadline); }
    }
  }

  /** One whole frame in time, or nothing; of an oversized one the body is not touched. */
  lemma FrameInTakes(w: Wire, deadline: nat)
    ensures var (later, r) := FrameIn(w, deadline);
            && Settled(later, r, deadline)
            && (r.Done? ==> |r.value| <= MAX_FRAME_LEN && Took(w, later, Frame(r.value)) && later.lastClock < deadline)
            && (|w.incoming| >= 4 && FromBigEndian(w.incoming[..4]) > MAX_FRAME_LEN ==>
                  !r.Done? && (Took(w, later, w.incoming[..4]) || TookLess(w, later, 4)))
  {
    SingleCalls(deadline);
    ReadFrameTakes(Reads(deadline), IoError, OVERSIZED, w);
    ReadsSettle(w, 4, deadline);
    var (next, header) := ReadAllOf(w, 4, deadline);
    if header.Done? { ReadsSettle(next, FromBigEndian(header.value), deadline); }
  }

  /** One whole frame goes out in time, or a proper prefix of it; nothing of an oversized one. */
  lemma FrameOutGives(w: Wire, body: bytes, deadline: nat)
    ensures var (later, r) := FrameOut(w, body, deadline);
            if |body| > MAX_FRAME_LEN then r == Failure(IoError) && later == w
            else
              && Settled(later, r, deadline)
              && if r.Done? then Gave(w, later, Frame(body)) && later.lastClock < deadline
                  else GaveLess(w, later, Frame(body))
  {
    if |body| <= MAX_FRAME_LEN {
      SingleCalls(deadline);
      WriteAllGives(Writes(deadline), IoError, w, Frame(body));
      WritesSettle(w, Frame(body), deadline);
    }
  }

  // ---- Progress ----

  /** Four ticks a chunk: two clock readings, a poll, and the transfer. An expired poll is a throw here, not a wait. */
  function SwiftFlow(deadline: nat, k: nat): Flow { Flow(deadline, k, false, 0, 4) }

  /** From within the flow three ticks; from before it, at most three of it. */
  lemma {:induction false} WaitSucceeds(w: Wire, deadline: nat, k: nat)
    requires InFlow(w, SwiftFlow(deadline, k)) && MovingLeft(w, k) >= 3
    ensures WaitRun(w, deadline).1.Done? && InFlow(WaitRun(w, deadline).0, SwiftFlow(deadline, k))
    ensures WaitRun(w, deadline).0.at <= Max(w.at, k) + 3
    decreases |w.script| - w.at
  {
    assert Calm(w.script[w.at], deadline, false) && Calm(w.script[w.at + 1], deadline, false);
    var polled := Skip(ReadClock(w));
    if w.script[w.at + 1].poll.PollInterrupted? {
      WaitSucceeds(polled, deadline, k);
    } else {
      assert Calm(w.script[polled.at], deadline, false);
    }
  }

  lemma {:induction false} ReadSucceeds(w: Wire, max: nat, deadline: nat, k: nat)
    requires max > 0 && w.incoming != [] && InFlow(w, SwiftFlow(deadline, k)) && Left(w, SwiftFlow(deadline, k)) >= 4
    ensures ReadMoves(w, ReadRun(w, max, deadline), SwiftFlow(deadline, k))
    decreases |w.script| - w.at
  {
    WaitSucceeds(w, deadline, k);
    WaitSettles(w, deadline);
    var ready := WaitRun(w, deadline).0;
    assert Calm(w.script[ready.at], deadline, false);
    var (next, moved) := Receive(ready, max);
    if moved.Again? || moved.Retry? { ReadSucceeds(next, max, deadline, k); }
  }

  lemma {:induction false} WriteSucceeds(w: Wire, data: bytes, deadline: nat, k: nat)
    requires data != [] && InFlow(w, SwiftFlow(deadline, k)) && Left(w, SwiftFlow(deadline, k)) >= 4
    ensures WriteMoves(w, WriteRun(w, data, deadline), SwiftFlow(deadline, k))
    decreases |w.script| - w.at
  {
    WaitSucceeds(w, deadline, k);
    var ready := WaitRun(w, deadline).0;
    assert Calm(w.script[ready.at], deadline, false);
    var (next, moved) := Transmit(ready, data);
    if moved.Again? || moved.Retry? { WriteSucceeds(next, data, deadline, k); }
  }

  lemma SingleCallsMove(deadline: nat, k: nat)
    ensures ReadsOn(Reads(deadline), SwiftFlow(deadline, k)) && WritesOn(Writes(deadline), SwiftFlow(deadline, k))
  {
    var f := SwiftFlow(deadline, k);
    forall w: Wire, max: nat | max > 0 && w.incoming != [] && InFlow(w, f) && Left(w, f) >= f.cost
      ensures ReadMoves(w, Reads(deadline)(w, max), f)
    {
      ReadSucceeds(w, max, deadline, k);
    }
    forall w: Wire, data: bytes | data != [] && InFlow(w, f) && Left(w, f) >= f.cost
      ensures WriteMoves(w, Writes(deadline)(w, data), f)
    {
      WriteSucceeds(w, data, deadline, k);
    }
  }

  lemma FrameOutSucceeds(w: Wire, body: bytes, deadline: nat, k: nat)
    requires |body| <= MAX_FRAME_LEN && InFlow(w, SwiftFlow(deadline, k))
    requires Left(w, SwiftFlow(deadline, k)) >= 4 * |Frame(body)|
    ensures var (later, r) := FrameOut(w, body, deadline);
            && r.Done? && InFlow(later, SwiftFlow(deadline, k))
            && Left(later, SwiftFlow(deadline, k)) >= Left(w, SwiftFlow(deadline, k)) - 4 * |Frame(body)|
  {
    SingleCalls(deadline);
    SingleCallsMove(deadline, k);
    WriteAllSucceeds(Writes(deadline), IoError, w, Frame(body), SwiftFlow(deadline, k));
  }

  lemma FrameInSucceeds(w: Wire, payload: bytes, rest: bytes, deadline: nat, k: nat)
    requires |payload| <= MAX_FRAME_LEN && w.incoming == Frame(payload) + rest
    requires InFlow(w, SwiftFlow(deadline, k)) && Left(w, SwiftFlow(deadline, k)) >= 4 * |Frame(payload)|
    ensures var (later, r) := FrameIn(w, deadline);
            && r == Done(payload) && Took(w, later, Frame(payload)) && InFlow(later, SwiftFlow(deadline, k))
            && Left(later, SwiftFlow(deadline, k)) >= Left(w, SwiftFlow(deadline, k)) - 4 * |Frame(payload)|
  {
    SingleCalls(deadline);
    SingleCallsMove(deadline, k);
    ReadFrameSucceeds(Reads(deadline), IoError, OVERSIZED, w, payload, rest, SwiftFlow(deadline, k));
  }

  // ---- The loops themselves ----

  method WaitForSocket(socket: Socket, deadline: nat) returns (r: Run<(), AgentError>)
    modifies socket`at, socket`lastClock
    ensures (socket.State(), r) == WaitRun(old(socket.State()), deadline)
  {
    while true
      invariant WaitRun(socket.State(), deadline) == WaitRun(old(socket.State()), deadline)
      decreases |socket.script| - socket.at
    {
      var before := socket.Clock();
      if before.None? { return Pending; }
      if before.value >= deadline { return Failure(AgentTimeout); }
      var result := socket.PollOnce();
      if result.None? { return Pending; }
      if result.value == PollInterrupted { continue; }
      if result.value == PollBroken { return Failure(IoError); }
      if result.value == TimedOut { return Failure(AgentTimeout); }
      var after := socket.Clock();
      if after.None? { return Pending; }
      if after.value >= deadline { return Failure(AgentTimeout); }
      if result.value == InvalidFd { return Failure(IoError); }
      return Done(());
    }
  }

  /** The loop of `readExactly`. */
  method Fill(socket: Socket, count: nat, deadline: nat) returns (r: Run<bytes, AgentError>)
    modifies socket`at, socket`lastClock, socket`incoming
    ensures (socket.State(), r) == ReadOn(old(socket.State()), count, [], deadline)
  {
    var data: bytes := [];
    var left: nat := count;
    while left > 0
      invariant ReadOn(old(socket.State()), count, [], deadline) == ReadOn(socket.State(), left, data, deadline)
      decreases |socket.script| - socket.at
    {
      ghost var start := socket.State();
      var waited := WaitForSocket(socket, deadline);
      ghost var ready := socket.State();
      if !waited.Done? { FillFails(start, left, data, deadline, ready, waited); }
      if waited.Pending? { return Pending; }
      if waited.Failure? { return Failure(waited.error); }
      var result := socket.Recv(left);
      FillStep(start, left, data, deadline, ready, waited, socket.State(), result);
      match result
      case NoTick => return Pending;
      case Again =>
      case Retry =>
      case Gone => return Failure(IoError);
      case Failed => return Failure(IoError);
      case Got(chunk) => data, left := data + chunk, left - |chunk|;
    }
    NothingToRead(socket.State(), data, deadline);
    return Done(data);
  }

  method ReadExactly(socket: Socket, count: nat, deadline: nat) returns (r: Run<bytes, AgentError>)
    modifies socket`at, socket`lastClock, socket`incoming
    ensures (socket.State(), r) == ReadAllOf(old(socket.State()), count, deadline)
  {
    ReadOnFromNothing(socket.State(), count, deadline);
    r := Fill(socket, count, deadline);
  }

  /** The sending loop of `writeJSONFrame`. */
  method SendAll(socket: Socket, data: bytes, deadline: nat) returns (r: Run<(), AgentError>)
    modifies socket`at, socket`lastClock, socket`outgoing
    ensures (socket.State(), r) == WriteAllOf(old(socket.State()), data, deadline)
  {
    var offset: nat := 0;
    while offset < |data|
      invariant offset <= |data|
      invariant WriteAllOf(old(socket.State()), data, deadline) == WriteAllOf(socket.State(), data[offset..], deadline)
      decreases |socket.script| - socket.at
    {
      ghost var start, rest := socket.State(), data[offset..];
      var waited := WaitForSocket(socket, deadline);
      ghost var ready := socket.State();
      if !waited.Done? { SendFails(start, rest, deadline, ready, waited); }
      if waited.Pending? { return Pending; }
      if waited.Failure? { return Failure(waited.error); }
      var result := socket.Send(data[offset..]);
      SendStep(start, rest, deadline, ready, waited, socket.State(), result);
      match result
      case NoTick => return Pending;
      case Again =>
      case Retry =>
      case Gone => return Failure(IoError);
      case Failed => return Failure(IoError);
      case Got(chunk) =>
        assert rest[|chunk|..] == data[offset + |chunk|..];
        offset := offset + |chunk|;
    }
    assert data[offset..] == [];
    NothingToWrite(socket.State(), deadline);
    return Done(());
  }

  /** An attempt that moved nothing leaves everything still to be written. */
  lemma SameWrite(w: Wire, data: bytes, deadline: nat, next: Wire)
    requires data != [] && WriteRun(w, data, deadline) == WriteRun(next, data, deadline)
    ensures WriteAllOf(w, data, deadline) == WriteAllOf(next, data, deadline)
  {
    var (later, n) := WriteRun(w, data, deadline);
    WriteAllStep(w, data, deadline, later, n);
    WriteAllStep(next, data, deadline, later, n);
  }

  lemma SendFails(w: Wire, data: bytes, deadline: nat, ready: Wire, waited: Run<(), AgentError>)
    requires data != [] && WaitRun(w, deadline) == (ready, waited) && !waited.Done?
    ensures WriteAllOf(w, data, deadline) == (ready, if waited.Pending? then Pending else Failure(waited.error))
  {
    WriteAllStep(w, data, deadline, ready, if waited.Pending? then Pending else Failure(waited.error));
  }

  lemma SendStep(w: Wire, data: bytes, deadline: nat, ready: Wire, waited: Run<(), AgentError>, next: Wire,
                 moved: Moved)
    requires data != [] && WaitRun(w, deadline) == (ready, waited) && waited.Done?
             && Transmit(ready, data) == (next, moved)
    ensures WriteAllOf(w, data, deadline) ==
            if moved.Again? || moved.Retry? then WriteAllOf(next, data, deadline)
            else if moved.Got? then WriteAllOf(next, data[|moved.chunk|..], deadline)
            else (next, if moved.NoTick? then Pending else Failure(IoError))
  {
    if moved.Again? || moved.Retry? {
      SameWrite(w, data, deadline, next);
    } else {
      WriteAllStep(w, data, deadline, next, WriteResult(moved));
    }
  }

  method WriteFrame(socket: Socket, body: bytes, deadline: nat) returns (r: Run<(), AgentError>)
    modifies socket`at, socket`lastClock, socket`outgoing
    ensures (socket.State(), r) == FrameOut(old(socket.State()), body, deadline)
  {
    if |body| > MAX_FRAME_LEN { return Failure(IoError); }
    r := SendAll(socket, BigEndian(|body|, 4) + body, deadline);
  }

  /** One more byte of a number that fits into 32 bits. */
  lemma NextLengthByte(header: bytes, i: nat)
    requires |header| == 4 && i < 4
    ensures FromBigEndian(header[..i + 1]) == FromBigEndian(header[..i]) * 256 + header[i] < U32_LIMIT
  {
    assert header[..i + 1][..i] == header[..i];
    FromBigEndianRoundTrip(header[..i + 1]);
    PowMonotone(i + 1, 4);
    Pow256Widths();
  }

  lemma {:induction false} PowMonotone(a: nat, b: nat)
    requires a <= b
    ensures Pow256(a) <= Pow256(b)
    decreases b
  {
    if a < b { PowMonotone(a, b - 1); }
  }

  /** `($0 << 8) | $1` over the length bytes, in 32 bits. */
  method ReadLength(header: bytes) returns (length: u32)
    requires |header| == 4
    ensures length == FromBigEndian(header)
  {
    length := 0;
    for i := 0 to 4
      invariant length == FromBigEndian(header[..i])
    {
      NextLengthByte(header, i);
      length := length * 256 + header[i];
    }
    assert header[..4] == header;
  }

  method ReadFrame(socket: Socket, deadline: nat) returns (r: Run<bytes, AgentError>)
    modifies socket`at, socket`lastClock, socket`incoming
    ensures (socket.State(), r) == FrameIn(old(socket.State()), deadline)
  {
    SingleCalls(deadline);
    ReadExactTakes(Reads(deadline), IoError, socket.State(), 4);
    var header := ReadExactly(socket, 4, deadline);
    if !header.Done? { return header; }
    var length := ReadLength(header.value);
    if length > MAX_FRAME_LEN { return Failure(IoError); }
    r := ReadExactly(socket, length, deadline);
  }
}

/** The two implementations talking to each other. */
module Framing {
  import opened Bytes
  import opened Frames
  import opened Loops
  import opened Sockets
  import opened SwiftMessages
  import Rust = RustTransport
  import Swift = SwiftTransport

  /** Any list of payloads written one after the other by the helper. */
  function RustWrites(w: Wire, payloads: seq<bytes>, deadline: nat): (Wire, Run<(), Rust.TransportError>)
    decreases |payloads|
  {
    if payloads == [] then (w, Done(()))
    else
      var (next, r) := Rust.FrameOut(w, payloads[0], deadline);
      if r.Done? then RustWrites(next, payloads[1..], deadline) else (next, r)
  }

  function SwiftWrites(w: Wire, payloads: seq<bytes>, deadline: nat): (Wire, Run<(), AgentError>)
    decreases |payloads|
  {
    if payloads == [] then (w, Done(()))
    else
      var (next, r) := Swift.FrameOut(w, payloads[0], deadline);
      if r.Done? then SwiftWrites(next, payloads[1..], deadline) else (next, r)
  }

  function RustReads(w: Wire, n: nat, deadline: nat): (Wire, Run<seq<bytes>, Rust.TransportError>) {
    Rust.SingleCalls(deadline);
    ReadFramesRun(Rust.Reads(deadline), Rust.Truncated, Rust.OVERSIZED, w, n)
  }

  function SwiftReads(w: Wire, n: nat, deadline: nat): (Wire, Run<seq<bytes>, AgentError>) {
    Swift.SingleCalls(deadline);
    ReadFramesRun(Swift.Reads(deadline), IoError, Swift.OVERSIZED, w, n)
  }

  /** Under every splitting of the sends, all of it goes out, and it is the stream of the frames. */
  lemma {:induction false} RustWritesAll(w: Wire, payloads: seq<bytes>, deadline: nat, k: nat)
    requires Sized(payloads) && InFlow(w, Rust.RustFlow(deadline, k))
    requires Left(w, Rust.RustFlow(deadline, k)) >= 2 * |FrameStream(payloads)|
    ensures var (later, r) := RustWrites(w, payloads, deadline);
            r.Done? && Gave(w, later, FrameStream(payloads))
    decreases |payloads|
  {
    if payloads != [] {
      Rust.FrameOutGives(w, payloads[0], deadline);
      Rust.FrameOutSucceeds(w, payloads[0], deadline, k);
      var next := Rust.FrameOut(w, payloads[0], deadline).0;
      RustWritesAll(next, payloads[1..], deadline, k);
      GaveBoth(w, next, RustWrites(next, payloads[1..], deadline).0, Frame(payloads[0]), FrameStream(payloads[1..]));
    }
  }

  lemma {:induction false} SwiftWritesAll(w: Wire, payloads: seq<bytes>, deadline: nat, k: nat)
    requires Sized(payloads) && InFlow(w, Swift.SwiftFlow(deadline, k))
    requires Left(w, Swift.SwiftFlow(deadline, k)) >= 4 * |FrameStream(payloads)|
    ensures var (later, r) := SwiftWrites(w, payloads, deadline);
            r.Done? && Gave(w, later, FrameStream(payloads))
    decreases |payloads|
  {
    if payloads != [] {
      Swift.FrameOutGives(w, payloads[0], deadline);
      Swift.FrameOutSucceeds(w, payloads[0], deadline, k);
      var next := Swift.FrameOut(w, payloads[0], deadline).0;
      SwiftWritesAll(next, payloads[1..], deadline, k);
      GaveBoth(w, next, SwiftWrites(next, payloads[1..], deadline).0, Frame(payloads[0]), FrameStream(payloads[1..]));
    }
  }

  /**
   Requests: whatever list the helper writes, the agent reads that list and takes exactly its frames, however the
   two kernels cut the bytes and whatever interruptions come before they let them flow.
   */
  lemma RustToSwift(from: Wire, to: Wire, payloads: seq<bytes>, rest: bytes, fromDeadline: nat, toDeadline: nat,
                    j: nat, k: nat)
    requires Sized(payloads)
    requires InFlow(from, Rust.RustFlow(fromDeadline, j))
    requires Left(from, Rust.RustFlow(fromDeadline, j)) >= 2 * |FrameStream(payloads)|
    requires InFlow(to, Swift.SwiftFlow(toDeadline, k)) && Left(to, Swift.SwiftFlow(toDeadline,
             k)) >= 4 * |FrameStream(payloads)|
    requires from.outgoing == [] && to.incoming == RustWrites(from, payloads, fromDeadline).0.outgoing + rest
    ensures RustWrites(from, payloads, fromDeadline).1.Done?
    ensures var (later, r) := SwiftReads(to, |payloads|, toDeadline); r == Done(payloads) && later.incoming == rest
  {
    RustWritesAll(from, payloads, fromDeadline, j);
    FromNothing(FrameStream(payloads));
    Swift.SingleCalls(toDeadline);
    Swift.SingleCallsMove(toDeadline, k);
    AllFramesReadBack(Swift.Reads(toDeadline), IoError, Swift.OVERSIZED, to, payloads, rest,
                      Swift.SwiftFlow(toDeadline, k));
  }

  /** Answers: the same from the agent to the helper. */
  lemma SwiftToRust(from: Wire, to: Wire, payloads: seq<bytes>, rest: bytes, fromDeadline: nat, toDeadline: nat,
                    j: nat, k: nat)
    requires Sized(payloads)
    requires InFlow(from, Swift.SwiftFlow(fromDeadline, j))
    requires Left(from, Swift.SwiftFlow(fromDeadline, j)) >= 4 * |FrameStream(payloads)|
    requires InFlow(to, Rust.RustFlow(toDeadline, k)) && Left(to, Rust.RustFlow(toDeadline,
             k)) >= 2 * |FrameStream(payloads)|
    requires from.outgoing == [] && to.incoming == SwiftWrites(from, payloads, fromDeadline).0.outgoing + rest
    ensures SwiftWrites(from, payloads, fromDeadline).1.Done?
    ensures var (later, r) := RustReads(to, |payloads|, toDeadline); r == Done(payloads) && later.incoming == rest
  {
    SwiftWritesAll(from, payloads, fromDeadline, j);
    FromNothing(FrameStream(payloads));
    Rust.SingleCalls(toDeadline);
    Rust.SingleCallsMove(toDeadline, k);
    AllFramesReadBack(Rust.Reads(toDeadline), Rust.Truncated, Rust.OVERSIZED, to, payloads, rest,
                      Rust.RustFlow(toDeadline, k));
  }

  lemma FromNothing(s: bytes)
    ensures [] + s == s
  {
  }

  /** On any script at all, what is read back is a true account of what was written: the same list, or an error. */
  lemma NeverAnythingElse(to: Wire, payloads: seq<bytes>, rest: bytes, deadline: nat)
    requires Sized(payloads) && to.incoming == FrameStream(payloads) + rest
    ensures var (later, r) := SwiftReads(to, |payloads|, deadline); r.Done? ==>
              r.value == payloads
              && later.incoming == rest
    ensures var (later, r) := RustReads(to, |payloads|, deadline); r.Done? ==>
              r.value == payloads
              && later.incoming == rest
  {
    Swift.SingleCalls(deadline);
    ReadsReturnWrites(Swift.Reads(deadline), IoError, Swift.OVERSIZED, to, payloads, rest);
    Rust.SingleCalls(deadline);
    ReadsReturnWrites(Rust.Reads(deadline), Rust.Truncated, Rust.OVERSIZED, to, payloads, rest);
  }
}
