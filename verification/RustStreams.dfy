/** crates/helper/src/transport.rs and the frame functions of crates/helper/src/main.rs. */
module RustTransport {
  import opened Bytes
  import opened Frames
  import opened Loops
  import opened Sockets

  /** `Io` covers every error kind other than timing out; `Truncated` is its end-of-file case. */
  datatype TransportError = Timeout | Io | Truncated | Json | Oversized(len: nat)

  /**
   Still running only if the script is over; failed by timeout exactly if the clock, read last, had reached the
   deadline.
   */
  predicate Settled<T>(w: Wire, r: Run<T, TransportError>, deadline: nat) {
    && (r.Pending? ==> Over(w))
    && (r.Failure? ==> (r.error.Timeout? <==> w.lastClock >= deadline))
  }

  // ---- What each loop does ----

  /** Polls until the socket is ready; running out of time, a bad descriptor and a failing poll are errors. */
  function WaitRun(w: Wire, deadline: nat): (r: (Wire, Run<(), TransportError>))
    ensures r.0.script == w.script && r.0.at >= w.at
    decreases |w.script| - w.at
  {
    if Over(w) then (w, Pending)
    else
      var c := ReadClock(w);
      if c.lastClock >= deadline then (c, Failure(Timeout))
      else if Over(c) then (c, Pending)
      else
        match c.script[c.at].poll
        case Ready => (Skip(c), Done(()))
        case InvalidFd => (Skip(c), Failure(Io))
        case PollBroken => (Skip(c), Failure(Io))
        case _ => WaitRun(Skip(c), deadline)
  }

  /** The attempt in progress has become ready; a pending socket error still spoils it. */
  function TakeError(w: Wire): (Wire, Run<(), TransportError>) {
    if Over(w) then (w, Pending)
    else (Skip(w), if w.script[w.at].poll.PollBroken? then Failure(Io) else Done(()))
  }

  /** The retry loop of `connect`. */
  function AttemptRun(w: Wire, deadline: nat): (r: (Wire, Run<(), TransportError>))
    ensures r.0.script == w.script && r.0.at >= w.at
    decreases |w.script| - w.at
  {
    if Over(w) then (w, Pending)
    else
      var c := ReadClock(w);
      if c.lastClock >= deadline then (c, Failure(Timeout))
      else if Over(c) then (c, Pending)
      else
        match c.script[c.at].connect
        case Connected => (Skip(c), Done(()))
        case AlreadyConnected => (Skip(c), Done(()))
        case ConnectRefused => (Skip(c), Failure(Io))
        case InProgress =>
          var (ready, waited) := WaitRun(Skip(c), deadline);
          if waited.Done? then TakeError(ready) else (ready, waited)
        case _ => AttemptRun(Skip(c), deadline)
  }

  /** Connects before the deadline or not at all. */
  function ConnectRun(w: Wire, deadline: nat): (Wire, Run<(), TransportError>)
  {
    if Over(w) then (w, Pending)
    else
      var c := ReadClock(w);
      if c.lastClock >= deadline then (c, Failure(Timeout))
      else
        var (tried, attempt) := AttemptRun(c, deadline);
        if !attempt.Done? then (tried, attempt)
        else if Over(tried) then (tried, Pending)
        else
          var last := ReadClock(tried);
          (last, if last.lastClock >= deadline then Failure(Timeout) else Done(()))
  }

  /** One read: a chunk of the stream, or nothing at end of file. Every attempt is made before the deadline. */
  function ReadRun(w: Wire, max: nat, deadline: nat): (r: (Wire, Run<bytes, TransportError>))
    requires max > 0
    ensures r.1.Done? ==> |r.1.value| <= max
    decreases |w.script| - w.at
  {
    if Over(w) then (w, Pending)
    else
      var c := ReadClock(w);
      if c.lastClock >= deadline then (c, Failure(Timeout))
      else
        var (next, moved) := Receive(c, max);
        match moved
        case NoTick => (next, Pending)
        case Again => ReadRun(next, max, deadline)
        case Retry =>
          var (ready, waited) := WaitRun(next, deadline);
          if waited.Done? then ReadRun(ready, max, deadline)
          else (ready, if waited.Pending? then Pending else Failure(waited.error))
        case Got(chunk) => (next, Done(chunk))
        case Gone => (next, Done([]))
        case Failed => (next, Failure(Io))
  }

  /** One write: how many bytes went out, possibly none. */
  function WriteRun(w: Wire, data: bytes, deadline: nat): (r: (Wire, Run<nat, TransportError>))
    requires data != []
    ensures r.1.Done? ==> r.1.value <= |data|
    decreases |w.script| - w.at
  {
    if Over(w) then (w, Pending)
    else
      var c := ReadClock(w);
      if c.lastClock >= deadline then (c, Failure(Timeout))
      else
        var (next, moved) := Transmit(c, data);
        match moved
        case NoTick => (next, Pending)
        case Again => WriteRun(next, data, deadline)
        case Retry =>
          var (ready, waited) := WaitRun(next, deadline);
          if waited.Done? then WriteRun(ready, data, deadline)
          else (ready, if waited.Pending? then Pending else Failure(waited.error))
        case Got(chunk) => (next, Done(|chunk|))
        case Gone => (next, Done(0))
        case Failed => (next, Failure(Io))
  }

  function Reads(deadline: nat): ReadCall<TransportError> {
    (w: Wire, max: nat) => if max == 0 then (w, Done([])) else ReadRun(w, max, deadline)
  }

  function Writes(deadline: nat): WriteCall<TransportError> {
    (w: Wire, data: bytes) => if data == [] then (w, Done(0)) else WriteRun(w, data, deadline)
  }

  const OVERSIZED: nat -> TransportError := (len: nat) => Oversized(len)

  // ---- What a single call keeps to ----

  /** Nothing is read or written while waiting. */
  predicate Idle(w: Wire, later: Wire) { Took(w, later, []) && Gave(w, later, []) }

  lemma {:induction false} WaitSettles(w: Wire, deadline: nat)
    ensures var (later, r) := WaitRun(w, deadline);
            && Idle(w, later) && Settled(later, r, deadline) && (r.Done? ==> later.lastClock < deadline)
            && (r.Failure? ==> r.error.Timeout? || r.error.Io?)
    decreases |w.script| - w.at
  {
    if !Over(w) && !Over(ReadClock(w)) { WaitSettles(Skip(ReadClock(w)), deadline); }
  }

  lemma {:induction false} AttemptSettles(w: Wire, deadline: nat)
    ensures var (later, r) := AttemptRun(w, deadline);
            Idle(w, later) && Settled(later, r, deadline) && (r.Failure? ==> r.error.Timeout? || r.error.Io?)
    decreases |w.script| - w.at
  {
    if !Over(w) && !Over(ReadClock(w)) {
      var c := ReadClock(w);
      if c.script[c.at].connect.InProgress? { WaitSettles(Skip(c), deadline); }
          else { AttemptSettles(Skip(c), deadline); }
    }
  }

  /** Connected in time, or not; a failure is a timeout exactly if the clock had run out. */
  lemma ConnectSettles(w: Wire, deadline: nat)
    ensures var (later, r) := ConnectRun(w, deadline);
            && Idle(w, later) && Settled(later, r, deadline) && (r.Done? ==> later.lastClock < deadline)
            && (r.Failure? ==> r.error.Timeout? || r.error.Io?)
  {
    if !Over(w) { AttemptSettles(ReadClock(w), deadline); }
  }

  /** A single read takes what it returns, before the deadline. */
  lemma {:induction false} ReadSettles(w: Wire, max: nat, deadline: nat)
    requires max > 0
    ensures var (later, r) := ReadRun(w, max, deadline);
            && ReadOk(w, max, (later, r)) && Settled(later, r, deadline) && (r.Done? ==> later.lastClock < deadline)
            && (r.Failure? ==> r.error.Timeout? || r.error.Io?)
    decreases |w.script| - w.at
  {
    if !Over(w) {
      var (next, moved) := Receive(ReadClock(w), max);
      if moved.Again? {
        ReadSettles(next, max, deadline);
      } else if moved.Retry? {
        WaitSettles(next, deadline);
        ReadSettles(WaitRun(next, deadline).0, max, deadline);
      }
    }
  }

  /** A single write sends as much as it returns, before the deadline. */
  lemma {:induction false} WriteSettles(w: Wire, data: bytes, deadline: nat)
    requires data != []
    ensures var (later, r) := WriteRun(w, data, deadline);
            && WriteOk(w, data, (later, r)) && Settled(later, r, deadline) && (r.Done? ==> later.lastClock < deadline)
            && (r.Failure? ==> r.error.Timeout? || r.error.Io?)
    decreases |w.script| - w.at
  {
    if !Over(w) {
      var (next, moved) := Transmit(ReadClock(w), data);
      if moved.Again? {
        WriteSettles(next, data, deadline);
      } else if moved.Retry? {
        WaitSettles(next, deadline);
        WriteSettles(WaitRun(next, deadline).0, data, deadline);
      }
    }
  }

  lemma SingleCalls(deadline: nat)
    ensures ReadsSome(Reads(deadline)) && WritesSome(Writes(deadline))
  {
    forall w: Wire, max: nat | max > 0 ensures ReadOk(w, max, Reads(deadline)(w, max)) {
      ReadSettles(w, max, deadline);
    }
    forall w: Wire, data: bytes | data != [] ensures WriteOk(w, data, Writes(deadline)(w, data)) {
      WriteSettles(w, data, deadline);
    }
  }

  /** `read_exact`: fails on end of file. */
  function ReadAllOf(w: Wire, count: nat, deadline: nat): (Wire, Run<bytes, TransportError>) {
    SingleCalls(deadline);
    ReadExactRun(Reads(deadline), Truncated, w, count)
  }

  /** `write_all`: fails when a write takes nothing. */
  function WriteAllOf(w: Wire, data: bytes, deadline: nat): (Wire, Run<(), TransportError>) {
    SingleCalls(deadline);
    WriteAllRun(Writes(deadline), Io, w, data)
  }

  /** `read_json_frame` up to the decoding. */
  function FrameIn(w: Wire, deadline: nat): (Wire, Run<bytes, TransportError>) {
    SingleCalls(deadline);
    ReadFrameRun(Reads(deadline), Truncated, OVERSIZED, w)
  }

  /** `write_json_frame` after the encoding: an oversized payload is refused before anything is sent. */
  function FrameOut(w: Wire, payload: bytes, deadline: nat): (Wire, Run<(), TransportError>) {
    if |payload| > MAX_FRAME_LEN then (w, Failure(Oversized(|payload|)))
    else
      var (next, header) := WriteAllOf(w, BigEndian(|payload|, 4), deadline);
      if header.Done? then WriteAllOf(next, payload, deadline) else (next, header)
  }

  /** `read_exact` with `data` in the buffer already. */
  function ReadOn(w: Wire, count: nat, data: bytes, deadline: nat): (Wire, Run<bytes, TransportError>) {
    SingleCalls(deadline);
    ReadOnRun(Reads(deadline), Truncated, w, count, data)
  }

  /** One turn of the reading loop. */
  lemma ReadOnStep(w: Wire, count: nat, data: bytes, deadline: nat, next: Wire, chunk: Run<bytes, TransportError>)
    requires count > 0 && ReadRun(w, count, deadline) == (next, chunk)
    ensures ReadOn(w, count, data, deadline) ==
            if !chunk.Done? then (next, chunk)
            else if chunk.value == [] then (next, Failure(Truncated))
            else ReadOn(next, count - |chunk.value|, data + chunk.value, deadline)
  {
    SingleCalls(deadline);
    ReadOnOnce(Reads(deadline), Truncated, w, count, data, next, chunk);
  }

  lemma NothingToRead(w: Wire, data: bytes, deadline: nat)
    ensures ReadOn(w, 0, data, deadline) == (w, Done(data))
  {
    SingleCalls(deadline);
  }

  lemma ReadOnFromNothing(w: Wire, count: nat, deadline: nat)
    ensures ReadOn(w, count, [], deadline) == ReadAllOf(w, count, deadline)
  {
    SingleCalls(deadline);
    ReadOnJoins(Reads(deadline), Truncated, w, count, []);
    NothingBefore(ReadAllOf(w, count, deadline));
  }

  /** One turn of `write_all`. */
  lemma WriteAllStep(w: Wire, data: bytes, deadline: nat, next: Wire, n: Run<nat, TransportError>)
    requires data != [] && WriteRun(w, data, deadline) == (next, n)
    ensures WriteAllOf(w, data, deadline) ==
            if n.Pending? then (next, Pending)
            else if n.Failure? then (next, Failure(n.error))
            else if n.value == 0 then (next, Failure(Io))
            else WriteAllOf(next, data[n.value..], deadline)
  {
    SingleCalls(deadline);
    assert Writes(deadline)(w, data) == (next, n);
  }

  lemma NothingToWrite(w: Wire, deadline: nat)
    ensures WriteAllOf(w, [], deadline) == (w, Done(()))
  {
    SingleCalls(deadline);
  }

  // ---- What the loops keep to ----

  /** The deadline governs a whole loop as it governs each call. */
  lemma {:induction false} ReadsSettle(w: Wire, count: nat, deadline: nat)
    ensures var (later, r) := ReadAllOf(w, count, deadline);
            && Settled(later, r, deadline) && (r.Done? && count > 0 ==> later.lastClock < deadline)
            && (r.Failure? ==> r.error.Timeout? || r.error.Io? || r.error.Truncated?)
    decreases count
  {
    SingleCalls(deadline);
    if count > 0 {
      var (next, chunk) := Reads(deadline)(w, count);
      assert (next, chunk) == ReadRun(w, count, deadline);
      ReadSettles(w, count, deadline);
      if chunk.Done? && chunk.value != [] { ReadsSettle(next, count - |chunk.value|, deadline); }
    }
  }

  lemma {:induction false} WritesSettle(w: Wire, data: bytes, deadline: nat)
    ensures var (later, r) := WriteAllOf(w, data, deadline);
            && Settled(later, r, deadline) && (r.Done? && data != [] ==> later.lastClock < deadline)
            && (r.Failure? ==> r.error.Timeout? || r.error.Io?)
    decreases |data|
  {
    SingleCalls(deadline);
    if data != [] {
      var (next, n) := Writes(deadline)(w, data);
      assert (next, n) == WriteRun(w, data, deadline);
      WriteSettles(w, data, deadline);
      if n.Done? && n.value > 0 { WritesSettle(next, data[n.value..], deadline); }
    }
  }

  /**
   One whole frame in time, or nothing; only the length of an oversized one; still running only if the script is over.
   */
  lemma FrameInTakes(w: Wire, deadline: nat)
    ensures var (later, r) := FrameIn(w, deadline);
            && (r.Done? ==> |r.value| <= MAX_FRAME_LEN && Took(w, later, Frame(r.value)) && later.lastClock < deadline)
            && (r.Failure? && r.error.Oversized? ==>
                  && |w.incoming| >= 4 && Took(w, later, w.incoming[..4])
                  && r.error.len == FromBigEndian(w.incoming[..4]) > MAX_FRAME_LEN)
            && (!(r.Failure? && r.error.Oversized?) ==> Settled(later, r, deadline))
            && (r.Failure? ==> !r.error.Json?)
  {
    SingleCalls(deadline);
    ReadFrameTakes(Reads(deadline), Truncated, OVERSIZED, w);
    ReadExactTakes(Reads(deadline), Truncated, w, 4);
    ReadsSettle(w, 4, deadline);
    var (next, header) := ReadAllOf(w, 4, deadline);
    if header.Done? {
      assert w.incoming[..4] == header.value;
      ReadsSettle(next, FromBigEndian(header.value), deadline);
    }
  }

  /** One whole frame goes out in time, or a proper prefix of it; nothing of an oversized one. */
  lemma FrameOutGives(w: Wire, payload: bytes, deadline: nat)
    ensures var (later, r) := FrameOut(w, payload, deadline);
            && (|payload| > MAX_FRAME_LEN <==> r == Failure(Oversized(|payload|)))
            && (|payload| > MAX_FRAME_LEN ==> later == w)
            && (|payload| <= MAX_FRAME_LEN ==>
                  && Settled(later, r, deadline)
                  && if r.Done? then Gave(w, later, Frame(payload)) && later.lastClock < deadline
                      else GaveLess(w, later, Frame(payload)))
            && (r.Failure? ==> r.error.Timeout? || r.error.Io? || r.error.Oversized?)
  {
    if |payload| <= MAX_FRAME_LEN {
      SingleCalls(deadline);
      var front := BigEndian(|payload|, 4);
      WriteAllGives(Writes(deadline), Io, w, front);
      WritesSettle(w, front, deadline);
      var (next, header) := WriteAllOf(w, front, deadline);
      if header.Done? {
        WriteAllGives(Writes(deadline), Io, next, payload);
        WritesSettle(next, payload, deadline);
        var (later, r) := WriteAllOf(next, payload, deadline);
        if r.Done? { GaveBoth(w, next, later, front, payload); } else { GaveThenLess(w, next, later, front, payload); }
      } else {
        LessOfFront(w, next, front, payload);
      }
    }
  }

  lemma LessOfFront(w: Wire, later: Wire, front: bytes, back: bytes)
    requires GaveLess(w, later, front)
    ensures GaveLess(w, later, front + back)
  {
    var n :| 0 <= n < |front| && Gave(w, later, front[..n]);
    assert (front + back)[..n] == front[..n];
  }

  // ---- Progress ----

  /** Two ticks a chunk; two more may be lost while the last tick that makes wait is waited for. */
  function RustFlow(deadline: nat, k: nat): Flow { Flow(deadline, k, true, 2, 2) }

  /** Waiting begins before the flow does, and ends at most two ticks into it. */
  lemma {:induction false} WaitSucceeds(w: Wire, deadline: nat, k: nat)
    requires Flows(w, deadline, k, true) && w.at <= k && |w.script| - k >= 2
    ensures WaitRun(w, deadline).1.Done? && WaitRun(w, deadline).0.at <= k + 2
    decreases |w.script| - w.at
  {
    assert Calm(w.script[w.at], deadline, true) && Calm(w.script[w.at + 1], deadline, true);
    var next := Skip(ReadClock(w));
    if !w.script[w.at + 1].poll.Ready? {
      assert w.at + 1 < k;
      WaitSucceeds(next, deadline, k);
    }
  }

  lemma {:induction false} ReadSucceeds(w: Wire, max: nat, deadline: nat, k: nat)
    requires max > 0 && w.incoming != [] && InFlow(w, RustFlow(deadline, k)) && Left(w, RustFlow(deadline, k)) >= 2
    ensures ReadMoves(w, ReadRun(w, max, deadline), RustFlow(deadline, k))
    decreases |w.script| - w.at
  {
    var c := ReadClock(w);
    assert Calm(w.script[w.at], deadline, true) && Calm(w.script[c.at], deadline, true);
    var (next, moved) := Receive(c, max);
    if moved.Again? {
      ReadSucceeds(next, max, deadline, k);
    } else if moved.Retry? {
      WaitSucceeds(next, deadline, k);
      WaitSettles(next, deadline);
      ReadSucceeds(WaitRun(next, deadline).0, max, deadline, k);
    }
  }

  lemma {:induction false} WriteSucceeds(w: Wire, data: bytes, deadline: nat, k: nat)
    requires data != [] && InFlow(w, RustFlow(deadline, k)) && Left(w, RustFlow(deadline, k)) >= 2
    ensures WriteMoves(w, WriteRun(w, data, deadline), RustFlow(deadline, k))
    decreases |w.script| - w.at
  {
    var c := ReadClock(w);
    assert Calm(w.script[w.at], deadline, true) && Calm(w.script[c.at], deadline, true);
    var (next, moved) := Transmit(c, data);
    if moved.Again? {
      WriteSucceeds(next, data, deadline, k);
    } else if moved.Retry? {
      WaitSucceeds(next, deadline, k);
      WriteSucceeds(WaitRun(next, deadline).0, data, deadline, k);
    }
  }

  lemma SingleCallsMove(deadline: nat, k: nat)
    ensures ReadsOn(Reads(deadline), RustFlow(deadline, k)) && WritesOn(Writes(deadline), RustFlow(deadline, k))
  {
    var f := RustFlow(deadline, k);
    forall w: Wire, max: nat | max > 0 && w.incoming != [] && InFlow(w, f) && Left(w, f) >= f.cost
      ensures ReadMoves(w, Reads(deadline)(w, max), f)
    {
      ReadSucceeds(w, max, deadline, k);
    }
    forall w: Wire, data: bytes | data != [] && InFlow(w, f) && Left(w, f) >= f.cost
      ensures WriteMoves(w, Writes(deadline)(w, data), f)
    {
      WriteSucceeds(w, data, deadline, k);
    }
  }

  /** Connecting takes four ticks of the flow at most. */
  lemma {:induction false} AttemptSucceeds(w: Wire, deadline: nat, k: nat)
    requires InFlow(w, RustFlow(deadline, k)) && |w.script| - Max(w.at, k) >= 3
    ensures AttemptRun(w, deadline).1.Done?
    ensures AttemptRun(w, deadline).0.at <= Max(w.at, k) + 3 && (w.at >= k ==> AttemptRun(w, deadline).0.at == w.at + 2)
    decreases |w.script| - w.at
  {
    var c := ReadClock(w);
    assert Calm(w.script[w.at], deadline, true) && Calm(w.script[c.at], deadline, true);
    match c.script[c.at].connect
    case Connected =>
    case AlreadyConnected =>
    case ConnectRefused =>
    case InProgress =>
      WaitSucceeds(Skip(c), deadline, k);
      var ready := WaitRun(Skip(c), deadline).0;
      assert Calm(w.script[ready.at], deadline, true);
    case _ => AttemptSucceeds(Skip(c), deadline, k);
  }

  lemma ConnectSucceeds(w: Wire, deadline: nat, k: nat)
    requires InFlow(w, RustFlow(deadline, k)) && Left(w, RustFlow(deadline, k)) >= 4
    ensures var (later, r) := ConnectRun(w, deadline);
            && r.Done? && InFlow(later, RustFlow(deadline, k))
            && Left(later, RustFlow(deadline, k)) >= Left(w, RustFlow(deadline, k)) - 4
  {
    assert Calm(w.script[w.at], deadline, true);
    AttemptSucceeds(ReadClock(w), deadline, k);
    var tried := AttemptRun(ReadClock(w), deadline).0;
    assert Calm(w.script[tried.at], deadline, true);
  }

  lemma FrameOutSucceeds(w: Wire, payload: bytes, deadline: nat, k: nat)
    requires |payload| <= MAX_FRAME_LEN && InFlow(w, RustFlow(deadline, k))
    requires Left(w, RustFlow(deadline, k)) >= 2 * |Frame(payload)|
    ensures var (later, r) := FrameOut(w, payload, deadline);
            && r.Done? && InFlow(later, RustFlow(deadline, k))
            && Left(later, RustFlow(deadline, k)) >= Left(w, RustFlow(deadline, k)) - 2 * |Frame(payload)|
  {
    var f := RustFlow(deadline, k);
    SingleCalls(deadline);
    SingleCallsMove(deadline, k);
    WriteAllSucceeds(Writes(deadline), Io, w, BigEndian(|payload|, 4), f);
    WriteAllSucceeds(Writes(deadline), Io, WriteAllOf(w, BigEndian(|payload|, 4), deadline).0, payload, f);
  }

  lemma FrameInSucceeds(w: Wire, payload: bytes, rest: bytes, deadline: nat, k: nat)
    requires |payload| <= MAX_FRAME_LEN && w.incoming == Frame(payload) + rest
    requires InFlow(w, RustFlow(deadline, k)) && Left(w, RustFlow(deadline, k)) >= 2 * |Frame(payload)|
    ensures var (later, r) := FrameIn(w, deadline);
            && r == Done(payload) && Took(w, later, Frame(payload)) && InFlow(later, RustFlow(deadline, k))
            && Left(later, RustFlow(deadline, k)) >= Left(w, RustFlow(deadline, k)) - 2 * |Frame(payload)|
  {
    SingleCalls(deadline);
    SingleCallsMove(deadline, k);
    ReadFrameSucceeds(Reads(deadline), Truncated, OVERSIZED, w, payload, rest, RustFlow(deadline, k));
  }

  // ---- The loops themselves ----

  class DeadlineStream {
    const socket: Socket
    const deadline: nat

    constructor (socket: Socket, deadline: nat)
      ensures this.socket == socket && this.deadline == deadline
    {
      this.socket := socket;
      this.deadline := deadline;
    }

    method Wait() returns (r: Run<(), TransportError>)
      modifies socket`at, socket`lastClock
      ensures (socket.State(), r) == WaitRun(old(socket.State()), deadline)
    {
      while true
        invariant WaitRun(socket.State(), deadline) == WaitRun(old(socket.State()), deadline)
        decreases |socket.script| - socket.at
      {
        var now := socket.Clock();
        if now.None? { return Pending; }
        if now.value >= deadline { return Failure(Timeout); }
        var result := socket.PollOnce();
        match result
        case None => return Pending;
        case Some(Ready) => return Done(());
        case Some(InvalidFd) => return Failure(Io);
        case Some(PollBroken) => return Failure(Io);
        case Some(TimedOut) =>
        case Some(PollInterrupted) =>
      }
    }

    method Connect() returns (r: Run<(), TransportError>)
      modifies socket`at, socket`lastClock
      ensures (socket.State(), r) == ConnectRun(old(socket.State()), deadline)
    {
      var first := socket.Clock();
      if first.None? { return Pending; }
      if first.value >= deadline { return Failure(Timeout); }
      ghost var started := socket.State();
      while true
        invariant AttemptRun(socket.State(), deadline) == AttemptRun(started, deadline)
        decreases |socket.script| - socket.at
      {
        var now := socket.Clock();
        if now.None? { return Pending; }
        if now.value >= deadline { return Failure(Timeout); }
        var result := socket.ConnectOnce();
        match result
        case None => return Pending;
        case Some(Connected) => break;
        case Some(AlreadyConnected) => break;
        case Some(ConnectInterrupted) =>
        case Some(BacklogFull) =>
        case Some(ConnectRefused) => return Failure(Io);
        case Some(InProgress) =>
          var waited := Wait();
          if !waited.Done? { return waited; }
          var pending := socket.PollOnce();
          if pending.None? { return Pending; }
          if pending == Some(PollBroken) { return Failure(Io); }
          break;
      }
      var last := socket.Clock();
      if last.None? { return Pending; }
      if last.value >= deadline { return Failure(Timeout); }
      return Done(());
    }

    method Read(max: nat) returns (r: Run<bytes, TransportError>)
      requires max > 0
      modifies socket`at, socket`lastClock, socket`incoming
      ensures (socket.State(), r) == ReadRun(old(socket.State()), max, deadline)
    {
      while true
        invariant ReadRun(socket.State(), max, deadline) == ReadRun(old(socket.State()), max, deadline)
        decreases |socket.script| - socket.at
      {
        var now := socket.Clock();
        if now.None? { return Pending; }
        if now.value >= deadline { return Failure(Timeout); }
        var result := socket.Recv(max);
        match result
        case NoTick => return Pending;
        case Again =>
        case Retry =>
          var waited := Wait();
          if waited.Pending? { return Pending; }
          if waited.Failure? { return Failure(waited.error); }
        case Got(chunk) => return Done(chunk);
        case Gone => return Done([]);
        case Failed => return Failure(Io);
      }
    }

    method Write(data: bytes) returns (r: Run<nat, TransportError>)
      requires data != []
      modifies socket`at, socket`lastClock, socket`outgoing
      ensures (socket.State(), r) == WriteRun(old(socket.State()), data, deadline)
    {
      while true
        invariant WriteRun(socket.State(), data, deadline) == WriteRun(old(socket.State()), data, deadline)
        decreases |socket.script| - socket.at
      {
        var now := socket.Clock();
        if now.None? { return Pending; }
        if now.value >= deadline { return Failure(Timeout); }
        var result := socket.Send(data);
        match result
        case NoTick => return Pending;
        case Again =>
        case Retry =>
          var waited := Wait();
          if waited.Pending? { return Pending; }
          if waited.Failure? { return Failure(waited.error); }
        case Got(chunk) => return Done(|chunk|);
        case Gone => return Done(0);
        case Failed => return Failure(Io);
      }
    }

    /** The loop of `read_exact`. */
    method Fill(count: nat) returns (r: Run<bytes, TransportError>)
      modifies socket`at, socket`lastClock, socket`incoming
      ensures (socket.State(), r) == ReadOn(old(socket.State()), count, [], deadline)
    {
      var data: bytes := [];
      var left: nat := count;
      while left > 0
        invariant ReadOn(old(socket.State()), count, [], deadline) == ReadOn(socket.State(), left, data, deadline)
        decreases left
      {
        ghost var before := socket.State();
        var chunk := Read(left);
        ReadOnStep(before, left, data, deadline, socket.State(), chunk);
        if chunk.Pending? { return Pending; }
        if chunk.Failure? { return Failure(chunk.error); }
        if chunk.value == [] { return Failure(Truncated); }
        data, left := data + chunk.value, left - |chunk.value|;
      }
      NothingToRead(socket.State(), data, deadline);
      return Done(data);
    }

    method ReadExact(count: nat) returns (r: Run<bytes, TransportError>)
      modifies socket`at, socket`lastClock, socket`incoming
      ensures (socket.State(), r) == ReadAllOf(old(socket.State()), count, deadline)
    {
      ReadOnFromNothing(socket.State(), count, deadline);
      r := Fill(count);
    }

    method WriteAll(data: bytes) returns (r: Run<(), TransportError>)
      modifies socket`at, socket`lastClock, socket`outgoing
      ensures (socket.State(), r) == WriteAllOf(old(socket.State()), data, deadline)
    {
      var sent: nat := 0;
      while sent < |data|
        invariant sent <= |data|
        invariant WriteAllOf(old(socket.State()), data, deadline) == WriteAllOf(socket.State(), data[sent..], deadline)
        decreases |data| - sent
      {
        ghost var before := socket.State();
        var n := Write(data[sent..]);
        WriteAllStep(before, data[sent..], deadline, socket.State(), n);
        if n.Pending? { return Pending; }
        if n.Failure? { return Failure(n.error); }
        if n.value == 0 { return Failure(Io); }
        assert data[sent..][n.value..] == data[sent + n.value..];
        sent := sent + n.value;
      }
      assert data[sent..] == [];
      NothingToWrite(socket.State(), deadline);
      return Done(());
    }

    method WriteFrame(payload: bytes) returns (r: Run<(), TransportError>)
      modifies socket`at, socket`lastClock, socket`outgoing
      ensures (socket.State(), r) == FrameOut(old(socket.State()), payload, deadline)
    {
      if |payload| > MAX_FRAME_LEN { return Failure(Oversized(|payload|)); }
      var header := WriteAll(BigEndian(|payload|, 4));
      if !header.Done? { return header; }
      r := WriteAll(payload);
    }

    method ReadFrame() returns (r: Run<bytes, TransportError>)
      modifies socket`at, socket`lastClock, socket`incoming
      ensures (socket.State(), r) == FrameIn(old(socket.State()), deadline)
    {
      SingleCalls(deadline);
      ReadExactTakes(Reads(deadline), Truncated, socket.State(), 4);
      var header := ReadExact(4);
      if !header.Done? { return header; }
      var len := FromBigEndian(header.value);
      if len > MAX_FRAME_LEN { return Failure(Oversized(len)); }
      r := ReadExact(len);
    }
  }
}
