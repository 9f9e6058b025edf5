/**
 Length-prefixed frames over a nonblocking socket, in both implementations.
 The kernel is a finite script: every system call takes the next tick of it. The script decides clocks, chunk
 sizes, interruptions and errors; a loop that still waits when the script is over reports `Pending`.
 What each loop does is stated as a function of the wire, the `...Run` functions.
 */
module Sockets {
  import opened Bytes

  datatype Io = Interrupted | WouldBlock | Moves(upTo: nat) | Broken
  datatype Poll = Ready | TimedOut | PollInterrupted | InvalidFd | PollBroken
  datatype Connect = Connected | AlreadyConnected | ConnectInterrupted | InProgress | BacklogFull | ConnectRefused
  datatype Tick = Tick(now: nat, io: Io, poll: Poll, connect: Connect)

  /** How a loop ended; `Pending` if it has not. */
  datatype Run<+T, +E> = Done(value: T) | Failure(error: E) | Pending

  /** The result of one receive or send. `Gone` is end of file on receiving and a zero-length send on sending. */
  datatype Moved = NoTick | Again | Retry | Got(chunk: bytes) | Gone | Failed

  /**
   `incoming` is what the peer's side still holds for us, `outgoing` what we handed over, `lastClock` the last
   reading.
   */
  datatype Wire = Wire(script: seq<Tick>, at: nat, incoming: bytes, outgoing: bytes, lastClock: nat)

  predicate Over(w: Wire) { w.at >= |w.script| }

  function Skip(w: Wire): Wire { w.(at := w.at + 1) }

  function ReadClock(w: Wire): Wire
    requires !Over(w)
  {
    w.(at := w.at + 1, lastClock := w.script[w.at].now)
  }

  /** Receives at most `max` bytes; an end of file may come early, which is how a frame gets truncated. */
  function Receive(w: Wire, max: nat): (r: (Wire, Moved))
    requires max > 0
    ensures r.1.NoTick? <==> Over(w)
    ensures !Over(w) ==> r.0.at == w.at + 1
    ensures r.1.Got? ==> 0 < |r.1.chunk| <= max && Took(w, r.0, r.1.chunk)
    ensures !r.1.Got? ==> Took(w, r.0, [])
  {
    if Over(w) then (w, NoTick)
    else
      match w.script[w.at].io
      case Interrupted => (Skip(w), Again)
      case WouldBlock => (Skip(w), Retry)
      case Broken => (Skip(w), Failed)
      case Moves(upTo) =>
        var n := Min(Min(upTo, max), |w.incoming|);
        if upTo == 0 then (Skip(w), Gone)
        else if n == 0 then (Skip(w), Retry)
        else (Skip(w).(incoming := w.incoming[n..]), Got(w.incoming[..n]))
  }

  /** Sends some nonempty prefix of `data`. */
  function Transmit(w: Wire, data: bytes): (r: (Wire, Moved))
    requires data != []
    ensures r.1.NoTick? <==> Over(w)
    ensures !Over(w) ==> r.0.at == w.at + 1
    ensures r.1.Got? ==> r.1.chunk != [] && r.1.chunk <= data && Gave(w, r.0, r.1.chunk)
    ensures !r.1.Got? ==> Gave(w, r.0, [])
  {
    if Over(w) then (w, NoTick)
    else
      match w.script[w.at].io
      case Interrupted => (Skip(w), Again)
      case WouldBlock => (Skip(w), Retry)
      case Broken => (Skip(w), Failed)
      case Moves(upTo) =>
        var chunk := data[..Min(upTo, |data|)];
        if upTo == 0 then (Skip(w), Gone) else (Skip(w).(outgoing := w.outgoing + chunk), Got(chunk))
  }

  /** From `w` to `later` exactly `taken` was read and nothing written. */
  predicate Took(w: Wire, later: Wire, taken: bytes) {
    && later.script == w.script && later.at >= w.at
    && later.outgoing == w.outgoing && w.incoming == taken + later.incoming
  }

  /** From `w` to `later` exactly `given` was written and nothing read. */
  predicate Gave(w: Wire, later: Wire, given: bytes) {
    && later.script == w.script && later.at >= w.at
    && later.incoming == w.incoming && later.outgoing == w.outgoing + given
  }

  /** Less than `count` bytes were read. */
  predicate TookLess(w: Wire, later: Wire, count: nat) {
    exists n :: 0 <= n < count && n <= |w.incoming| && Took(w, later, w.incoming[..n])
  }

  /** A proper prefix of `data` was written. */
  predicate GaveLess(w: Wire, later: Wire, data: bytes) {
    exists n :: 0 <= n < |data| && Gave(w, later, data[..n])
  }

  lemma TookBoth(a: Wire, b: Wire, c: Wire, first: bytes, second: bytes)
    requires Took(a, b, first) && Took(b, c, second)
    ensures Took(a, c, first + second)
  {
    Assoc(first, second, c.incoming);
  }

  lemma GaveBoth(a: Wire, b: Wire, c: Wire, first: bytes, second: bytes)
    requires Gave(a, b, first) && Gave(b, c, second)
    ensures Gave(a, c, first + second)
  {
    Assoc(a.outgoing, first, second);
  }

  lemma TookThenLess(a: Wire, b: Wire, c: Wire, first: bytes, count: nat)
    requires Took(a, b, first) && TookLess(b, c, count)
    ensures TookLess(a, c, |first| + count)
  {
    var n :| 0 <= n < count && n <= |b.incoming| && Took(b, c, b.incoming[..n]);
    TookBoth(a, b, c, first, b.incoming[..n]);
    assert a.incoming[..|first| + n] == first + b.incoming[..n];
  }

  lemma GaveThenLess(a: Wire, b: Wire, c: Wire, first: bytes, rest: bytes)
    requires Gave(a, b, first) && GaveLess(b, c, rest)
    ensures GaveLess(a, c, first + rest)
  {
    var n :| 0 <= n < |rest| && Gave(b, c, rest[..n]);
    GaveBoth(a, b, c, first, rest[..n]);
    assert (first + rest)[..|first| + n] == first + rest[..n];
  }

  /** A connected socket. */
  class Socket {
    const script: seq<Tick>
    var at: nat
    var incoming: bytes
    var outgoing: bytes
    ghost var lastClock: nat

    ghost function State(): Wire
      reads this
    {
      Wire(script, at, incoming, outgoing, lastClock)
    }

    constructor (script: seq<Tick>, incoming: bytes)
      ensures at == 0 && this.script == script && this.incoming == incoming && outgoing == []
    {
      this.script := script;
      this.incoming := incoming;
      at, outgoing := 0, [];
    }

    method Clock() returns (now: Option<nat>)
      modifies this`at, this`lastClock
      ensures now.None? <==> Over(old(State()))
      ensures now.None? ==> State() == old(State())
      ensures now.Some? ==> State() == ReadClock(old(State())) && now.value == State().lastClock
    {
      if at >= |script| { return None; }
      now := Some(script[at].now);
      lastClock := script[at].now;
      at := at + 1;
    }

    method PollOnce() returns (r: Option<Poll>)
      modifies this`at
      ensures r.None? <==> Over(old(State()))
      ensures r.None? ==> State() == old(State())
      ensures r.Some? ==> State() == Skip(old(State())) && r.value == script[old(at)].poll
    {
      if at >= |script| { return None; }
      r := Some(script[at].poll);
      at := at + 1;
    }

    method ConnectOnce() returns (r: Option<Connect>)
      modifies this`at
      ensures r.None? <==> Over(old(State()))
      ensures r.None? ==> State() == old(State())
      ensures r.Some? ==> State() == Skip(old(State())) && r.value == script[old(at)].connect
    {
      if at >= |script| { return None; }
      r := Some(script[at].connect);
      at := at + 1;
    }

    method Recv(max: nat) returns (r: Moved)
      requires max > 0
      modifies this`at, this`incoming
      ensures (State(), r) == Receive(old(State()), max)
    {
      if at >= |script| { return NoTick; }
      var io := script[at].io;
      at := at + 1;
      match io
      case Interrupted => return Again;
      case WouldBlock => return Retry;
      case Broken => return Failed;
      case Moves(upTo) =>
        var n := Min(Min(upTo, max), |incoming|);
        if upTo == 0 { return Gone; }
        if n == 0 { return Retry; }
        r := Got(incoming[..n]);
        incoming := incoming[n..];
    }

    method Send(data: bytes) returns (r: Moved)
      requires data != []
      modifies this`at, this`outgoing
      ensures (State(), r) == Transmit(old(State()), data)
    {
      if at >= |script| { return NoTick; }
      var io := script[at].io;
      at := at + 1;
      match io
      case Interrupted => return Again;
      case WouldBlock => return Retry;
      case Broken => return Failed;
      case Moves(upTo) =>
        if upTo == 0 { return Gone; }
        r := Got(data[..Min(upTo, |data|)]);
        outgoing := outgoing + r.chunk;
    }
  }

  // ---- Scripts that let things through ----

  /** In time, and nothing fails; it may interrupt and make wait. `patient`: an expired poll is just another wait. */
  predicate Calm(t: Tick, deadline: nat, patient: bool) {
    && t.now < deadline && !t.io.Broken? && t.io != Moves(0) && !t.connect.ConnectRefused?
    && (t.poll.Ready? || t.poll.PollInterrupted? || (patient && t.poll.TimedOut?))
  }

  /** In time, ready, connected, and moving at least one byte. */
  predicate Moving(t: Tick, deadline: nat) {
    && t.now < deadline && t.io.Moves? && t.io.upTo > 0 && t.poll.Ready?
    && (t.connect.Connected? || t.connect.AlreadyConnected?)
  }

  /** Nothing fails from here on, and from tick `k` on everything moves. */
  predicate Flows(w: Wire, deadline: nat, k: nat, patient: bool) {
    && w.at <= |w.script| && k <= |w.script|
    && (forall i :: w.at <= i < |w.script| ==> Calm(w.script[i], deadline, patient))
    && (forall i :: w.at <= i < |w.script| && i >= k ==> Moving(w.script[i], deadline))
  }

  /** How many moving ticks are still to come. */
  function MovingLeft(w: Wire, k: nat): int { |w.script| - Max(w.at, k) }
}

/** The frame format and its uniqueness. */
module Frames {
  import opened Bytes

  const MAX_FRAME_LEN: nat := 1024 * 1024

  function Frame(payload: bytes): (r: bytes)
    requires |payload| <= MAX_FRAME_LEN
    ensures |r| == 4 + |payload|
  {
    BigEndian(|payload|, 4) + payload
  }

  lemma HeaderRoundTrip(payload: bytes)
    requires |payload| <= MAX_FRAME_LEN
    ensures FromBigEndian(BigEndian(|payload|, 4)) == |payload|
  {
    Pow256Widths();
    BigEndianRoundTrip(|payload|, 4);
  }

  /** A frame at the front of a stream is there in one way only. */
  lemma FramesAreUnique(a: bytes, b: bytes, restA: bytes, restB: bytes)
    requires |a| <= MAX_FRAME_LEN && |b| <= MAX_FRAME_LEN
    requires Frame(a) + restA == Frame(b) + restB
    ensures a == b && restA == restB
  {
    HeaderRoundTrip(a);
    HeaderRoundTrip(b);
    var s := Frame(a) + restA;
    assert s[..4] == BigEndian(|a|, 4) && s[..4] == BigEndian(|b|, 4);
    assert s[4..4 + |a|] == a && s[4..4 + |b|] == b;
    assert s[4 + |a|..] == restA && s[4 + |b|..] == restB;
  }

  /** The length a stream announces. */
  lemma AnnouncedLength(payload: bytes, rest: bytes)
    requires |payload| <= MAX_FRAME_LEN
    ensures var s := Frame(payload) + rest; |s| >= 4 && FromBigEndian(s[..4]) == |payload| && s[4..] == payload + rest
  {
    HeaderRoundTrip(payload);
    var s := Frame(payload) + rest;
    assert s[..4] == BigEndian(|payload|, 4);
    assert s == BigEndian(|payload|, 4) + (payload + rest);
  }

  /** A body after a header that announces its length is a frame. */
  lemma SameFrame(header: bytes, body: bytes)
    requires |header| == 4 && FromBigEndian(header) == |body| <= MAX_FRAME_LEN
    ensures header + body == Frame(body)
  {
    FromBigEndianRoundTrip(header);
  }

  predicate Sized(payloads: seq<bytes>) {
    forall i :: 0 <= i < |payloads| ==> |payloads[i]| <= MAX_FRAME_LEN
  }

  /** What a sequence of writes puts on the stream. */
  function FrameStream(payloads: seq<bytes>): bytes
    requires Sized(payloads)
  {
    if payloads == [] then [] else Frame(payloads[0]) + FrameStream(payloads[1..])
  }
}

/** Reading or writing exactly so much by single calls, whatever a single call is. */
module Loops {
  import opened Bytes
  import opened Frames
  import opened Sockets

  type ReadCall<!E> = (Wire, nat) -> (Wire, Run<bytes, E>)

  type WriteCall<!E> = (Wire, bytes) -> (Wire, Run<nat, E>)

  predicate ReadOk<E>(w: Wire, max: nat, r: (Wire, Run<bytes, E>)) {
    if r.1.Done? then |r.1.value| <= max && Took(w, r.0, r.1.value) else Took(w, r.0, [])
  }

  predicate WriteOk<E>(w: Wire, data: bytes, r: (Wire, Run<nat, E>)) {
    if r.1.Done? then r.1.value <= |data| && Gave(w, r.0, data[..r.1.value]) else Gave(w, r.0, [])
  }

  ghost predicate ReadsSome<E(!new)>(read: ReadCall<E>) {
    forall w: Wire, max: nat :: max > 0 ==> ReadOk(w, max, read(w, max))
  }

  ghost predicate WritesSome<E(!new)>(write: WriteCall<E>) {
    forall w: Wire, data: bytes :: data != [] ==> WriteOk(w, data, write(w, data))
  }

  /** What was read before, and then the rest. */
  function Joined<E>(data: bytes, r: (Wire, Run<bytes, E>)): (Wire, Run<bytes, E>) {
    (r.0, if r.1.Done? then Done(data + r.1.value) else r.1)
  }

  lemma JoinedTwice<E>(first: bytes, second: bytes, r: (Wire, Run<bytes, E>))
    ensures Joined(first, Joined(second, r)) == Joined(first + second, r)
  {
    if r.1.Done? { Assoc(first, second, r.1.value); }
  }

  lemma NothingBefore<E>(r: (Wire, Run<bytes, E>))
    ensures Joined([], r) == r
  {
    if r.1.Done? { assert [] + r.1.value == r.1.value; }
  }

  /** Fills a buffer of `count` bytes; `truncated` is the error at end of file. */
  function ReadExactRun<E(!new)>(read: ReadCall<E>, truncated: E, w: Wire, count: nat): (Wire, Run<bytes, E>)
    requires ReadsSome(read)
    decreases count
  {
    if count == 0 then (w, Done([]))
    else
      var (next, chunk) := read(w, count);
      assert ReadOk(w, count, read(w, count));
      if !chunk.Done? then (next, chunk)
      else if chunk.value == [] then (next, Failure(truncated))
      else Joined(chunk.value, ReadExactRun(read, truncated, next, count - |chunk.value|))
  }

  /** The same as a loop sees it, with `data` in the buffer already. */
  function ReadOnRun<E(!new)>(read: ReadCall<E>, truncated: E, w: Wire, count: nat, data: bytes): (Wire, Run<bytes, E>)
    requires ReadsSome(read)
    decreases count
  {
    if count == 0 then (w, Done(data))
    else
      var (next, chunk) := read(w, count);
      assert ReadOk(w, count, read(w, count));
      if !chunk.Done? then (next, chunk)
      else if chunk.value == [] then (next, Failure(truncated))
      else ReadOnRun(read, truncated, next, count - |chunk.value|, data + chunk.value)
  }

  lemma ReadOnOnce<E(!new)>(read: ReadCall<E>, truncated: E, w: Wire, count: nat, data: bytes, next: Wire,
                            chunk: Run<bytes, E>)
    requires ReadsSome(read) && count > 0 && read(w, count) == (next, chunk)
    ensures chunk.Done? ==> |chunk.value| <= count
    ensures ReadOnRun(read, truncated, w, count, data) ==
            if !chunk.Done? then (next, chunk)
            else if chunk.value == [] then (next, Failure(truncated))
            else ReadOnRun(read, truncated, next, count - |chunk.value|, data + chunk.value)
  {
    assert ReadOk(w, count, read(w, count));
  }

  lemma {:induction false} ReadOnJoins<E(!new)>(read: ReadCall<E>, truncated: E, w: Wire, count: nat, data: bytes)
    requires ReadsSome(read)
    ensures ReadOnRun(read, truncated, w, count, data) == Joined(data, ReadExactRun(read, truncated, w, count))
    decreases count
  {
    if count == 0 {
      assert data + [] == data;
    } else {
      var (next, chunk) := read(w, count);
      assert ReadOk(w, count, read(w, count));
      if chunk.Done? && chunk.value != [] {
        var left: nat := count - |chunk.value|;
        ReadOnJoins(read, truncated, next, left, data + chunk.value);
        JoinedTwice(data, chunk.value, ReadExactRun(read, truncated, next, left));
      }
    }
  }

  /** Sends everything; `stuck` is the error when a write takes nothing. */
  function WriteAllRun<E(!new)>(write: WriteCall<E>, stuck: E, w: Wire, data: bytes): (Wire, Run<(), E>)
    requires WritesSome(write)
    decreases |data|
  {
    if data == [] then (w, Done(()))
    else
      var (next, n) := write(w, data);
      assert WriteOk(w, data, write(w, data));
      match n
      case Pending => (next, Pending)
      case Failure(e) => (next, Failure(e))
      case Done(count) => if count == 0 then (next, Failure(stuck)) else WriteAllRun(write, stuck, next, data[count..])
  }

  /** Exactly the count asked for is taken off the stream, or less and no result. */
  lemma {:induction false} ReadExactTakes<E(!new)>(read: ReadCall<E>, truncated: E, w: Wire, count: nat)
    requires ReadsSome(read)
    ensures var (later, r) := ReadExactRun(read, truncated, w, count);
            if r.Done? then |r.value| == count && Took(w, later, r.value) else TookLess(w, later, count)
    decreases count
  {
    if count > 0 {
      var (next, chunk) := read(w, count);
      assert ReadOk(w, count, read(w, count));
      assert w.incoming[..0] == [];
      if chunk.Done? && chunk.value != [] {
        var left := count - |chunk.value|;
        ReadExactTakes(read, truncated, next, left);
        var (later, r) := ReadExactRun(read, truncated, next, left);
        if r.Done? {
          TookBoth(w, next, later, chunk.value, r.value);
        } else {
          TookThenLess(w, next, later, chunk.value, left);
        }
      }
    }
  }

  /** Exactly the data is put on the stream, or a proper prefix and no result. */
  lemma {:induction false} WriteAllGives<E(!new)>(write: WriteCall<E>, stuck: E, w: Wire, data: bytes)
    requires WritesSome(write)
    ensures var (later, r) := WriteAllRun(write, stuck, w, data);
            if r.Done? then Gave(w, later, data) else GaveLess(w, later, data)
    decreases |data|
  {
    if data != [] {
      var (next, n) := write(w, data);
      assert WriteOk(w, data, write(w, data));
      assert data[..0] == [];
      if n.Done? && n.value > 0 {
        var front, back := data[..n.value], data[n.value..];
        assert data == front + back;
        WriteAllGives(write, stuck, next, back);
        var (later, r) := WriteAllRun(write, stuck, next, back);
        if r.Done? {
          GaveBoth(w, next, later, front, back);
        } else {
          GaveThenLess(w, next, later, front, back);
        }
      }
    }
  }

  /** Takes one frame; a longer announced length is refused before the body is read. */
  function ReadFrameRun<E(!new)>(read: ReadCall<E>, truncated: E, oversized: nat -> E, w: Wire): (Wire, Run<bytes, E>)
    requires ReadsSome(read)
  {
    var (next, header) := ReadExactRun(read, truncated, w, 4);
    if !header.Done? then (next, header)
    else
      var length := FromBigEndian(header.value);
      if length > MAX_FRAME_LEN then (next, Failure(oversized(length))) else ReadExactRun(read, truncated, next, length)
  }

  /** Exactly one frame is taken, or nothing is returned; of an oversized one only the length is taken. */
  lemma ReadFrameTakes<E(!new)>(read: ReadCall<E>, truncated: E, oversized: nat -> E, w: Wire)
    requires ReadsSome(read)
    ensures var (later, r) := ReadFrameRun(read, truncated, oversized, w);
            && (r.Done? ==> |r.value| <= MAX_FRAME_LEN && Took(w, later, Frame(r.value)))
            && (|w.incoming| >= 4 && FromBigEndian(w.incoming[..4]) > MAX_FRAME_LEN ==>
                  !r.Done? && (Took(w, later, w.incoming[..4]) || TookLess(w, later, 4)))
  {
    ReadExactTakes(read, truncated, w, 4);
    var (next, header) := ReadExactRun(read, truncated, w, 4);
    if header.Done? {
      assert w.incoming[..4] == header.value;
      var length := FromBigEndian(header.value);
      if length <= MAX_FRAME_LEN {
        ReadExactTakes(read, truncated, next, length);
        var (later, body) := ReadExactRun(read, truncated, next, length);
        if body.Done? {
          SameFrame(header.value, body.value);
          TookBoth(w, next, later, header.value, body.value);
        }
      }
    }
  }

  // ---- Progress ----

  /**
   Moving ticks that are left, less the `slack` that may be lost between the last tick that makes wait and the
   next attempt.
   */
  function Budget(w: Wire, k: nat, slack: nat): int { MovingLeft(w, k) - if w.at >= k then 0 else slack }

  /** How scripts flow: from tick `k` on, for a deadline, at `cost` ticks a chunk. */
  datatype Flow = Flow(deadline: nat, k: nat, patient: bool, slack: nat, cost: nat)

  predicate InFlow(w: Wire, f: Flow) { Flows(w, f.deadline, f.k, f.patient) }

  function Left(w: Wire, f: Flow): int { Budget(w, f.k, f.slack) }

  /** Within the flow, with enough left, a read with something to read moves at least one byte for at most `cost`. */
  ghost predicate ReadsOn<E(!new)>(read: ReadCall<E>, f: Flow) {
    forall w: Wire, max: nat ::
      max > 0 && w.incoming != [] && InFlow(w, f) && Left(w, f) >= f.cost ==> ReadMoves(w, read(w, max), f)
  }

  predicate ReadMoves<E>(w: Wire, r: (Wire, Run<bytes, E>), f: Flow) {
    r.1.Done? && r.1.value != [] && InFlow(r.0, f) && Left(r.0, f) >= Left(w, f) - f.cost
  }

  ghost predicate WritesOn<E(!new)>(write: WriteCall<E>, f: Flow) {
    forall w: Wire, data: bytes :: data != [] && InFlow(w, f) && Left(w, f) >= f.cost ==>
        WriteMoves(w, write(w, data), f)
  }

  predicate WriteMoves<E>(w: Wire, r: (Wire, Run<nat, E>), f: Flow) {
    r.1.Done? && r.1.value > 0 && InFlow(r.0, f) && Left(r.0, f) >= Left(w, f) - f.cost
  }

  /** However the bytes are cut into chunks, what is there is read. */
  lemma {:induction false} ReadExactSucceeds<E(!new)>(read: ReadCall<E>, truncated: E, w: Wire, count: nat, f: Flow)
    requires ReadsSome(read) && ReadsOn(read, f) && InFlow(w, f)
    requires |w.incoming| >= count && Left(w, f) >= f.cost * count
    ensures var (later, r) := ReadExactRun(read, truncated, w, count);
            r == Done(w.incoming[..count]) && Took(w, later, w.incoming[..count])
            && InFlow(later, f) && Left(later, f) >= Left(w, f) - f.cost * count
    decreases count
  {
    if count > 0 {
      OneFitsIn(f.cost, count);
      assert ReadOk(w, count, read(w, count)) && ReadMoves(w, read(w, count), f);
      var (next, chunk) := read(w, count);
      var left := count - |chunk.value|;
      CostLeft(f.cost, count, |chunk.value|);
      ReadExactSucceeds(read, truncated, next, left, f);
      TookBoth(w, next, ReadExactRun(read, truncated, next, left).0, chunk.value, next.incoming[..left]);
      assert w.incoming[..count] == chunk.value + next.incoming[..left];
    }
  }

  lemma OneFitsIn(cost: nat, count: nat)
    requires count > 0
    ensures cost * count >= cost
  {
  }

  lemma CostLeft(cost: nat, count: nat, n: nat)
    requires 0 < n <= count
    ensures cost * (count - n) <= cost * count - cost
  {
    assert cost * (count - n) == cost * count - cost * n;
    OneFitsIn(cost, n);
  }

  /** However the kernel cuts the data, all of it goes out. */
  lemma {:induction false} WriteAllSucceeds<E(!new)>(write: WriteCall<E>, stuck: E, w: Wire, data: bytes, f: Flow)
    requires WritesSome(write) && WritesOn(write, f) && InFlow(w, f) && Left(w, f) >= f.cost * |data|
    ensures var (later, r) := WriteAllRun(write, stuck, w, data);
            r.Done? && InFlow(later, f) && Left(later, f) >= Left(w, f) - f.cost * |data|
    decreases |data|
  {
    if data != [] {
      OneFitsIn(f.cost, |data|);
      assert WriteOk(w, data, write(w, data)) && WriteMoves(w, write(w, data), f);
      var (next, n) := write(w, data);
      CostLeft(f.cost, |data|, n.value);
      WriteAllSucceeds(write, stuck, next, data[n.value..], f);
    }
  }

  /** A frame that is there is read, whatever follows it. */
  lemma ReadFrameSucceeds<E(!new)>(read: ReadCall<E>, truncated: E, oversized: nat -> E, w: Wire, payload: bytes,
                                   rest: bytes, f: Flow)
    requires ReadsSome(read) && ReadsOn(read, f) && InFlow(w, f)
    requires |payload| <= MAX_FRAME_LEN && w.incoming == Frame(payload) + rest
             && Left(w, f) >= f.cost * |Frame(payload)|
    ensures var (later, r) := ReadFrameRun(read, truncated, oversized, w);
            r == Done(payload) && Took(w, later, Frame(payload))
            && InFlow(later, f) && Left(later, f) >= Left(w, f) - f.cost * |Frame(payload)|
  {
    AnnouncedLength(payload, rest);
    Distribute(f.cost, 4, |payload|);
    ReadExactSucceeds(read, truncated, w, 4, f);
    var (next, header) := ReadExactRun(read, truncated, w, 4);
    assert next.incoming == w.incoming[4..];
    ReadExactSucceeds(read, truncated, next, |payload|, f);
    ReadFrameTakes(read, truncated, oversized, w);
    assert next.incoming[..|payload|] == payload;
  }

  // ---- Many frames ----

  function ReadFramesRun<E(!new)>(read: ReadCall<E>, truncated: E, oversized: nat -> E, w: Wire, n: nat):
        (Wire, Run<seq<bytes>, E>)
    requires ReadsSome(read)
    decreases n
  {
    if n == 0 then (w, Done([]))
    else
      var (next, first) := ReadFrameRun(read, truncated, oversized, w);
      match first
      case Pending => (next, Pending)
      case Failure(e) => (next, Failure(e))
      case Done(payload) =>
        var (last, rest) := ReadFramesRun(read, truncated, oversized, next, n - 1);
        (last, if rest.Done? then Done([payload] + rest.value) else rest)
  }

  /** Reading never returns anything but what was written, in order, and takes exactly the frames. */
  lemma {:induction false} ReadsReturnWrites<E(!new)>(read: ReadCall<E>, truncated: E, oversized: nat -> E, w: Wire,
                                                       payloads: seq<bytes>, rest: bytes)
    requires ReadsSome(read) && Sized(payloads) && w.incoming == FrameStream(payloads) + rest
    ensures var (later, r) := ReadFramesRun(read, truncated, oversized, w, |payloads|);
            r.Done? ==> r.value == payloads && later.incoming == rest
    decreases |payloads|
  {
    if payloads == [] {
      assert FrameStream(payloads) + rest == rest;
    } else {
      ReadFrameTakes(read, truncated, oversized, w);
      var (next, first) := ReadFrameRun(read, truncated, oversized, w);
      if first.Done? {
        FirstFrame(payloads, rest);
        FramesAreUnique(first.value, payloads[0], next.incoming, FrameStream(payloads[1..]) + rest);
        ReadsReturnWrites(read, truncated, oversized, next, payloads[1..], rest);
        assert payloads == [payloads[0]] + payloads[1..];
      }
    }
  }

  lemma FirstFrame(payloads: seq<bytes>, rest: bytes)
    requires Sized(payloads) && payloads != []
    ensures FrameStream(payloads) + rest == Frame(payloads[0]) + (FrameStream(payloads[1..]) + rest)
  {
    Assoc(Frame(payloads[0]), FrameStream(payloads[1..]), rest);
  }

  lemma CostOfStream(cost: nat, payloads: seq<bytes>)
    requires Sized(payloads) && payloads != []
    ensures cost * |FrameStream(payloads)| == cost * |Frame(payloads[0])| + cost * |FrameStream(payloads[1..])|
  {
    Distribute(cost, |Frame(payloads[0])|, |FrameStream(payloads[1..])|);
  }

  lemma Distribute(cost: nat, a: nat, b: nat)
    ensures cost * (a + b) == cost * a + cost * b
  {
  }

  /** The first of the frames is read, and the others are left. */
  lemma FirstFrameIsRead<E(!new)>(read: ReadCall<E>, truncated: E, oversized: nat -> E, w: Wire, payloads: seq<bytes>,
                                  rest: bytes, f: Flow) returns (next: Wire)
    requires ReadsSome(read) && ReadsOn(read, f) && InFlow(w, f) && payloads != []
    requires Sized(payloads) && w.incoming == FrameStream(payloads) + rest
             && Left(w, f) >= f.cost * |FrameStream(payloads)|
    ensures ReadFrameRun(read, truncated, oversized, w) == (next, Done(payloads[0]))
    ensures InFlow(next, f) && next.incoming == FrameStream(payloads[1..]) + rest
    ensures Left(next, f) >= f.cost * |FrameStream(payloads[1..])|
  {
    FirstFrame(payloads, rest);
    CostOfStream(f.cost, payloads);
    ReadFrameSucceeds(read, truncated, oversized, w, payloads[0], FrameStream(payloads[1..]) + rest, f);
    next := ReadFrameRun(read, truncated, oversized, w).0;
    FramesAreUnique(payloads[0], payloads[0], next.incoming, FrameStream(payloads[1..]) + rest);
  }

  lemma {:induction false} FramesAreRead<E(!new)>(read: ReadCall<E>, truncated: E, oversized: nat -> E, w: Wire,
                                                   payloads: seq<bytes>, rest: bytes, f: Flow)
    requires ReadsSome(read) && ReadsOn(read, f) && InFlow(w, f)
    requires Sized(payloads) && w.incoming == FrameStream(payloads) + rest
             && Left(w, f) >= f.cost * |FrameStream(payloads)|
    ensures ReadFramesRun(read, truncated, oversized, w, |payloads|).1.Done?
    decreases |payloads|
  {
    if payloads != [] {
      var next := FirstFrameIsRead(read, truncated, oversized, w, payloads, rest, f);
      FramesAreRead(read, truncated, oversized, next, payloads[1..], rest, f);
    }
  }

  /** All that was written is read back, under every splitting into chunks. */
  lemma AllFramesReadBack<E(!new)>(read: ReadCall<E>, truncated: E, oversized: nat -> E, w: Wire, payloads: seq<bytes>,
                                   rest: bytes, f: Flow)
    requires ReadsSome(read) && ReadsOn(read, f) && InFlow(w, f)
    requires Sized(payloads) && w.incoming == FrameStream(payloads) + rest
             && Left(w, f) >= f.cost * |FrameStream(payloads)|
    ensures var (later, r) := ReadFramesRun(read, truncated, oversized, w, |payloads|);
            r == Done(payloads) && later.incoming == rest
  {
    FramesAreRead(read, truncated, oversized, w, payloads, rest, f);
    ReadsReturnWrites(read, truncated, oversized, w, payloads, rest);
  }
}
