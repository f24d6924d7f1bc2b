/** Frames over a fragmented, slow or dying TCP stream: `read_frame` and `write_frame` of
    `src/frame.rs` above the deadlined reader of `src/server.rs`. */
module Stream {
  import opened Wrappers
  import opened Bytes
  import opened Seqs
  import opened Frame

  // -- the peer's side of a socket --

  /** What a blocking read meets next, after `wait` more milliseconds; an exhausted list is the
      end of the stream. */
  datatype Arrival =
    | Chunk(wait: nat, data: seq<byte>)
    | Interrupted(wait: nat)
    | Failed(wait: nat)

  datatype Peer = Peer(pending: seq<Arrival>, now: nat)

  datatype ReadOut = Got(data: seq<byte>) | Retry | Broken

  function Waited(a: Arrival, gone: nat): Arrival
    requires gone <= a.wait
  {
    a.(wait := a.wait - gone)
  }

  /** One `read` of at most `max` bytes that blocks at most `timeout`. */
  function SocketRead(p: Peer, max: nat, timeout: nat): (ReadOut, Peer) {
    if p.pending == [] then (Got([]), p)
    else
      var a, rest := p.pending[0], p.pending[1..];
      if a.wait >= timeout then (Broken, Peer([Waited(a, timeout)] + rest, p.now + timeout))
      else
        var now := p.now + a.wait;
        match a
        case Interrupted(_) => (Retry, Peer(rest, now))
        case Failed(_) => (Broken, Peer(rest, now))
        case Chunk(_, data) =>
          if |data| <= max then (Got(data), Peer(rest, now))
          else (Got(data[..max]), Peer([Chunk(0, data[max..])] + rest, now))
  }

  /** The deadlined reader: whatever is left of the budget becomes this read's timeout. */
  function DeadlinedRead(p: Peer, max: nat, deadline: nat): (ReadOut, Peer) {
    if deadline <= p.now then (Broken, p) else SocketRead(p, max, deadline - p.now)
  }

  /** `read_exact`: retry when interrupted, stop at an error or at the end of the stream. */
  function ReadExact(p: Peer, count: nat, deadline: nat): (Result<seq<byte>, FrameError>, Peer)
    decreases count + |p.pending|
  {
    if count == 0 then (Ok([]), p)
    else
      var (out, p') := DeadlinedRead(p, count, deadline);
      match out
      case Broken => (Err(Io), p')
      case Retry => ReadExact(p', count, deadline)
      case Got(data) =>
        if data == [] then (Err(Io), p')
        else
          match ReadExact(p', count - |data|, deadline)
          case (Ok(more), last) => (Ok(data + more), last)
          case (Err(e), last) => (Err(e), last)
  }

  function ReadFrame(p: Peer, deadline: nat): (Result<seq<byte>, FrameError>, Peer) {
    match ReadExact(p, 4, deadline)
    case (Err(e), p') => (Err(e), p')
    case (Ok(header), p') =>
      var length := FromBe(header);
      if length > MAX_FRAME then (Err(TooLarge(length)), p') else ReadExact(p', length, deadline)
  }

  class Clock {
    var now: nat

    constructor (now: nat)
      ensures this.now == now
    {
      this.now := now;
    }
  }

  class Socket {
    const clock: Clock
    var pending: seq<Arrival>

    constructor (clock: Clock, pending: seq<Arrival>)
      ensures this.clock == clock && this.pending == pending
    {
      this.clock := clock;
      this.pending := pending;
    }

    function State(): Peer
      reads this, clock
    {
      Peer(pending, clock.now)
    }

    method Read(max: nat, timeout: nat) returns (out: ReadOut)
      modifies this, clock
      ensures (out, State()) == SocketRead(old(State()), max, timeout)
    {
      if pending == [] {
        return Got([]);
      }
      var a := pending[0];
      if a.wait >= timeout {
        clock.now := clock.now + timeout;
        pending := [Waited(a, timeout)] + pending[1..];
        return Broken;
      }
      clock.now := clock.now + a.wait;
      pending := pending[1..];
      match a
      case Interrupted(_) => return Retry;
      case Failed(_) => return Broken;
      case Chunk(_, data) =>
        if |data| <= max {
          return Got(data);
        }
        pending := [Chunk(0, data[max..])] + pending;
        return Got(data[..max]);
    }
  }

  class Deadlined {
    const stream: Socket
    const deadline: nat

    constructor (stream: Socket, deadline: nat)
      ensures this.stream == stream && this.deadline == deadline
    {
      this.stream := stream;
      this.deadline := deadline;
    }

    method Read(max: nat) returns (out: ReadOut)
      modifies stream, stream.clock
      ensures (out, stream.State()) == DeadlinedRead(old(stream.State()), max, deadline)
    {
      var remaining := if deadline > stream.clock.now then deadline - stream.clock.now else 0;
      if remaining == 0 {
        return Broken;
      }
      out := stream.Read(max, remaining);
    }

    method ReadAll(count: nat) returns (r: Result<seq<byte>, FrameError>)
      modifies stream, stream.clock
      ensures (r, stream.State()) == ReadExact(old(stream.State()), count, deadline)
    {
      var buffer: seq<byte> := [];
      ContinueFromNothing(ReadExact(stream.State(), count, deadline));
      while |buffer| < count
        invariant |buffer| <= count
        invariant ReadExact(old(stream.State()), count, deadline)
               == Continue(buffer, ReadExact(stream.State(), count - |buffer|, deadline))
        decreases count - |buffer| + |stream.pending|
      {
        ghost var before := stream.State();
        var out := Read(count - |buffer|);
        match out
        case Broken => return Err(Io);
        case Retry =>
        case Got(data) =>
          if data == [] {
            return Err(Io);
          }
          ContinueTwice(buffer, data, ReadExact(stream.State(), count - |buffer| - |data|, deadline));
          buffer := buffer + data;
      }
      assert buffer + [] == buffer;
      r := Ok(buffer);
    }

    method NextFrame() returns (r: Result<seq<byte>, FrameError>)
      modifies stream, stream.clock
      ensures (r, stream.State()) == ReadFrame(old(stream.State()), deadline)
    {
      var header := ReadAll(4);
      if header.Err? {
        return header;
      }
      var length := FromBe(header.value);
      if length > MAX_FRAME {
        return Err(TooLarge(length));
      }
      r := ReadAll(length);
    }
  }

  /** A partly filled buffer in front of what the rest of the read returns. */
  function Continue(buffer: seq<byte>, rest: (Result<seq<byte>, FrameError>, Peer)): (Result<seq<byte>, FrameError>,
                    Peer) {
    match rest
    case (Ok(more), p) => (Ok(buffer + more), p)
    case (Err(e), p) => (Err(e), p)
  }

  lemma ContinueFromNothing(rest: (Result<seq<byte>, FrameError>, Peer))
    ensures Continue([], rest) == rest
  {
    if rest.0.Ok? {
      assert [] + rest.0.value == rest.0.value;
    }
  }

  lemma ContinueTwice(buffer: seq<byte>, data: seq<byte>, rest: (Result<seq<byte>, FrameError>, Peer))
    ensures Continue(buffer, Continue(data, rest)) == Continue(buffer + data, rest)
  {
    if rest.0.Ok? {
      Assoc(buffer, data, rest.0.value);
    }
  }
}
