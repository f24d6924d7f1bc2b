/** What the framed reader guarantees however the bytes are cut up and however slowly they come. */
module Framing {
  import opened Wrappers
  import opened Bytes
  import opened Seqs
  import opened Frame
  import opened Stream

  // -- one window, not one per read --

  lemma DeadlinedReadEndsBy(p: Peer, max: nat, deadline: nat)
    ensures p.now <= DeadlinedRead(p, max, deadline).1.now
    ensures DeadlinedRead(p, max, deadline).1.now <= if p.now < deadline then deadline else p.now
  {
  }

  /** However the peer paces its bytes, filling a buffer ends by the deadline it was given. */
  lemma {:induction false} ReadExactEndsBy(p: Peer, count: nat, deadline: nat)
    ensures p.now <= ReadExact(p, count, deadline).1.now
    ensures ReadExact(p, count, deadline).1.now <= if p.now < deadline then deadline else p.now
    decreases count + |p.pending|
  {
    if count > 0 {
      var (out, p') := DeadlinedRead(p, count, deadline);
      DeadlinedReadEndsBy(p, count, deadline);
      if out.Retry? {
        ReadExactEndsBy(p', count, deadline);
      } else if out.Got? && out.data != [] {
        ReadExactEndsBy(p', count - |out.data|, deadline);
      }
    }
  }

  lemma ReadFrameEndsBy(p: Peer, deadline: nat)
    ensures p.now <= ReadFrame(p, deadline).1.now
    ensures ReadFrame(p, deadline).1.now <= if p.now < deadline then deadline else p.now
  {
    var (r, p') := ReadExact(p, 4, deadline);
    ReadExactEndsBy(p, 4, deadline);
    if r.Ok? && FromBe(r.value) <= MAX_FRAME {
      ReadExactEndsBy(p', FromBe(r.value), deadline);
    }
    hide ReadExact;
  }

  // -- the bytes behind the arrivals --

  function Flat(pending: seq<Arrival>): seq<byte> {
    if pending == [] then []
    else
      match pending[0]
      case Chunk(_, data) => data + Flat(pending[1..])
      case _ => Flat(pending[1..])
  }

  function TotalWait(pending: seq<Arrival>): nat {
    if pending == [] then 0 else pending[0].wait + TotalWait(pending[1..])
  }

  /** No failure, and no read that returns nothing before the end. */
  ghost predicate Clean(pending: seq<Arrival>) {
    forall i :: 0 <= i < |pending| ==> !pending[i].Failed? && (pending[i].Chunk? ==> pending[i].data != [])
  }

  /** Nothing is still to come after the last byte. */
  ghost predicate EndsInBytes(pending: seq<Arrival>) {
    pending != [] ==> pending[|pending| - 1].Chunk?
  }

  lemma FlatStep(a: Arrival, rest: seq<Arrival>)
    ensures Flat([a] + rest) == if a.Chunk? then a.data + Flat(rest) else Flat(rest)
    ensures TotalWait([a] + rest) == a.wait + TotalWait(rest)
  {
    assert ([a] + rest)[1..] == rest;
  }

  /** What is left of a clean list after a read that stayed within it, in front of anything else. */
  ghost predicate Left(a: seq<Arrival>, now: nat, got: seq<byte>, a2: seq<Arrival>, now2: nat) {
    && Clean(a2)
    && Flat(a) == got + Flat(a2)
    && now2 + TotalWait(a2) == now + TotalWait(a)
  }

  lemma FirstArrival(a: seq<Arrival>, b: seq<Arrival>, now: nat, max: nat, deadline: nat)
    returns (out: ReadOut, a2: seq<Arrival>, now2: nat)
    requires a != [] && Clean(a) && max > 0 && now + TotalWait(a) < deadline
    ensures DeadlinedRead(Peer(a + b, now), max, deadline) == (out, Peer(a2 + b, now2))
    ensures out.Retry? || (out.Got? && 0 < |out.data| <= max)
    ensures |a2| <= |a| && (out.Retry? ==> |a2| < |a|)
    ensures Left(a, now, if out.Got? then out.data else [], a2, now2)
    ensures EndsInBytes(a) ==> EndsInBytes(a2)
  {
    var head, rest := a[0], a[1..];
    assert a == [head] + rest;
    assert (a + b)[0] == head && (a + b)[1..] == rest + b;
    FlatStep(head, rest);
    now2 := now + head.wait;
    match head
    case Interrupted(_) =>
      out, a2 := Retry, rest;
      assert [] + Flat(rest) == Flat(rest);
    case Failed(_) =>
    case Chunk(_, data) =>
      if |data| <= max {
        out, a2 := Got(data), rest;
      } else {
        out, a2 := Got(data[..max]), [Chunk(0, data[max..])] + rest;
        SplitChunk(data, max, rest, b);
      }
  }

  lemma SplitChunk(data: seq<byte>, max: nat, rest: seq<Arrival>, b: seq<Arrival>)
    requires 0 < max < |data| && Clean(rest)
    ensures var a2 := [Chunk(0, data[max..])] + rest;
            && Clean(a2) && TotalWait(a2) == TotalWait(rest)
            && data + Flat(rest) == data[..max] + Flat(a2)
            && [Chunk(0, data[max..])] + (rest + b) == a2 + b
  {
    FlatStep(Chunk(0, data[max..]), rest);
    Assoc(data[..max], data[max..], Flat(rest));
    assert data[..max] + data[max..] == data;
    Assoc([Chunk(0, data[max..])], rest, b);
  }

  lemma LeftTwice(a: seq<Arrival>, now: nat, x: seq<byte>, a2: seq<Arrival>, now2: nat, y: seq<byte>,
                  a3: seq<Arrival>, now3: nat)
    requires Left(a, now, x, a2, now2) && Left(a2, now2, y, a3, now3)
    ensures Left(a, now, x + y, a3, now3)
  {
    Assoc(x, y, Flat(a3));
  }

  /** Bytes that come in time are read in order, whatever the chunks and interruptions, and
      nothing beyond them is touched. */
  lemma {:induction false} ReadExactServes(a: seq<Arrival>, b: seq<Arrival>, now: nat, count: nat, deadline: nat)
    returns (got: seq<byte>, a2: seq<Arrival>, now2: nat)
    requires Clean(a) && count <= |Flat(a)| && now + TotalWait(a) < deadline
    ensures ReadExact(Peer(a + b, now), count, deadline) == (Ok(got), Peer(a2 + b, now2))
    ensures |got| == count && Left(a, now, got, a2, now2)
    ensures EndsInBytes(a) ==> EndsInBytes(a2)
    decreases count + |a|
  {
    if count == 0 {
      got, a2, now2 := [], a, now;
      assert [] + Flat(a) == Flat(a);
    } else {
      var out, a1, now1 := FirstArrival(a, b, now, count, deadline);
      hide DeadlinedRead;
      hide Flat;
      hide TotalWait;
      hide Clean;
      if out.Retry? {
        got, a2, now2 := ReadExactServes(a1, b, now1, count, deadline);
        LeftTwice(a, now, [], a1, now1, got, a2, now2);
        assert [] + got == got;
      } else {
        var more;
        more, a2, now2 := ReadExactServes(a1, b, now1, count - |out.data|, deadline);
        got := out.data + more;
        LeftTwice(a, now, out.data, a1, now1, more, a2, now2);
      }
    }
  }

  /** A stream that ends too early is an error, after everything it held was read. */
  lemma {:induction false} ReadExactStarves(a: seq<Arrival>, now: nat, count: nat, deadline: nat)
    requires Clean(a) && count > |Flat(a)| && now + TotalWait(a) < deadline
    ensures ReadExact(Peer(a, now), count, deadline) == (Err(Io), Peer([], now + TotalWait(a)))
    decreases count + |a|
  {
    if a != [] {
      var out, a1, now1 := FirstArrival(a, [], now, count, deadline);
      assert a + [] == a && a1 + [] == a1;
      if out.Retry? {
        assert [] + Flat(a1) == Flat(a1);
        ReadExactStarves(a1, now1, count, deadline);
      } else {
        ReadExactStarves(a1, now1, count - |out.data|, deadline);
      }
    }
  }

  // -- frames --

  /** `write_frame`: the length as four big-endian bytes, then the frame. */
  function EncodeFrame(frame: seq<byte>): (bytes: seq<byte>)
    ensures |bytes| == 4 + |frame|
  {
    ToBe(4, |frame|) + frame
  }

  /** The four bytes of the length, high byte first, and then the frame. */
  lemma FrameLayout(frame: seq<byte>)
    requires |frame| < 0x1_0000_0000
    ensures EncodeFrame(frame)
         == [|frame| / 0x100_0000, |frame| / 0x1_0000 % 256, |frame| / 256 % 256, |frame| % 256] + frame
  {
    var n := |frame|;
    BigEndian(4, n, 0);
    BigEndian(4, n, 1);
    BigEndian(4, n, 2);
    BigEndian(4, n, 3);
    Pow256Small();
    hide ToBe;
    var header := ToBe(4, n);
    assert header == [header[0], header[1], header[2], header[3]];
  }

  lemma Pow256Small()
    ensures Pow256(0) == 1 && Pow256(1) == 256 && Pow256(2) == 0x1_0000 && Pow256(3) == 0x100_0000
  {
    assert Pow256(3) == 256 * Pow256(2);
  }

  function EncodeFrames(frames: seq<seq<byte>>): seq<byte> {
    if frames == [] then [] else EncodeFrame(frames[0]) + EncodeFrames(frames[1..])
  }

  ghost predicate Sendable(frames: seq<seq<byte>>) {
    forall i :: 0 <= i < |frames| ==> |frames[i]| <= 65536
  }

  lemma HeaderValue(length: nat)
    requires length < 0x1_0000_0000
    ensures FromBe(ToBe(4, length)) == length
  {
    Pow256Values();
    FromToBe(4, length);
  }

  /** A frame that comes in time is returned whole, and what follows it stays. */
  lemma ReadFrameServes(a: seq<Arrival>, b: seq<Arrival>, now: nat, deadline: nat, frame: seq<byte>, rest: seq<byte>)
    returns (a2: seq<Arrival>, now2: nat)
    requires Clean(a) && now + TotalWait(a) < deadline
    requires |frame| <= MAX_FRAME && Flat(a) == EncodeFrame(frame) + rest
    ensures ReadFrame(Peer(a + b, now), deadline) == (Ok(frame), Peer(a2 + b, now2))
    ensures Left(a, now, EncodeFrame(frame), a2, now2) && Flat(a2) == rest
    ensures EndsInBytes(a) ==> EndsInBytes(a2)
  {
    hide ReadExact;
    hide TotalWait;
    hide Flat;
    hide ToBe;
    hide FromBe;
    var header, a1, now1 := ReadExactServes(a, b, now, 4, deadline);
    Assoc(ToBe(4, |frame|), frame, rest);
    SamePrefix(header, Flat(a1), ToBe(4, |frame|), frame + rest);
    HeaderValue(|frame|);
    var body;
    body, a2, now2 := ReadExactServes(a1, b, now1, |frame|, deadline);
    SamePrefix(body, Flat(a2), frame, rest);
    LeftTwice(a, now, header, a1, now1, body, a2, now2);
  }

  lemma SamePrefix(x: seq<byte>, y: seq<byte>, u: seq<byte>, v: seq<byte>)
    requires x + y == u + v && |x| == |u|
    ensures x == u && y == v
  {
    assert x == (x + y)[..|x|] && u == (u + v)[..|u|];
    assert y == (x + y)[|x|..] && v == (u + v)[|u|..];
  }

  /** A header announcing too much is refused after its four bytes, the rest unread. */
  lemma OversizedIsRefused(a: seq<Arrival>, now: nat, deadline: nat, length: nat, rest: seq<byte>)
    returns (a2: seq<Arrival>, now2: nat)
    requires Clean(a) && now + TotalWait(a) < deadline
    requires 65536 < length < 0x1_0000_0000 && Flat(a) == ToBe(4, length) + rest
    ensures ReadFrame(Peer(a, now), deadline) == (Err(TooLarge(length)), Peer(a2, now2)) && Flat(a2) == rest
  {
    hide ReadExact;
    hide TotalWait;
    hide Flat;
    hide ToBe;
    hide FromBe;
    var header;
    header, a2, now2 := ReadExactServes(a, [], now, 4, deadline);
    assert a + [] == a && a2 + [] == a2;
    SamePrefix(header, Flat(a2), ToBe(4, length), rest);
    HeaderValue(length);
  }

  // -- a whole stream --

  lemma DeadlinedReadShrinks(p: Peer, max: nat, deadline: nat)
    ensures var (out, p') := DeadlinedRead(p, max, deadline);
            && (out.Got? ==> |Flat(p'.pending)| + |out.data| == |Flat(p.pending)|)
            && |Flat(p'.pending)| <= |Flat(p.pending)|
  {
    if p.pending != [] && p.now < deadline {
      var a, rest := p.pending[0], p.pending[1..];
      assert p.pending == [a] + rest;
      FlatStep(a, rest);
      if a.wait >= deadline - p.now {
        FlatStep(Waited(a, deadline - p.now), rest);
      } else if a.Chunk? && |a.data| > max {
        FlatStep(Chunk(0, a.data[max..]), rest);
      }
    }
  }

  lemma {:induction false} ReadExactShrinks(p: Peer, count: nat, deadline: nat)
    ensures var (r, p') := ReadExact(p, count, deadline);
            && (r.Ok? ==> |r.value| == count && |Flat(p'.pending)| + count == |Flat(p.pending)|)
            && |Flat(p'.pending)| <= |Flat(p.pending)|
    decreases count + |p.pending|
  {
    if count > 0 {
      var (out, p') := DeadlinedRead(p, count, deadline);
      DeadlinedReadShrinks(p, count, deadline);
      hide Flat;
      if out.Retry? {
        ReadExactShrinks(p', count, deadline);
      } else if out.Got? && out.data != [] {
        ReadExactShrinks(p', count - |out.data|, deadline);
      }
    }
  }

  lemma ReadFrameShrinks(p: Peer, deadline: nat)
    ensures ReadFrame(p, deadline).0.Ok? ==> |Flat(ReadFrame(p, deadline).1.pending)| < |Flat(p.pending)|
  {
    var (r, p') := ReadExact(p, 4, deadline);
    ReadExactShrinks(p, 4, deadline);
    if r.Ok? {
      ReadExactShrinks(p', FromBe(r.value), deadline);
    }
    hide ReadExact;
    hide Flat;
  }

  /** `read_frame` until it fails: the frames, and the error that ended them. */
  function ReadFrames(p: Peer, deadline: nat): (seq<seq<byte>>, FrameError)
    decreases |Flat(p.pending)|
  {
    match ReadFrame(p, deadline)
    case (Err(e), _) => ([], e)
    case (Ok(frame), p') =>
      ReadFrameShrinks(p, deadline);
      var (frames, e) := ReadFrames(p', deadline);
      ([frame] + frames, e)
  }

  /** How many frames lie whole within the first `cut` bytes of the encoding. */
  function WholeFrames(frames: seq<seq<byte>>, cut: nat): (n: nat)
    ensures n <= |frames|
  {
    if frames == [] || cut < |EncodeFrame(frames[0])| then 0
    else 1 + WholeFrames(frames[1..], cut - |EncodeFrame(frames[0])|)
  }

  lemma {:induction false} UncutFramesAreWhole(frames: seq<seq<byte>>)
    ensures WholeFrames(frames, |EncodeFrames(frames)|) == |frames|
  {
    if frames != [] {
      UncutFramesAreWhole(frames[1..]);
    }
  }

  /** A stream cut inside its next frame yields no frame. */
  lemma CutFrameFails(a: seq<Arrival>, now: nat, deadline: nat, frame: seq<byte>, cut: nat)
    requires Clean(a) && now + TotalWait(a) < deadline && |frame| <= MAX_FRAME
    requires cut < |EncodeFrame(frame)| && Flat(a) == EncodeFrame(frame)[..cut]
    ensures ReadFrame(Peer(a, now), deadline).0 == Err(Io)
  {
    hide ReadExact;
    hide TotalWait;
    hide Flat;
    hide ToBe;
    hide FromBe;
    if cut < 4 {
      ReadExactStarves(a, now, 4, deadline);
    } else {
      var header, a1, now1 := ReadExactServes(a, [], now, 4, deadline);
      assert a + [] == a && a1 + [] == a1;
      assert EncodeFrame(frame)[..cut] == ToBe(4, |frame|) + frame[..cut - 4];
      SamePrefix(header, Flat(a1), ToBe(4, |frame|), frame[..cut - 4]);
      HeaderValue(|frame|);
      ReadExactStarves(a1, now1, |frame|, deadline);
    }
  }

  /** Fragmentation is invisible: any split of any prefix of the encoding into chunks, with any
      interruptions, reads back as exactly the frames that lie whole within it, then an error. */
  lemma {:induction false} FramesSurviveFragmentation(a: seq<Arrival>, now: nat, deadline: nat,
                                                      frames: seq<seq<byte>>, cut: nat)
    requires Clean(a) && now + TotalWait(a) < deadline && Sendable(frames)
    requires cut <= |EncodeFrames(frames)| && Flat(a) == EncodeFrames(frames)[..cut]
    ensures ReadFrames(Peer(a, now), deadline) == (frames[..WholeFrames(frames, cut)], Io)
    decreases |frames|
  {
    if frames == [] {
      hide ReadExact;
      ReadExactStarves(a, now, 4, deadline);
    } else {
      var size := |EncodeFrame(frames[0])|;
      if cut < size {
        assert EncodeFrames(frames)[..cut] == EncodeFrame(frames[0])[..cut];
        hide ReadFrame;
        CutFrameFails(a, now, deadline, frames[0], cut);
      } else {
        var rest := EncodeFrames(frames[1..])[..cut - size];
        assert EncodeFrames(frames)[..cut] == EncodeFrame(frames[0]) + rest;
        hide ReadFrame;
        hide Flat;
        hide TotalWait;
        hide EncodeFrame;
        var a2, now2 := ReadFrameServes(a, [], now, deadline, frames[0], rest);
        assert a + [] == a && a2 + [] == a2;
        FramesSurviveFragmentation(a2, now2, deadline, frames[1..], cut - size);
        WholeFramesStep(frames, cut);
      }
    }
  }

  lemma WholeFramesStep(frames: seq<seq<byte>>, cut: nat)
    requires frames != [] && cut >= |EncodeFrame(frames[0])|
    ensures var m := WholeFrames(frames[1..], cut - |EncodeFrame(frames[0])|);
            WholeFrames(frames, cut) == 1 + m && frames[..1 + m] == [frames[0]] + frames[1..][..m]
  {
  }
}
