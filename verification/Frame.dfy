/** `src/frame.rs`: message values, the sealed channel, and length-prefixed frames. */
module Frame {
  import opened Wrappers
  import opened Bytes

  const MAX_FRAME := 65536

  datatype FrameError = Io | TooLarge(length: nat) | Crypto | Malformed

  // -- message bodies --

  /** A CBOR value; `Opaque` stands for the kinds the protocol never looks into. */
  datatype Value =
    | Integer(n: int)
    | Bytes(bytes: seq<byte>)
    | Text(text: string)
    | Bool(flag: bool)
    | Array(items: seq<Value>)
    | Map(entries: seq<(Value, Value)>)
    | Opaque

  /** The first entry under a text key. */
  function FindEntry(entries: seq<(Value, Value)>, key: string): Option<Value> {
    if entries == [] then None
    else if entries[0].0 == Text(key) then Some(entries[0].1)
    else FindEntry(entries[1..], key)
  }

  function MapGet(value: Value, key: string): Option<Value> {
    if value.Map? then FindEntry(value.entries, key) else None
  }

  function GetText(value: Value, key: string): Option<string> {
    match MapGet(value, key)
    case Some(Text(t)) => Some(t)
    case _ => None
  }

  function GetBytes(value: Value, key: string): Option<seq<byte>> {
    match MapGet(value, key)
    case Some(Bytes(b)) => Some(b)
    case _ => None
  }

  // -- symbolic cryptography --

  /** What X25519 yields for a client's ephemeral key against the server's key: section 6.1 of RFC 7748. */
  datatype Shared = Shared(epub: seq<byte>, spub: seq<byte>)

  datatype Half = ClientToServer | ServerToClient

  /** One half of the HKDF output (section 2 of RFC 5869): an injective term of all its inputs. */
  datatype Key = Key(shared: Shared, epub: seq<byte>, spub: seq<byte>, half: Half)

  /** What is sealed: the encoding of a value, or bytes that decode to none. */
  datatype Plain = Encoded(value: Value) | Garbage(bytes: seq<byte>)

  /** A frame as the protocol sees it: cleartext, a sealed box (section 2.8 of RFC 8439), or noise. */
  datatype Wire = Clear(value: Value) | Box(key: Key, nonce: seq<byte>, plain: Plain) | Noise

  function Open(key: Key, nonce: seq<byte>, wire: Wire): Option<Plain> {
    if wire.Box? && wire.key == key && wire.nonce == nonce then Some(wire.plain) else None
  }

  function DecodePlain(plain: Plain): Result<Value, FrameError> {
    match plain
    case Encoded(value) => Ok(value)
    case Garbage(_) => Err(Malformed)
  }

  function DecodeClear(wire: Wire): Result<Value, FrameError> {
    if wire.Clear? then Ok(wire.value) else Err(Malformed)
  }

  // -- the channel --

  const TWO64 := 0x1_0000_0000_0000_0000

  type u64 = n: int | 0 <= n < TWO64

  /** `+= 1` on a `u64` counter, wrapping as the release build does. */
  function Next(n: u64): u64 {
    (n + 1) % TWO64
  }

  /** Four zero bytes, then the sequence number as eight big-endian bytes. */
  function Nonce(n: u64): (bytes: seq<byte>)
    ensures |bytes| == 12
  {
    [0, 0, 0, 0] + ToBe(8, n)
  }

  datatype ChannelState = ChannelState(c2s: Key, s2c: Key, seqC2S: u64, seqS2C: u64)

  function Derive(shared: Shared, epub: seq<byte>, spub: seq<byte>): ChannelState {
    ChannelState(Key(shared, epub, spub, ClientToServer), Key(shared, epub, spub, ServerToClient), 0, 0)
  }

  function SealS2C(ch: ChannelState, plain: Plain): (Wire, ChannelState) {
    (Box(ch.s2c, Nonce(ch.seqS2C), plain), ch.(seqS2C := Next(ch.seqS2C)))
  }

  function SealC2S(ch: ChannelState, plain: Plain): (Wire, ChannelState) {
    (Box(ch.c2s, Nonce(ch.seqC2S), plain), ch.(seqC2S := Next(ch.seqC2S)))
  }

  function OpenC2S(ch: ChannelState, wire: Wire): (Result<Plain, FrameError>, ChannelState) {
    match Open(ch.c2s, Nonce(ch.seqC2S), wire)
    case Some(plain) => (Ok(plain), ch.(seqC2S := Next(ch.seqC2S)))
    case None => (Err(Crypto), ch)
  }

  function OpenS2C(ch: ChannelState, wire: Wire): (Result<Plain, FrameError>, ChannelState) {
    match Open(ch.s2c, Nonce(ch.seqS2C), wire)
    case Some(plain) => (Ok(plain), ch.(seqS2C := Next(ch.seqS2C)))
    case None => (Err(Crypto), ch)
  }

  class Channel {
    const c2s: Key
    const s2c: Key
    var seqC2S: u64
    var seqS2C: u64

    function State(): ChannelState
      reads this
    {
      ChannelState(c2s, s2c, seqC2S, seqS2C)
    }

    constructor (shared: Shared, epub: seq<byte>, spub: seq<byte>)
      ensures State() == Derive(shared, epub, spub)
    {
      c2s := Key(shared, epub, spub, ClientToServer);
      s2c := Key(shared, epub, spub, ServerToClient);
      seqC2S, seqS2C := 0, 0;
    }

    method SealToClient(plain: Plain) returns (sealed: Wire)
      modifies this
      ensures (sealed, State()) == SealS2C(old(State()), plain)
    {
      sealed := Box(s2c, Nonce(seqS2C), plain);
      seqS2C := Next(seqS2C);
    }

    method OpenFromClient(sealed: Wire) returns (r: Result<Plain, FrameError>)
      modifies this
      ensures (r, State()) == OpenC2S(old(State()), sealed)
    {
      var plain := Open(c2s, Nonce(seqC2S), sealed);
      if plain.None? {
        return Err(Crypto);
      }
      seqC2S := Next(seqC2S);
      r := Ok(plain.value);
    }

    method SealToServer(plain: Plain) returns (sealed: Wire)
      modifies this
      ensures (sealed, State()) == SealC2S(old(State()), plain)
    {
      sealed := Box(c2s, Nonce(seqC2S), plain);
      seqC2S := Next(seqC2S);
    }

    method OpenFromServer(sealed: Wire) returns (r: Result<Plain, FrameError>)
      modifies this
      ensures (r, State()) == OpenS2C(old(State()), sealed)
    {
      var plain := Open(s2c, Nonce(seqS2C), sealed);
      if plain.None? {
        return Err(Crypto);
      }
      seqS2C := Next(seqS2C);
      r := Ok(plain.value);
    }
  }

  // -- each direction is an exactly-once queue --

  lemma NonceInjective(m: u64, n: u64)
    ensures Nonce(m) == Nonce(n) <==> m == n
  {
    Pow256Values();
    FromToBe(8, m);
    FromToBe(8, n);
    assert Nonce(m)[4..] == ToBe(8, m) && Nonce(n)[4..] == ToBe(8, n);
  }

  /** The counter after `count` seals. */
  function Advance(n: u64, count: nat): u64 {
    (n + count) % TWO64
  }

  lemma AdvanceModulo(start: u64, i: nat)
    ensures Advance(start, i) == if start + i % TWO64 < TWO64 then start + i % TWO64 else start + i % TWO64 - TWO64
  {
    var q, r := i / TWO64, i % TWO64;
    assert start + i == q * TWO64 + (start + r);
  }

  /** The boxes of that many seals in a row, one for each plaintext. */
  function SealAll(ch: ChannelState, plains: seq<Plain>): (boxes: seq<Wire>)
    ensures |boxes| == |plains|
    decreases |plains|
  {
    if plains == [] then []
    else
      var (box, ch') := SealS2C(ch, plains[0]);
      [box] + SealAll(ch', plains[1..])
  }

  lemma {:induction false} SealedAt(ch: ChannelState, plains: seq<Plain>, i: nat)
    requires i < |plains|
    ensures SealAll(ch, plains)[i] == Box(ch.s2c, Nonce(Advance(ch.seqS2C, i)), plains[i])
    decreases |plains|
  {
    hide Nonce;
    if i > 0 {
      SealedAt(SealS2C(ch, plains[0]).1, plains[1..], i - 1);
      NextAdvances(ch.seqS2C, i - 1);
    }
  }

  lemma NextAdvances(n: u64, i: nat)
    ensures Advance(Next(n), i) == Advance(n, i + 1)
  {
    if n + 1 == TWO64 {
      AdvanceModulo(n, i + 1);
      assert Advance(0, i) == i % TWO64;
      assert (n + (i + 1)) == i + TWO64;
      assert (i + TWO64) % TWO64 == i % TWO64;
    }
  }

  /** Two seals in a row of any length share a nonce exactly when their places agree modulo 2^64. */
  lemma NonceRepeats(ch: ChannelState, plains: seq<Plain>, i: nat, j: nat)
    requires i < |plains| && j < |plains|
    ensures var boxes := SealAll(ch, plains);
            && boxes[i].Box? && boxes[j].Box? && boxes[i].key == boxes[j].key
            && (boxes[i].nonce == boxes[j].nonce <==> i % 0x1_0000_0000_0000_0000 == j % 0x1_0000_0000_0000_0000)
  {
    SealedAt(ch, plains, i);
    SealedAt(ch, plains, j);
    hide SealAll;
    hide Nonce;
    AdvanceModulo(ch.seqS2C, i);
    AdvanceModulo(ch.seqS2C, j);
    hide Advance;
    NonceInjective(Advance(ch.seqS2C, i), Advance(ch.seqS2C, j));
  }

  /** Four zero bytes, then the number with its high byte first. */
  lemma NonceLayout(n: u64, k: nat)
    requires k < 12
    ensures Nonce(n)[k] == if k < 4 then 0 else n / Pow256(11 - k) % 256
  {
    if k >= 4 {
      BigEndian(8, n, k - 4);
      assert Nonce(n)[k] == ToBe(8, n)[k - 4];
    }
    hide ToBe;
    hide Pow256;
  }

  /** Both ends of one connection: what each has sealed, as plaintexts and as boxes, and accepted. */
  datatype Link = Link(
    client: ChannelState,
    server: ChannelState,
    sentUp: seq<Plain>,
    boxesUp: seq<Wire>,
    gotUp: seq<Plain>,
    sentDown: seq<Plain>,
    boxesDown: seq<Wire>,
    gotDown: seq<Plain>)

  datatype Move =
    | ClientSeals(plain: Plain)
    | ServerOpens(wire: Wire)
    | ServerSeals(plain: Plain)
    | ClientOpens(wire: Wire)

  function StartLink(shared: Shared, epub: seq<byte>, spub: seq<byte>): Link {
    var ch := Derive(shared, epub, spub);
    Link(ch, ch, [], [], [], [], [], [])
  }

  function StepLink(l: Link, m: Move): Link {
    match m
    case ClientSeals(plain) =>
      var (box, ch) := SealC2S(l.client, plain);
      l.(client := ch, sentUp := l.sentUp + [plain], boxesUp := l.boxesUp + [box])
    case ServerSeals(plain) =>
      var (box, ch) := SealS2C(l.server, plain);
      l.(server := ch, sentDown := l.sentDown + [plain], boxesDown := l.boxesDown + [box])
    case ServerOpens(wire) =>
      var (r, ch) := OpenC2S(l.server, wire);
      l.(server := ch, gotUp := if r.Ok? then l.gotUp + [r.value] else l.gotUp)
    case ClientOpens(wire) =>
      var (r, ch) := OpenS2C(l.client, wire);
      l.(client := ch, gotDown := if r.Ok? then l.gotDown + [r.value] else l.gotDown)
  }

  /** The network knows neither key: a box under one of them is one that an end has sealed. */
  ghost predicate Replayed(l: Link, wire: Wire) {
    wire.Box? && (wire.key == l.client.c2s || wire.key == l.client.s2c) ==> wire in l.boxesUp || wire in l.boxesDown
  }

  ghost predicate Playable(l: Link, moves: seq<Move>)
    decreases |moves|
  {
    moves != [] ==>
      && (moves[0].ServerOpens? || moves[0].ClientOpens? ==> Replayed(l, moves[0].wire))
      && Playable(StepLink(l, moves[0]), moves[1..])
  }

  function RunLink(l: Link, moves: seq<Move>): Link
    decreases |moves|
  {
    if moves == [] then l else RunLink(StepLink(l, moves[0]), moves[1..])
  }

  /** The `i`-th box of a direction carries the `i`-th plaintext under the `i`-th nonce. */
  ghost predicate Boxed(key: Key, sent: seq<Plain>, boxes: seq<Wire>) {
    && |boxes| == |sent|
    && |sent| < TWO64
    && forall i :: 0 <= i < |boxes| ==> boxes[i] == Box(key, Nonce(i), sent[i])
  }

  /** One direction: the counters match the histories, and what was accepted is a prefix of what was sealed. */
  ghost predicate LaneInOrder(key: Key, sealSeq: u64, openSeq: u64, sent: seq<Plain>, boxes: seq<Wire>,
                              got: seq<Plain>) {
    Boxed(key, sent, boxes) && sealSeq == |sent| && openSeq == |got| && got <= sent
  }

  ghost predicate InOrder(l: Link) {
    && l.client.c2s == l.server.c2s && l.client.s2c == l.server.s2c && l.client.c2s != l.client.s2c
    && LaneInOrder(l.client.c2s, l.client.seqC2S, l.server.seqC2S, l.sentUp, l.boxesUp, l.gotUp)
    && LaneInOrder(l.client.s2c, l.server.seqS2C, l.client.seqS2C, l.sentDown, l.boxesDown, l.gotDown)
  }

  lemma BoxAt(key: Key, sent: seq<Plain>, boxes: seq<Wire>, at: nat, wire: Wire)
    requires Boxed(key, sent, boxes) && wire in boxes && at <= |sent|
    requires Open(key, Nonce(at), wire).Some?
    ensures at < |sent| && wire == boxes[at]
  {
    var i :| 0 <= i < |boxes| && boxes[i] == wire;
    NonceInjective(i, at);
  }

  /** The server accepts a term exactly when it is the next one the client sealed, and keeps its
      state otherwise. */
  lemma ServerAcceptsNext(l: Link, wire: Wire)
    requires InOrder(l) && Replayed(l, wire)
    ensures OpenC2S(l.server, wire).0.Ok? <==> |l.gotUp| < |l.sentUp| && wire == l.boxesUp[|l.gotUp|]
    ensures OpenC2S(l.server, wire).0.Ok? ==> OpenC2S(l.server, wire).0.value == l.sentUp[|l.gotUp|]
    ensures OpenC2S(l.server, wire).0.Err? ==> OpenC2S(l.server, wire).1 == l.server
  {
    hide Nonce;
    if OpenC2S(l.server, wire).0.Ok? {
      BoxAt(l.client.c2s, l.sentUp, l.boxesUp, |l.gotUp|, wire);
    }
  }

  lemma ClientAcceptsNext(l: Link, wire: Wire)
    requires InOrder(l) && Replayed(l, wire)
    ensures OpenS2C(l.client, wire).0.Ok? <==> |l.gotDown| < |l.sentDown| && wire == l.boxesDown[|l.gotDown|]
    ensures OpenS2C(l.client, wire).0.Ok? ==> OpenS2C(l.client, wire).0.value == l.sentDown[|l.gotDown|]
    ensures OpenS2C(l.client, wire).0.Err? ==> OpenS2C(l.client, wire).1 == l.client
  {
    hide Nonce;
    if OpenS2C(l.client, wire).0.Ok? {
      BoxAt(l.client.s2c, l.sentDown, l.boxesDown, |l.gotDown|, wire);
    }
  }

  lemma LaneSeals(key: Key, sealSeq: u64, openSeq: u64, sent: seq<Plain>, boxes: seq<Wire>, got: seq<Plain>,
                  plain: Plain)
    requires LaneInOrder(key, sealSeq, openSeq, sent, boxes, got) && |sent| + 1 < TWO64
    ensures LaneInOrder(key, Next(sealSeq), openSeq, sent + [plain], boxes + [Box(key, Nonce(sealSeq), plain)], got)
  {
    hide Nonce;
  }

  lemma LaneOpens(key: Key, sealSeq: u64, openSeq: u64, sent: seq<Plain>, boxes: seq<Wire>, got: seq<Plain>)
    requires LaneInOrder(key, sealSeq, openSeq, sent, boxes, got) && |got| < |sent|
    ensures LaneInOrder(key, sealSeq, Next(openSeq), sent, boxes, got + [sent[|got|]])
  {
    hide Nonce;
  }

  lemma StepKeepsOrder(l: Link, m: Move)
    requires InOrder(l) && |l.sentUp| < TWO64 - 1 && |l.sentDown| < TWO64 - 1
    requires m.ServerOpens? || m.ClientOpens? ==> Replayed(l, m.wire)
    ensures InOrder(StepLink(l, m))
    ensures |StepLink(l, m).sentUp| <= |l.sentUp| + 1 && |StepLink(l, m).sentDown| <= |l.sentDown| + 1
  {
    match m
    case ClientSeals(plain) =>
      LaneSeals(l.client.c2s, l.client.seqC2S, l.server.seqC2S, l.sentUp, l.boxesUp, l.gotUp, plain);
      hide LaneInOrder;
    case ServerSeals(plain) =>
      LaneSeals(l.client.s2c, l.server.seqS2C, l.client.seqS2C, l.sentDown, l.boxesDown, l.gotDown, plain);
      hide LaneInOrder;
    case ServerOpens(wire) =>
      ServerAcceptsNext(l, wire);
      if OpenC2S(l.server, wire).0.Ok? {
        LaneOpens(l.client.c2s, l.client.seqC2S, l.server.seqC2S, l.sentUp, l.boxesUp, l.gotUp);
      }
      hide LaneInOrder;
    case ClientOpens(wire) =>
      ClientAcceptsNext(l, wire);
      if OpenS2C(l.client, wire).0.Ok? {
        LaneOpens(l.client.s2c, l.server.seqS2C, l.client.seqS2C, l.sentDown, l.boxesDown, l.gotDown);
      }
      hide LaneInOrder;
  }

  lemma {:induction false} RunKeepsOrder(l: Link, moves: seq<Move>)
    requires InOrder(l) && Playable(l, moves)
    requires |l.sentUp| + |moves| < TWO64 && |l.sentDown| + |moves| < TWO64
    ensures InOrder(RunLink(l, moves))
    decreases |moves|
  {
    if moves != [] {
      StepKeepsOrder(l, moves[0]);
      hide InOrder;
      hide StepLink;
      RunKeepsOrder(StepLink(l, moves[0]), moves[1..]);
    }
  }

  /** Every box has its own key and nonce. */
  ghost predicate FreshNonces(boxes: seq<Wire>) {
    forall i, j :: 0 <= i < j < |boxes| && boxes[i].Box? && boxes[j].Box? ==>
      boxes[i].key != boxes[j].key || boxes[i].nonce != boxes[j].nonce
  }

  lemma OrderedIsFresh(l: Link)
    requires InOrder(l)
    ensures FreshNonces(l.boxesUp + l.boxesDown)
  {
    var boxes := l.boxesUp + l.boxesDown;
    forall i, j | 0 <= i < j < |boxes| && boxes[i].key == boxes[j].key
      ensures boxes[i].nonce != boxes[j].nonce
    {
      var m := |l.boxesUp|;
      if j < m {
        NonceInjective(i, j);
      } else {
        assert i >= m;
        NonceInjective(i - m, j - m);
      }
    }
  }

  /** Over every interleaving of seals and of opens on replayed, reflected, reordered or foreign
      terms, each end has accepted a prefix of what the other end sealed, in order and once, and
      no key and nonce were used twice. */
  lemma LinkIsExactlyOnce(shared: Shared, epub: seq<byte>, spub: seq<byte>, moves: seq<Move>)
    requires Playable(StartLink(shared, epub, spub), moves) && |moves| < TWO64
    ensures var l := RunLink(StartLink(shared, epub, spub), moves);
            && l.gotUp <= l.sentUp && l.gotDown <= l.sentDown
            && FreshNonces(l.boxesUp + l.boxesDown)
  {
    RunKeepsOrder(StartLink(shared, epub, spub), moves);
    OrderedIsFresh(RunLink(StartLink(shared, epub, spub), moves));
    hide FreshNonces;
  }
}
