/** `src/payload.rs`: the compact bind payload and its URL. */
module Payload {
  import opened Wrappers
  import opened Bytes
  import opened Utf8
  import opened Seqs

  const VERSION: byte := 2
  const URL_PREFIX := "multiplex://b/"
  const MAX_NAME := 32
  const MAX_ADDRS := 3
  const FLAG_OFFLINE: byte := 1

  type u16 = n: int | 0 <= n < 0x1_0000
  type Bytes4 = s: seq<byte> | |s| == 4 witness [0, 0, 0, 0]
  type Bytes16 = s: seq<byte> | |s| == 16 witness seq(16, _ => 0)
  type Bytes32 = s: seq<byte> | |s| == 32 witness seq(32, _ => 0)

  datatype IpAddr = V4(octets4: Bytes4) | V6(octets16: Bytes16)

  datatype OfflineKey = OfflineKey(
    sshUser: Str,
    sshPort: u16,
    seed: Bytes32,
    authorizedKeys: Option<Str>,
    hostkey: Option<Bytes32>)

  datatype BindPayload = BindPayload(
    addrs: seq<IpAddr>,
    port: u16,
    spub: Bytes32,
    token: Bytes16,
    name: Str,
    offline: Option<OfflineKey>)

  // -- the fields on the wire --

  /** The fields exactly as bytes carry them, before anything is interpreted. */
  datatype Record = Record(
    flags: byte,
    spub: Bytes32,
    token: Bytes16,
    port: u16,
    addrs: seq<IpAddr>,
    name: seq<byte>,
    tail: Option<Tail>)

  datatype Tail = Tail(user: seq<byte>, sshPort: u16, seed: Bytes32, path: seq<byte>, hostkey: Option<Bytes32>)

  /** A length fits its byte. */
  predicate Short(t: seq<byte>) {
    |t| <= 255
  }

  function PrintText(t: seq<byte>): seq<byte>
    requires Short(t)
  {
    [|t| as byte] + t
  }

  function PrintAddr(a: IpAddr): seq<byte> {
    match a
    case V4(o) => [4] + o
    case V6(o) => [6] + o
  }

  function PrintAddrs(addrs: seq<IpAddr>): seq<byte> {
    if addrs == [] then [] else PrintAddr(addrs[0]) + PrintAddrs(addrs[1..])
  }

  function PrintHostkey(k: Option<Bytes32>): seq<byte> {
    match k
    case Some(digest) => [32] + digest
    case None => [0]
  }

  predicate ShortTail(t: Tail) {
    Short(t.user) && Short(t.path)
  }

  function PrintTail(t: Tail): seq<byte>
    requires ShortTail(t)
  {
    PrintText(t.user) + (ToBe(2, t.sshPort) + (t.seed + (PrintText(t.path) + PrintHostkey(t.hostkey))))
  }

  predicate ShortRecord(r: Record) {
    Short(r.name) && |r.addrs| <= MAX_ADDRS && (r.tail.Some? ==> ShortTail(r.tail.value))
  }

  datatype Head = Head(flags: byte, spub: Bytes32, token: Bytes16, port: u16)

  function HeadOf(r: Record): Head {
    Head(r.flags, r.spub, r.token, r.port)
  }

  function PrintHead(head: Head): seq<byte> {
    [VERSION, head.flags] + (head.spub + (head.token + ToBe(2, head.port)))
  }

  function PrintOffline(tail: Option<Tail>): seq<byte>
    requires tail.Some? ==> ShortTail(tail.value)
  {
    if tail.Some? then PrintTail(tail.value) else []
  }

  function Print(r: Record): seq<byte>
    requires ShortRecord(r)
  {
    PrintHead(HeadOf(r)) + ([|r.addrs| as byte] + PrintAddrs(r.addrs) + (PrintText(r.name) + PrintOffline(r.tail)))
  }

  // -- reading them back --

  function Take(b: seq<byte>, count: nat): Option<(seq<byte>, seq<byte>)> {
    if count <= |b| then Some((b[..count], b[count..])) else None
  }

  function TakeU8(b: seq<byte>): Option<(byte, seq<byte>)> {
    if b != [] then Some((b[0], b[1..])) else None
  }

  function TakeU16(b: seq<byte>): (r: Option<(u16, seq<byte>)>)
  {
    var (two, rest) :- Take(b, 2);
    U16Bounds(two);
    Some((FromBe(two), rest))
  }

  lemma U16Bounds(two: seq<byte>)
    requires |two| == 2
    ensures FromBe(two) < 0x1_0000
  {
    ToFromBe(two);
    Pow256Values();
  }

  /** A length byte and that many bytes of valid UTF-8. */
  function TakeText(b: seq<byte>): Option<(seq<byte>, seq<byte>)> {
    var (n, rest) :- TakeU8(b);
    var (t, rest') :- Take(rest, n);
    if ValidUtf8(t) then Some((t, rest')) else None
  }

  function TakeAddr(b: seq<byte>): Option<(IpAddr, seq<byte>)> {
    var (kind, rest) :- TakeU8(b);
    if kind == 4 then
      var (o, rest') :- Take(rest, 4);
      Some((V4(o), rest'))
    else if kind == 6 then
      var (o, rest') :- Take(rest, 16);
      Some((V6(o), rest'))
    else None
  }

  function TakeAddrs(b: seq<byte>, count: nat): Option<(seq<IpAddr>, seq<byte>)> {
    if count == 0 then Some(([], b))
    else
      var (a, rest) :- TakeAddr(b);
      var (more, rest') :- TakeAddrs(rest, count - 1);
      Some(([a] + more, rest'))
  }

  function TakeHostkey(b: seq<byte>): Option<(Option<Bytes32>, seq<byte>)> {
    var (n, rest) :- TakeU8(b);
    if n == 0 then Some((None, rest))
    else if n == 32 then
      var (digest, rest') :- Take(rest, 32);
      Some((Some(digest), rest'))
    else None
  }

  function TakeTail(b: seq<byte>): Option<(Tail, seq<byte>)> {
    var (user, b1) :- TakeText(b);
    var (sshPort, b2) :- TakeU16(b1);
    var (seed, b3) :- Take(b2, 32);
    var (path, b4) :- TakeText(b3);
    var (hostkey, b5) :- TakeHostkey(b4);
    Some((Tail(user, sshPort, seed, path, hostkey), b5))
  }

  function TakeHead(b: seq<byte>): Option<(Head, seq<byte>)> {
    var (version, b1) :- TakeU8(b);
    if version != VERSION then None
    else
      var (flags, b2) :- TakeU8(b1);
      var (spub, b3) :- Take(b2, 32);
      var (token, b4) :- Take(b3, 16);
      var (port, b5) :- TakeU16(b4);
      Some((Head(flags, spub, token, port), b5))
  }

  predicate IsOffline(flags: byte) {
    flags % 2 == FLAG_OFFLINE
  }

  function TakeOffline(flags: byte, b: seq<byte>): Option<(Option<Tail>, seq<byte>)> {
    if IsOffline(flags) then
      var (tail, rest) :- TakeTail(b);
      Some((Some(tail), rest))
    else Some((None, b))
  }

  /** The whole record and what follows it, which decoding ignores. */
  function Parse(b: seq<byte>): Option<(Record, seq<byte>)> {
    var (head, b1) :- TakeHead(b);
    var (count, b2) :- TakeU8(b1);
    if count > MAX_ADDRS then None
    else
      var (addrs, b3) :- TakeAddrs(b2, count);
      var (name, b4) :- TakeText(b3);
      var (tail, b5) :- TakeOffline(head.flags, b4);
      Some((Record(head.flags, head.spub, head.token, head.port, addrs, name, tail), b5))
  }

  ghost predicate LegalTail(t: Tail) {
    ShortTail(t) && ValidUtf8(t.user) && ValidUtf8(t.path)
  }

  ghost predicate Legal(r: Record) {
    && ShortRecord(r) && ValidUtf8(r.name)
    && (r.tail.Some? <==> IsOffline(r.flags))
    && (r.tail.Some? ==> LegalTail(r.tail.value))
  }

  // -- parsing is the exact inverse of printing --

  lemma TakeExact(b: seq<byte>, count: nat, x: seq<byte>, rest: seq<byte>)
    ensures Take(b, count) == Some((x, rest)) <==> |x| == count && b == x + rest
  {
  }

  lemma TakeU8Exact(b: seq<byte>, x: byte, rest: seq<byte>)
    ensures TakeU8(b) == Some((x, rest)) <==> b == [x] + rest
  {
  }

  lemma TakeU16Exact(b: seq<byte>, x: u16, rest: seq<byte>)
    ensures TakeU16(b) == Some((x, rest)) <==> b == ToBe(2, x) + rest
  {
    Pow256Values();
    FromToBe(2, x);
    TakeExact(b, 2, ToBe(2, x), rest);
    if |b| >= 2 {
      ToFromBe(b[..2]);
    }
    hide ToBe;
    hide FromBe;
    hide Pow256;
  }

  lemma TakeTextExact(b: seq<byte>, t: seq<byte>, rest: seq<byte>)
    ensures TakeText(b) == Some((t, rest)) <==> Short(t) && ValidUtf8(t) && b == PrintText(t) + rest
  {
    hide ValidUtf8;
    if b != [] {
      assert b == [b[0]] + b[1..];
      TakeExact(b[1..], b[0], t, rest);
    }
    if Short(t) {
      assert PrintText(t) + rest == [|t| as byte] + (t + rest);
    }
  }

  lemma TakeAddrExact(b: seq<byte>, a: IpAddr, rest: seq<byte>)
    ensures TakeAddr(b) == Some((a, rest)) <==> b == PrintAddr(a) + rest
  {
    if b != [] {
      assert b == [b[0]] + b[1..];
      TakeExact(b[1..], if a.V4? then 4 else 16, if a.V4? then a.octets4 else a.octets16, rest);
    }
    if a.V4? {
      Assoc([4], a.octets4, rest);
    } else {
      Assoc([6], a.octets16, rest);
    }
  }

  lemma {:induction false} TakeAddrsExact(b: seq<byte>, count: nat, addrs: seq<IpAddr>, rest: seq<byte>)
    ensures TakeAddrs(b, count) == Some((addrs, rest)) <==> |addrs| == count && b == PrintAddrs(addrs) + rest
    decreases count
  {
    if count == 0 {
      if addrs == [] {
        assert PrintAddrs(addrs) + rest == rest;
      }
    } else if addrs == [] {
    } else {
      var more := PrintAddrs(addrs[1..]) + rest;
      Assoc(PrintAddr(addrs[0]), PrintAddrs(addrs[1..]), rest);
      TakeAddrExact(b, addrs[0], more);
      TakeAddrsExact(more, count - 1, addrs[1..], rest);
      if TakeAddrs(b, count) == Some((addrs, rest)) {
        var (a, after) := TakeAddr(b).value;
        assert addrs[0] == a;
        TakeAddrExact(b, a, after);
        TakeAddrsExact(after, count - 1, addrs[1..], rest);
      }
      assert addrs == [addrs[0]] + addrs[1..];
    }
  }

  lemma TakeHostkeyExact(b: seq<byte>, k: Option<Bytes32>, rest: seq<byte>)
    ensures TakeHostkey(b) == Some((k, rest)) <==> b == PrintHostkey(k) + rest
  {
    if b != [] {
      assert b == [b[0]] + b[1..];
      if k.Some? {
        TakeExact(b[1..], 32, k.value, rest);
      }
    }
    if k.Some? {
      Assoc([32], k.value, rest);
    }
  }

  lemma Chain4(a: seq<byte>, b: seq<byte>, c: seq<byte>, d: seq<byte>, rest: seq<byte>)
    ensures (a + (b + (c + d))) + rest == a + (b + (c + (d + rest)))
  {
    Assoc(a, b + (c + d), rest);
    Assoc(b, c + d, rest);
    Assoc(c, d, rest);
  }

  lemma Chain5(a: seq<byte>, b: seq<byte>, c: seq<byte>, d: seq<byte>, e: seq<byte>, rest: seq<byte>)
    ensures (a + (b + (c + (d + e)))) + rest == a + (b + (c + (d + (e + rest))))
  {
    Assoc(a, b + (c + (d + e)), rest);
    Chain4(b, c, d, e, rest);
  }

  lemma TakeTailSound(b: seq<byte>, t: Tail, rest: seq<byte>)
    requires TakeTail(b) == Some((t, rest))
    ensures LegalTail(t) && b == PrintTail(t) + rest
  {
    hide TakeText;
    hide TakeU16;
    hide TakeHostkey;
    hide PrintText;
    hide PrintHostkey;
    hide ToBe;
    hide ValidUtf8;
    var (_, b1) := TakeText(b).value;
    var (_, b2) := TakeU16(b1).value;
    var (_, b3) := Take(b2, 32).value;
    var (_, b4) := TakeText(b3).value;
    TakeTextExact(b, t.user, b1);
    TakeU16Exact(b1, t.sshPort, b2);
    TakeExact(b2, 32, t.seed, b3);
    TakeTextExact(b3, t.path, b4);
    var (key, last) := TakeHostkey(b4).value;
    assert key == t.hostkey && last == rest;
    TakeHostkeyExact(b4, key, last);
    hide Take;
    Rebuild5(b, PrintText(t.user), b1, ToBe(2, t.sshPort), b2, t.seed, b3, PrintText(t.path), b4,
             PrintHostkey(t.hostkey), rest);
  }

  lemma Rebuild5(b: seq<byte>, x1: seq<byte>, b1: seq<byte>, x2: seq<byte>, b2: seq<byte>, x3: seq<byte>,
                 b3: seq<byte>, x4: seq<byte>, b4: seq<byte>, x5: seq<byte>, rest: seq<byte>)
    requires b == x1 + b1 && b1 == x2 + b2 && b2 == x3 + b3 && b3 == x4 + b4 && b4 == x5 + rest
    ensures b == (x1 + (x2 + (x3 + (x4 + x5)))) + rest
  {
    Chain5(x1, x2, x3, x4, x5, rest);
  }

  lemma TakeTailComplete(t: Tail, rest: seq<byte>)
    requires LegalTail(t)
    ensures TakeTail(PrintTail(t) + rest) == Some((t, rest))
  {
    var user, port, path, key := PrintText(t.user), ToBe(2, t.sshPort), PrintText(t.path), PrintHostkey(t.hostkey);
    hide PrintText;
    hide PrintHostkey;
    hide ToBe;
    hide ValidUtf8;
    Chain5(user, port, t.seed, path, key, rest);
    TakeTextExact(user + (port + (t.seed + (path + (key + rest)))), t.user, port + (t.seed + (path + (key + rest))));
    TakeU16Exact(port + (t.seed + (path + (key + rest))), t.sshPort, t.seed + (path + (key + rest)));
    TakeExact(t.seed + (path + (key + rest)), 32, t.seed, path + (key + rest));
    TakeTextExact(path + (key + rest), t.path, key + rest);
    TakeHostkeyExact(key + rest, t.hostkey, rest);
    hide TakeText;
    hide TakeU16;
    hide TakeHostkey;
    hide Take;
  }

  /** A tail whose user or path is not valid UTF-8 is refused. */
  lemma TakeTailRefuses(t: Tail, rest: seq<byte>)
    requires ShortTail(t) && !LegalTail(t)
    ensures TakeTail(PrintTail(t) + rest) == None
  {
    var user, port, path, key := PrintText(t.user), ToBe(2, t.sshPort), PrintText(t.path), PrintHostkey(t.hostkey);
    hide ValidUtf8;
    Chain5(user, port, t.seed, path, key, rest);
    var b1 := port + (t.seed + (path + (key + rest)));
    var b3 := path + (key + rest);
    if !ValidUtf8(t.user) {
      TakeTextRefuses(t.user, b1);
    } else {
      TakeTextExact(user + b1, t.user, b1);
      TakeU16Exact(b1, t.sshPort, t.seed + b3);
      TakeExact(t.seed + b3, 32, t.seed, b3);
      TakeTextRefuses(t.path, key + rest);
    }
    hide TakeText;
    hide TakeU16;
    hide TakeHostkey;
    hide Take;
    hide PrintText;
    hide PrintHostkey;
    hide ToBe;
  }

  lemma TakeTextRefuses(t: seq<byte>, rest: seq<byte>)
    requires Short(t) && !ValidUtf8(t)
    ensures TakeText(PrintText(t) + rest) == None
  {
    hide ValidUtf8;
    var b := PrintText(t) + rest;
    assert b[1..] == t + rest;
    TakeExact(b[1..], |t|, t, rest);
  }

  lemma HeadChain(head: Head, rest: seq<byte>)
    ensures ([VERSION, head.flags] + (head.spub + (head.token + ToBe(2, head.port)))) + rest
         == [VERSION] + ([head.flags] + (head.spub + (head.token + (ToBe(2, head.port) + rest))))
  {
    hide ToBe;
    Chain4([VERSION, head.flags], head.spub, head.token, ToBe(2, head.port), rest);
    var after := head.spub + (head.token + (ToBe(2, head.port) + rest));
    assert [VERSION, head.flags] + after == [VERSION] + ([head.flags] + after);
  }

  lemma TakeHeadSound(b: seq<byte>, head: Head, rest: seq<byte>)
    requires TakeHead(b) == Some((head, rest))
    ensures b == PrintHead(head) + rest
  {
    hide TakeU16;
    hide ToBe;
    var (_, b1) := TakeU8(b).value;
    var (_, b2) := TakeU8(b1).value;
    var (_, b3) := Take(b2, 32).value;
    var (_, b4) := Take(b3, 16).value;
    TakeU8Exact(b, VERSION, b1);
    TakeU8Exact(b1, head.flags, b2);
    TakeExact(b2, 32, head.spub, b3);
    TakeExact(b3, 16, head.token, b4);
    var (port, last) := TakeU16(b4).value;
    assert port == head.port && last == rest;
    TakeU16Exact(b4, port, last);
    hide Take;
    hide TakeU8;
    RebuildHead(b, b1, b2, b3, b4, head, rest);
  }

  lemma RebuildHead(b: seq<byte>, b1: seq<byte>, b2: seq<byte>, b3: seq<byte>, b4: seq<byte>, head: Head,
                    rest: seq<byte>)
    requires b == [VERSION] + b1 && b1 == [head.flags] + b2 && b2 == head.spub + b3 && b3 == head.token + b4
    requires b4 == ToBe(2, head.port) + rest
    ensures b == PrintHead(head) + rest
  {
    HeadChain(head, rest);
    hide ToBe;
  }

  lemma TakeHeadComplete(head: Head, rest: seq<byte>)
    ensures TakeHead(PrintHead(head) + rest) == Some((head, rest))
  {
    hide TakeU16;
    hide ToBe;
    HeadChain(head, rest);
    var port := ToBe(2, head.port);
    var b3 := head.token + (port + rest);
    TakeU8Exact([VERSION] + ([head.flags] + (head.spub + b3)), VERSION, [head.flags] + (head.spub + b3));
    TakeU8Exact([head.flags] + (head.spub + b3), head.flags, head.spub + b3);
    TakeExact(head.spub + b3, 32, head.spub, b3);
    TakeExact(b3, 16, head.token, port + rest);
    TakeU16Exact(port + rest, head.port, rest);
    hide Take;
    hide TakeU8;
  }

  lemma TakeOfflineSound(flags: byte, b: seq<byte>, tail: Option<Tail>, rest: seq<byte>)
    requires TakeOffline(flags, b) == Some((tail, rest))
    ensures tail.Some? <==> IsOffline(flags)
    ensures tail.Some? ==> LegalTail(tail.value)
    ensures b == PrintOffline(tail) + rest
  {
    hide TakeTail;
    hide PrintTail;
    hide LegalTail;
    if IsOffline(flags) {
      var (t, last) := TakeTail(b).value;
      assert tail == Some(t) && last == rest;
      TakeTailSound(b, t, last);
    } else {
      assert [] + rest == rest;
    }
  }

  lemma TakeOfflineComplete(flags: byte, tail: Option<Tail>, rest: seq<byte>)
    requires (tail.Some? <==> IsOffline(flags)) && (tail.Some? ==> LegalTail(tail.value))
    ensures TakeOffline(flags, PrintOffline(tail) + rest) == Some((tail, rest))
  {
    if tail.Some? {
      TakeTailComplete(tail.value, rest);
    } else {
      assert [] + rest == rest;
    }
    hide TakeTail;
    hide PrintTail;
    hide LegalTail;
  }

  lemma PrintChain(r: Record, rest: seq<byte>)
    requires ShortRecord(r)
    ensures Print(r) + rest
         == PrintHead(HeadOf(r))
            + ([|r.addrs| as byte] + (PrintAddrs(r.addrs) + (PrintText(r.name) + (PrintOffline(r.tail) + rest))))
  {
    hide PrintText;
    hide PrintAddrs;
    hide PrintOffline;
    hide ToBe;
    var count: seq<byte> := [|r.addrs| as byte];
    var addrs, name, tail := PrintAddrs(r.addrs), PrintText(r.name), PrintOffline(r.tail);
    hide PrintHead;
    Assoc(count, addrs, name + tail);
    Chain5(PrintHead(HeadOf(r)), count, addrs, name, tail, rest);
  }

  /** Parsing finds exactly what was printed: a legal record in front of anything. */
  lemma ParseExact(b: seq<byte>, r: Record, rest: seq<byte>)
    ensures Parse(b) == Some((r, rest)) <==> Legal(r) && b == Print(r) + rest
  {
    if Parse(b) == Some((r, rest)) {
      ParseSound(b, r, rest);
    }
    if Legal(r) {
      ParseComplete(r, rest);
    }
    hide Parse;
    hide Print;
    hide Legal;
  }

  lemma ParseSound(b: seq<byte>, r: Record, rest: seq<byte>)
    requires Parse(b) == Some((r, rest))
    ensures Legal(r) && b == Print(r) + rest
  {
    hide TakeHead;
    hide TakeAddrs;
    hide TakeText;
    hide TakeOffline;
    hide PrintOffline;
    hide PrintText;
    hide PrintAddrs;
    hide LegalTail;
    hide ValidUtf8;
    var (head, b1) := TakeHead(b).value;
    var (count, b2) := TakeU8(b1).value;
    var (_, b3) := TakeAddrs(b2, count).value;
    var (_, b4) := TakeText(b3).value;
    TakeHeadSound(b, head, b1);
    TakeU8Exact(b1, count, b2);
    TakeAddrsExact(b2, count, r.addrs, b3);
    TakeTextExact(b3, r.name, b4);
    var (tail, last) := TakeOffline(head.flags, b4).value;
    assert tail == r.tail && last == rest && head == HeadOf(r);
    TakeOfflineSound(head.flags, b4, tail, last);
    TailIsShort(r.tail);
    RebuildRecord(b, b1, b2, b3, b4, r, rest);
    hide Print;
    hide PrintHead;
  }

  lemma RebuildRecord(b: seq<byte>, b1: seq<byte>, b2: seq<byte>, b3: seq<byte>, b4: seq<byte>, r: Record,
                      rest: seq<byte>)
    requires ShortRecord(r)
    requires b == PrintHead(HeadOf(r)) + b1 && b1 == [|r.addrs| as byte] + b2 && b2 == PrintAddrs(r.addrs) + b3
    requires b3 == PrintText(r.name) + b4 && b4 == PrintOffline(r.tail) + rest
    ensures b == Print(r) + rest
  {
    PrintChain(r, rest);
    hide Print;
    hide PrintHead;
    hide PrintAddrs;
    hide PrintText;
    hide PrintOffline;
  }

  lemma TailIsShort(tail: Option<Tail>)
    ensures tail.Some? && LegalTail(tail.value) ==> ShortTail(tail.value)
  {
  }

  lemma ParseComplete(r: Record, rest: seq<byte>)
    requires Legal(r)
    ensures Parse(Print(r) + rest) == Some((r, rest))
  {
    hide TakeHead;
    hide TakeAddrs;
    hide TakeText;
    hide TakeOffline;
    hide PrintOffline;
    hide PrintText;
    hide PrintAddrs;
    hide PrintHead;
    hide LegalTail;
    hide ValidUtf8;
    PrintChain(r, rest);
    hide Print;
    var b4 := PrintOffline(r.tail) + rest;
    var b3 := PrintText(r.name) + b4;
    var b2 := PrintAddrs(r.addrs) + b3;
    var b1 := [|r.addrs| as byte] + b2;
    TakeHeadComplete(HeadOf(r), b1);
    TakeU8Exact(b1, |r.addrs|, b2);
    TakeAddrsExact(b2, |r.addrs|, r.addrs, b3);
    TakeTextExact(b3, r.name, b4);
    TakeOfflineComplete(r.flags, r.tail, rest);
    hide TakeU8;
  }
}
