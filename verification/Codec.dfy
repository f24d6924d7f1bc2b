/** `Payload::encode`, `decode`, `to_url` and `from_url` as the source runs them, and what they
    guarantee together. */
module Codec {
  import opened Wrappers
  import opened Numbers
  import opened Bytes
  import opened Utf8
  import opened Seqs
  import opened Util
  import opened Payload

  // -- encode --

  /** Steps back from `end` to a character boundary. */
  function NameEnd(name: seq<byte>, end: nat): (e: nat)
    requires end <= |name|
    ensures e <= end && Boundary(name, e)
  {
    if end == 0 || Boundary(name, end) then end else NameEnd(name, end - 1)
  }

  function TruncatedName(name: seq<byte>): seq<byte> {
    name[..NameEnd(name, Min(|name|, MAX_NAME))]
  }

  /** At most 255 bytes, cut without regard to characters. */
  function Clip(t: seq<byte>): (r: seq<byte>)
    ensures Short(r)
  {
    t[..Min(|t|, 255)]
  }

  function KeptAddrs(addrs: seq<IpAddr>): seq<IpAddr> {
    addrs[..Min(|addrs|, MAX_ADDRS)]
  }

  function PathBytes(o: OfflineKey): seq<byte> {
    if o.authorizedKeys.Some? then o.authorizedKeys.value else []
  }

  function TailOf(o: OfflineKey): Tail {
    Tail(Clip(o.sshUser), o.sshPort, o.seed, Clip(PathBytes(o)), o.hostkey)
  }

  function RecordOf(p: BindPayload): (r: Record)
    ensures ShortRecord(r)
  {
    Record(if p.offline.Some? then FLAG_OFFLINE else 0, p.spub, p.token, p.port, KeptAddrs(p.addrs),
           TruncatedName(p.name), if p.offline.Some? then Some(TailOf(p.offline.value)) else None)
  }

  function Encode(p: BindPayload): seq<byte> {
    Print(RecordOf(p))
  }

  method TruncateName(name: seq<byte>) returns (r: seq<byte>)
    ensures r == TruncatedName(name)
  {
    var end := Min(|name|, MAX_NAME);
    while end > 0 && !Boundary(name, end)
      invariant 0 <= end <= |name|
      invariant NameEnd(name, end) == NameEnd(name, Min(|name|, MAX_NAME))
    {
      end := end - 1;
    }
    r := name[..end];
  }

  /** The encoder as written: pushes in order, a loop over the addresses. */
  method EncodePayload(p: BindPayload) returns (out: seq<byte>)
    ensures out == Encode(p)
  {
    var r := RecordOf(p);
    out := [VERSION, if p.offline.Some? then FLAG_OFFLINE else 0];
    out := out + p.spub;
    out := out + p.token;
    out := out + ToBe(2, p.port);
    assert out == PrintHead(HeadOf(r));
    hide ToBe;
    hide PrintHead;
    hide TruncatedName;
    var addrs := KeptAddrs(p.addrs);
    out := out + [|addrs| as byte];
    ghost var start := out;
    var i := 0;
    while i < |addrs|
      invariant 0 <= i <= |addrs|
      invariant out == start + PrintAddrs(addrs[..i])
    {
      assert addrs[..i + 1] == addrs[..i] + [addrs[i]];
      PrintAddrsSnoc(addrs[..i], addrs[i]);
      Assoc(start, PrintAddrs(addrs[..i]), PrintAddr(addrs[i]));
      match addrs[i] {
        case V4(o) => out := out + ([4] + o);
        case V6(o) => out := out + ([6] + o);
      }
      i := i + 1;
    }
    assert addrs[..i] == addrs;
    hide PrintAddrs;
    var name := TruncateName(p.name);
    out := out + ([|name| as byte] + name);
    ghost var before := out;
    assert before == PrintHead(HeadOf(r)) + [|addrs| as byte] + PrintAddrs(addrs) + PrintText(r.name);
    if p.offline.Some? {
      var o := p.offline.value;
      var user := Clip(o.sshUser);
      out := out + ([|user| as byte] + user);
      out := out + ToBe(2, o.sshPort);
      out := out + o.seed;
      var path := Clip(PathBytes(o));
      out := out + ([|path| as byte] + path);
      match o.hostkey {
        case Some(digest) => out := out + ([32] + digest);
        case None => out := out + [0];
      }
      PushedTail(before, TailOf(o));
    }
    PushedRecord(r);
    assert before + [] == before;
    hide Print;
    hide PrintText;
  }

  lemma {:induction false} PrintAddrsSnoc(addrs: seq<IpAddr>, a: IpAddr)
    ensures PrintAddrs(addrs + [a]) == PrintAddrs(addrs) + PrintAddr(a)
  {
    if addrs == [] {
      assert addrs + [a] == [a];
      assert PrintAddrs([a]) == PrintAddr(a) + [];
    } else {
      assert (addrs + [a])[1..] == addrs[1..] + [a];
      PrintAddrsSnoc(addrs[1..], a);
      Assoc(PrintAddr(addrs[0]), PrintAddrs(addrs[1..]), PrintAddr(a));
    }
  }

  lemma PushedTail(out: seq<byte>, t: Tail)
    requires ShortTail(t)
    ensures out + PrintText(t.user) + ToBe(2, t.sshPort) + t.seed + PrintText(t.path) + PrintHostkey(t.hostkey)
         == out + PrintTail(t)
  {
    hide ToBe;
    hide PrintText;
    hide PrintHostkey;
    Pushed5(out, PrintText(t.user), ToBe(2, t.sshPort), t.seed, PrintText(t.path), PrintHostkey(t.hostkey));
  }

  lemma Pushed5(out: seq<byte>, a: seq<byte>, b: seq<byte>, c: seq<byte>, d: seq<byte>, e: seq<byte>)
    ensures out + a + b + c + d + e == out + (a + (b + (c + (d + e))))
  {
    Assoc(out + a + b + c, d, e);
    Assoc(out + a + b, c, d + e);
    Assoc(out + a, b, c + (d + e));
    Assoc(out, a, b + (c + (d + e)));
  }

  lemma PushedRecord(r: Record)
    requires ShortRecord(r)
    ensures Print(r) == PrintHead(HeadOf(r)) + [|r.addrs| as byte] + PrintAddrs(r.addrs) + PrintText(r.name)
                        + PrintOffline(r.tail)
  {
    hide PrintHead;
    hide PrintText;
    hide PrintOffline;
    hide PrintAddrs;
    var count: seq<byte> := [|r.addrs| as byte];
    var head, addrs, name, tail := PrintHead(HeadOf(r)), PrintAddrs(r.addrs), PrintText(r.name), PrintOffline(r.tail);
    Assoc(head + count + addrs, name, tail);
    Assoc(head, count, addrs);
    Assoc(head, count + addrs, name + tail);
  }

  // -- decode --

  function OfflineOf(t: Tail): OfflineKey
    requires LegalTail(t)
  {
    OfflineKey(t.user, t.sshPort, t.seed, if t.path == [] then None else Some(t.path), t.hostkey)
  }

  function PayloadOf(r: Record): BindPayload
    requires Legal(r)
  {
    BindPayload(r.addrs, r.port, r.spub, r.token, r.name, if r.tail.Some? then Some(OfflineOf(r.tail.value)) else None)
  }

  function Decode(b: seq<byte>): Option<BindPayload> {
    var (r, rest) :- Parse(b);
    ParseSound(b, r, rest);
    Some(PayloadOf(r))
  }

  /** The cursor. */
  class Reader {
    const bytes: seq<byte>
    var index: nat

    ghost predicate Valid()
      reads this
    {
      index <= |bytes|
    }

    ghost function Rest(): seq<byte>
      reads this
      requires Valid()
    {
      bytes[index..]
    }

    constructor (bytes: seq<byte>)
      ensures Valid() && Rest() == bytes
    {
      this.bytes := bytes;
      this.index := 0;
    }

    method TakeBytes(count: nat) returns (r: Option<seq<byte>>)
      requires Valid()
      modifies this
      ensures Valid()
      ensures Take(old(Rest()), count) == if r.Some? then Some((r.value, Rest())) else None
    {
      var end := index + count;
      if end > |bytes| {
        return None;
      }
      var slice := bytes[index..end];
      assert slice == Rest()[..count] && bytes[end..] == Rest()[count..];
      index := end;
      r := Some(slice);
    }

    method U8() returns (r: Option<byte>)
      requires Valid()
      modifies this
      ensures Valid()
      ensures TakeU8(old(Rest())) == if r.Some? then Some((r.value, Rest())) else None
    {
      var one :- TakeBytes(1);
      r := Some(one[0]);
    }

    method U16() returns (r: Option<u16>)
      requires Valid()
      modifies this
      ensures Valid()
      ensures TakeU16(old(Rest())) == if r.Some? then Some((r.value, Rest())) else None
    {
      hide FromBe;
      var two :- TakeBytes(2);
      U16Bounds(two);
      r := Some(FromBe(two));
    }

    method Text() returns (r: Option<seq<byte>>)
      requires Valid()
      modifies this
      ensures Valid()
      ensures r.Some? ==> TakeText(old(Rest())) == Some((r.value, Rest()))
      ensures r.None? ==> TakeText(old(Rest())) == None
    {
      hide ValidUtf8;
      var n :- U8();
      var t :- TakeBytes(n);
      if !ValidUtf8(t) {
        return None;
      }
      r := Some(t);
    }

    /** The loop over the addresses. */
    method Addrs(count: nat) returns (r: Option<seq<IpAddr>>)
      requires Valid()
      modifies this
      ensures Valid()
      ensures r.Some? ==> TakeAddrs(old(Rest()), count) == Some((r.value, Rest()))
      ensures r.None? ==> TakeAddrs(old(Rest()), count) == None
    {
      var addrs: seq<IpAddr> := [];
      var i := 0;
      assert TakenAfter(addrs, TakeAddrs(Rest(), count)) == TakeAddrs(Rest(), count) by {
        TakenAfterNone(TakeAddrs(Rest(), count));
      }
      while i < count
        invariant 0 <= i <= count && Valid()
        invariant TakeAddrs(old(Rest()), count) == TakenAfter(addrs, TakeAddrs(Rest(), count - i))
      {
        ghost var before := Rest();
        var kind := U8();
        if kind.None? {
          return None;
        }
        var a: IpAddr;
        if kind.value == 4 {
          var o := TakeBytes(4);
          if o.None? {
            return None;
          }
          a := V4(o.value);
        } else if kind.value == 6 {
          var o := TakeBytes(16);
          if o.None? {
            return None;
          }
          a := V6(o.value);
        } else {
          return None;
        }
        assert TakeAddr(before) == Some((a, Rest()));
        hide TakeAddr;
        TakenAfterStep(addrs, a, TakeAddrs(Rest(), count - i - 1));
        addrs := addrs + [a];
        i := i + 1;
      }
      assert addrs + [] == addrs;
      r := Some(addrs);
    }
  }

  function TakenAfter(done: seq<IpAddr>, rest: Option<(seq<IpAddr>, seq<byte>)>): Option<(seq<IpAddr>, seq<byte>)> {
    match rest
    case Some((more, b)) => Some((done + more, b))
    case None => None
  }

  lemma TakenAfterNone(rest: Option<(seq<IpAddr>, seq<byte>)>)
    ensures TakenAfter([], rest) == rest
  {
    if rest.Some? {
      assert [] + rest.value.0 == rest.value.0;
    }
  }

  lemma TakenAfterStep(done: seq<IpAddr>, a: IpAddr, rest: Option<(seq<IpAddr>, seq<byte>)>)
    ensures TakenAfter(done, TakenAfter([a], rest)) == TakenAfter(done + [a], rest)
  {
    if rest.Some? {
      Assoc(done, [a], rest.value.0);
    }
  }

  /** The decoder as written. */
  method DecodePayload(bytes: seq<byte>) returns (r: Option<BindPayload>)
    ensures r == Decode(bytes)
  {
    hide TakeText;
    hide TakeAddrs;
    hide TakeU16;
    hide ValidUtf8;
    var reader := new Reader(bytes);
    var version :- reader.U8();
    if version != VERSION {
      return None;
    }
    var flags :- reader.U8();
    var spub :- reader.TakeBytes(32);
    var token :- reader.TakeBytes(16);
    var port :- reader.U16();
    assert TakeHead(bytes) == Some((Head(flags, spub, token, port), reader.Rest()));
    hide TakeHead;
    var count :- reader.U8();
    if count > MAX_ADDRS {
      return None;
    }
    var addrs :- reader.Addrs(count);
    var name :- reader.Text();
    ghost var afterName := reader.Rest();
    var tail: Option<Tail> := None;
    if IsOffline(flags) {
      tail := DecodeTail(reader);
      if tail.None? {
        return None;
      }
    }
    var record := Record(flags, spub, token, port, addrs, name, tail);
    assert TakeOffline(flags, afterName) == Some((tail, reader.Rest()));
    hide TakeOffline;
    assert Parse(bytes) == Some((record, reader.Rest()));
    ParseSound(bytes, record, reader.Rest());
    r := Some(PayloadOf(record));
  }

  /** The offline part of the decoder. */
  method DecodeTail(reader: Reader) returns (r: Option<Tail>)
    requires reader.Valid()
    modifies reader
    ensures reader.Valid()
    ensures r.Some? ==> TakeTail(old(reader.Rest())) == Some((r.value, reader.Rest()))
    ensures r.None? ==> TakeTail(old(reader.Rest())) == None
  {
    hide TakeText;
    hide TakeU16;
    var user :- reader.Text();
    var sshPort :- reader.U16();
    var seed :- reader.TakeBytes(32);
    var path :- reader.Text();
    ghost var b4 := reader.Rest();
    var size :- reader.U8();
    var hostkey: Option<Bytes32> := None;
    if size == 32 {
      var digest := reader.TakeBytes(32);
      if digest.None? {
        return None;
      }
      hostkey := Some(digest.value);
    } else if size != 0 {
      return None;
    }
    assert TakeHostkey(b4) == Some((hostkey, reader.Rest()));
    hide TakeHostkey;
    r := Some(Tail(user, sshPort, seed, path, hostkey));
  }

  // -- what the codec guarantees --

  /** The blind cuts at 255 bytes fall between characters. */
  predicate CutsClean(p: BindPayload) {
    p.offline.Some? ==>
      && Boundary(p.offline.value.sshUser, Min(|p.offline.value.sshUser|, 255))
      && Boundary(PathBytes(p.offline.value), Min(|PathBytes(p.offline.value)|, 255))
  }

  lemma {:induction false} NothingBetween(name: seq<byte>, end: nat, k: nat)
    requires end <= |name| && NameEnd(name, end) < k <= end
    ensures !Boundary(name, k)
  {
    if k < end {
      NothingBetween(name, end - 1, k);
    }
  }

  /** The name sent is the longest prefix of whole characters that fits 32 bytes. */
  lemma TruncatedNameIsLongest(name: Str, k: nat)
    requires k <= |name|
    ensures TruncatedName(name) <= name && ValidUtf8(TruncatedName(name)) && |TruncatedName(name)| <= 32
    ensures k <= 32 && ValidUtf8(name[..k]) ==> k <= |TruncatedName(name)|
  {
    hide ValidUtf8;
    CutIsValid(name, NameEnd(name, Min(|name|, MAX_NAME)));
    CutIsValid(name, k);
    if NameEnd(name, Min(|name|, MAX_NAME)) < k <= MAX_NAME {
      NothingBetween(name, Min(|name|, MAX_NAME), k);
    }
  }

  lemma ClipIsValid(t: Str)
    ensures ValidUtf8(Clip(t)) <==> Boundary(t, Min(|t|, 255))
  {
    hide ValidUtf8;
    CutIsValid(t, Min(|t|, 255));
  }

  lemma RecordIsLegal(p: BindPayload)
    ensures Legal(RecordOf(p)) <==> CutsClean(p)
    ensures ValidUtf8(RecordOf(p).name)
  {
    TruncatedNameIsLongest(p.name, 0);
    if p.offline.Some? {
      ClipIsValid(p.offline.value.sshUser);
      PathIsText(p.offline.value);
      ClipIsValid(PathBytes(p.offline.value));
    }
    hide ValidUtf8;
    hide TruncatedName;
    hide Clip;
    hide PathBytes;
    hide Boundary;
  }

  lemma PathIsText(o: OfflineKey)
    ensures ValidUtf8(PathBytes(o))
  {
  }

  /** What survives a trip through the bytes. */
  function Norm(p: BindPayload): BindPayload
    requires CutsClean(p)
  {
    RecordIsLegal(p);
    BindPayload(KeptAddrs(p.addrs), p.port, p.spub, p.token, TruncatedName(p.name),
                if p.offline.Some? then Some(NormOffline(p.offline.value)) else None)
  }

  function NormOffline(o: OfflineKey): OfflineKey
    requires ValidUtf8(Clip(o.sshUser)) && ValidUtf8(Clip(PathBytes(o)))
  {
    OfflineKey(Clip(o.sshUser), o.sshPort, o.seed, if Clip(PathBytes(o)) == [] then None else Some(Clip(PathBytes(o))),
               o.hostkey)
  }

  /** A record whose offline part holds broken text parses to nothing. */
  lemma ParseRefuses(r: Record, rest: seq<byte>)
    requires ShortRecord(r) && ValidUtf8(r.name) && r.tail.Some? && IsOffline(r.flags) && !LegalTail(r.tail.value)
    ensures Parse(Print(r) + rest) == None
  {
    hide TakeHead;
    hide TakeAddrs;
    hide TakeText;
    hide PrintText;
    hide PrintAddrs;
    hide PrintHead;
    hide PrintTail;
    hide TakeTail;
    hide LegalTail;
    hide ValidUtf8;
    PrintChain(r, rest);
    hide Print;
    var b4 := PrintOffline(r.tail) + rest;
    var b3 := PrintText(r.name) + b4;
    var b2 := PrintAddrs(r.addrs) + b3;
    var b1 := [|r.addrs| as byte] + b2;
    TakeHeadComplete(HeadOf(r), b1);
    TakeU8Exact(b1, |r.addrs|, b2);
    TakeAddrsExact(b2, |r.addrs|, r.addrs, b3);
    TakeTextExact(b3, r.name, b4);
    TakeTailRefuses(r.tail.value, rest);
    hide TakeU8;
  }

  /** Decoding what was encoded, with anything after it: the normal form when the blind cuts fall
      between characters, and otherwise nothing. */
  lemma DecodeOfEncode(p: BindPayload, junk: seq<byte>)
    ensures Decode(Encode(p) + junk) == if CutsClean(p) then Some(Norm(p)) else None
  {
    var r := RecordOf(p);
    RecordIsLegal(p);
    if CutsClean(p) {
      ParseComplete(r, junk);
      hide Parse;
      hide Print;
      hide TruncatedName;
      hide ValidUtf8;
      hide KeptAddrs;
    } else {
      BrokenTail(p);
      ParseRefuses(r, junk);
      hide Parse;
      hide Print;
    }
  }

  /** There are payloads whose cut splits a character: 254 ASCII letters and one of two bytes. */
  lemma CutMaySplitACharacter(p: BindPayload, o: OfflineKey) returns (user: Str)
    ensures user == seq(254, _ => 0x61) + [0xC3, 0xA9]
    ensures var q := p.(offline := Some(o.(sshUser := user))); !CutsClean(q) && Decode(Encode(q)) == None
  {
    LettersAreText(254, [0xC3, 0xA9]);
    user := seq(254, _ => 0x61) + [0xC3, 0xA9];
    var q := p.(offline := Some(o.(sshUser := user)));
    DecodeOfEncode(q, []);
    hide Decode;
    hide Encode;
    hide ValidUtf8;
    assert Encode(q) + [] == Encode(q);
  }

  lemma {:induction false} LettersAreText(count: nat, rest: Str)
    ensures ValidUtf8(seq(count, _ => 0x61) + rest)
  {
    var s := seq(count, _ => 0x61) + rest;
    if count == 0 {
      assert s == rest;
    } else {
      LettersAreText(count - 1, rest);
      assert s[1..] == seq(count - 1, _ => 0x61) + rest;
    }
  }

  lemma BrokenTail(p: BindPayload)
    requires !CutsClean(p)
    ensures RecordOf(p).tail.Some? && IsOffline(RecordOf(p).flags) && !LegalTail(RecordOf(p).tail.value)
    ensures ValidUtf8(RecordOf(p).name)
  {
    RecordIsLegal(p);
    hide ValidUtf8;
    hide TruncatedName;
    hide Clip;
    hide PathBytes;
  }

  /** Decoding ignores whatever follows the bytes it consumed. */
  lemma DecodeIgnoresWhatFollows(b: seq<byte>, junk: seq<byte>)
    requires Decode(b).Some?
    ensures Decode(b + junk) == Decode(b)
    ensures Parse(b + junk).Some? && Parse(b + junk).value.0 == Parse(b).value.0
  {
    var (r, rest) := Parse(b).value;
    ParseSound(b, r, rest);
    Assoc(Print(r), rest, junk);
    ParseComplete(r, rest + junk);
    hide Parse;
    hide Print;
    hide PayloadOf;
    hide Legal;
  }

  /** An encoding that decodes is consumed whole, as the record it was printed from. */
  lemma EncodedIsConsumed(p: BindPayload)
    requires Decode(Encode(p)).Some?
    ensures Parse(Encode(p)) == Some((RecordOf(p), []))
  {
    hide Parse;
    hide Print;
    hide CutsClean;
    hide Norm;
    assert Encode(p) + [] == Encode(p);
    DecodeOfEncode(p, []);
    RecordIsLegal(p);
    ParseComplete(RecordOf(p), []);
    hide RecordOf;
  }

  /** A prefix of an encoding that decodes is the whole encoding. */
  lemma DecodablePrefixIsWhole(p: BindPayload, cut: nat)
    requires cut <= |Encode(p)| && Decode(Encode(p)[..cut]).Some?
    ensures cut == |Encode(p)|
  {
    hide Parse;
    hide Print;
    hide CutsClean;
    var b, q := Encode(p), Encode(p)[..cut];
    var (r, rest) := Parse(q).value;
    ParseSound(q, r, rest);
    DecodeIgnoresWhatFollows(q, b[cut..]);
    assert q + b[cut..] == b;
    assert Decode(b).Some? && Parse(b).value.0 == r;
    hide Decode;
    hide PayloadOf;
    hide Legal;
    EncodedIsConsumed(p);
    assert r == RecordOf(p);
    hide RecordOf;
  }

  /** No proper prefix of an encoding decodes, whatever the payload. */
  lemma EncodingIsPrefixFree(p: BindPayload, cut: nat)
    requires cut < |Encode(p)|
    ensures Decode(Encode(p)[..cut]) == None
  {
    hide Decode;
    hide Encode;
    if Decode(Encode(p)[..cut]).Some? {
      DecodablePrefixIsWhole(p, cut);
    }
  }

  function AddrBytes(addrs: seq<IpAddr>): nat {
    if addrs == [] then 0 else (if addrs[0].V4? then 5 else 17) + AddrBytes(addrs[1..])
  }

  lemma {:induction false} AddrBytesExact(addrs: seq<IpAddr>)
    ensures |PrintAddrs(addrs)| == AddrBytes(addrs) <= 17 * |addrs|
  {
    if addrs != [] {
      AddrBytesExact(addrs[1..]);
    }
  }

  /** A handshake payload is 54 bytes, its kept addresses and its cut name: never more than 137. */
  lemma HandshakeLength(p: BindPayload)
    requires p.offline.None?
    ensures |Encode(p)| == 54 + AddrBytes(KeptAddrs(p.addrs)) + |TruncatedName(p.name)|
    ensures |Encode(p)| <= 137
  {
    AddrBytesExact(KeptAddrs(p.addrs));
    TruncatedNameIsLongest(p.name, 0);
    hide ToBe;
    hide PrintAddrs;
    hide TruncatedName;
    hide KeptAddrs;
    assert |KeptAddrs(p.addrs)| <= MAX_ADDRS by { KeptIsShort(p.addrs); }
  }

  lemma KeptIsShort(addrs: seq<IpAddr>)
    ensures |KeptAddrs(addrs)| <= MAX_ADDRS
  {
  }

  lemma ClipFits(t: seq<byte>)
    ensures Short(t) ==> Clip(t) == t
    ensures Clip(Clip(t)) == Clip(t)
    ensures Clip(t) == [] <==> t == []
  {
  }

  lemma KeptFits(addrs: seq<IpAddr>)
    ensures |addrs| <= MAX_ADDRS ==> KeptAddrs(addrs) == addrs
    ensures KeptAddrs(KeptAddrs(addrs)) == KeptAddrs(addrs)
  {
  }

  lemma NameFits(name: seq<byte>)
    ensures TruncatedName(name) == name <==> |name| <= MAX_NAME
  {
  }

  /** Re-encoding what decoding accepted in full gives the same bytes exactly when no unknown flag
      is set and the name fits. */
  lemma DecodeIsCanonical(b: seq<byte>)
    requires Parse(b).Some? && Parse(b).value.1 == []
    ensures |b| > 1 && Decode(b).Some?
    ensures Encode(Decode(b).value) == b <==> b[1] <= 1 && |Decode(b).value.name| <= 32
  {
    var r := Parse(b).value.0;
    ParseSound(b, r, []);
    assert Print(r) + [] == Print(r);
    var again := RecordOf(PayloadOf(r));
    ReRecord(r);
    FlagByte(r);
    if again.flags == r.flags && again.name == r.name {
      assert again == r;
    } else if Print(again) == b {
      RecordIsShort(again);
      PrintIsInjective(again, r);
    }
    hide Print;
    hide Parse;
    hide TruncatedName;
    hide PayloadOf;
  }

  lemma RecordIsShort(r: Record)
    ensures Legal(r) ==> ShortRecord(r)
  {
  }

  lemma PrintIsInjective(x: Record, y: Record)
    requires Legal(x) && Legal(y) && Print(x) == Print(y)
    ensures x == y
  {
    ParseComplete(x, []);
    ParseComplete(y, []);
    hide Print;
    hide Parse;
    hide Legal;
  }

  lemma FlagByte(r: Record)
    requires ShortRecord(r)
    ensures |Print(r)| > 1 && Print(r)[1] == r.flags
  {
    hide PrintText;
    hide PrintAddrs;
    hide PrintOffline;
    hide ToBe;
  }

  /** The record a decoded payload is encoded from: the same but for the flags and the name's cut. */
  lemma ReRecord(r: Record)
    requires Legal(r)
    ensures var again := RecordOf(PayloadOf(r));
            && Legal(again)
            && again == r.(flags := again.flags, name := again.name)
            && (again.flags == r.flags <==> r.flags <= 1)
            && (again.name == r.name <==> |r.name| <= MAX_NAME)
  {
    NameFits(r.name);
    RecordIsLegal(PayloadOf(r));
    KeptFits(r.addrs);
    if r.tail.Some? {
      ClipFits(r.tail.value.user);
      ClipFits(r.tail.value.path);
    }
    hide TruncatedName;
    hide ValidUtf8;
    hide Clip;
    hide KeptAddrs;
  }

  /** The normal form is a fixed point of the trip. */
  lemma NormIsIdempotent(p: BindPayload)
    requires CutsClean(p)
    ensures CutsClean(Norm(p)) && Norm(Norm(p)) == Norm(p)
  {
    RecordIsLegal(p);
    NameFits(TruncatedName(p.name));
    TruncatedNameIsLongest(p.name, 0);
    KeptFits(p.addrs);
    if p.offline.Some? {
      NormOfflineIsIdempotent(p.offline.value);
    }
    hide TruncatedName;
    hide ValidUtf8;
    hide KeptAddrs;
    hide NormOffline;
    hide PathBytes;
    hide Boundary;
    hide Clip;
  }

  lemma NormOfflineIsIdempotent(o: OfflineKey)
    requires ValidUtf8(Clip(o.sshUser)) && ValidUtf8(Clip(PathBytes(o)))
    ensures var n := NormOffline(o);
            && ValidUtf8(Clip(n.sshUser)) && ValidUtf8(Clip(PathBytes(n)))
            && NormOffline(n) == n
            && Boundary(n.sshUser, Min(|n.sshUser|, 255)) && Boundary(PathBytes(n), Min(|PathBytes(n)|, 255))
  {
    var n := NormOffline(o);
    ClipFits(o.sshUser);
    ClipFits(PathBytes(o));
    assert PathBytes(n) == Clip(PathBytes(o));
    assert Short(n.sshUser) && Short(PathBytes(n));
    hide Clip;
    hide ValidUtf8;
  }

  // -- the URL --

  function ToUrl(p: BindPayload): string {
    URL_PREFIX + B64Url(Encode(p))
  }

  function FromUrl(url: string): Option<BindPayload> {
    if URL_PREFIX <= url then
      var data :- B64UrlDecode(url[|URL_PREFIX|..]);
      Decode(data)
    else None
  }

  /** The URL brings back the normal form, exactly when the blind cuts fall between characters. */
  lemma UrlRoundTrip(p: BindPayload)
    ensures FromUrl(ToUrl(p)) == if CutsClean(p) then Some(Norm(p)) else None
    ensures FromUrl(ToUrl(p)).Some? ==> FromUrl(ToUrl(FromUrl(ToUrl(p)).value)) == FromUrl(ToUrl(p))
  {
    UrlDecodes(p);
    if CutsClean(p) {
      NormIsIdempotent(p);
      UrlDecodes(Norm(p));
    }
    hide FromUrl;
    hide ToUrl;
    hide Norm;
    hide CutsClean;
  }

  lemma UrlDecodes(p: BindPayload)
    ensures FromUrl(ToUrl(p)) == if CutsClean(p) then Some(Norm(p)) else None
  {
    var data := Encode(p);
    B64UrlExact(B64Url(data), data);
    assert ToUrl(p)[|URL_PREFIX|..] == B64Url(data);
    assert URL_PREFIX <= ToUrl(p);
    assert data + [] == data;
    DecodeOfEncode(p, []);
    hide Decode;
    hide Encode;
    hide Norm;
    hide CutsClean;
    hide B64Url;
    hide B64UrlDecode;
  }

  /** The URLs that are their payload's own are exactly those that carry nothing after the payload,
      no unknown flag, and a name that fits. */
  lemma UrlIsCanonical(url: string)
    requires FromUrl(url).Some?
    ensures var data := B64UrlDecode(url[|"multiplex://b/"|..]).value;
            var canonical := Parse(data).value.1 == [] && data[1] <= 1 && |FromUrl(url).value.name| <= 32;
            ToUrl(FromUrl(url).value) == url <==> canonical
  {
    var text := url[|URL_PREFIX|..];
    var data := B64UrlDecode(text).value;
    var p := FromUrl(url).value;
    B64UrlExact(text, data);
    UrlOfData(url, p, data);
    if Parse(data).value.1 == [] {
      DecodeIsCanonical(data);
    } else if Encode(p) == data {
      EncodedIsConsumed(p);
    }
    hide Parse;
    hide Encode;
    hide B64Url;
    hide B64UrlDecode;
    hide PayloadOf;
  }

  lemma UrlOfData(url: string, p: BindPayload, data: seq<byte>)
    requires URL_PREFIX <= url && url[|URL_PREFIX|..] == B64Url(data)
    ensures ToUrl(p) == url <==> Encode(p) == data
  {
    hide Encode;
    hide B64Url;
    B64UrlExact(B64Url(Encode(p)), Encode(p));
    B64UrlExact(B64Url(data), data);
    hide B64UrlDecode;
    assert ToUrl(p)[|URL_PREFIX|..] == B64Url(Encode(p));
    assert url == URL_PREFIX + url[|URL_PREFIX|..];
  }
}
