/** The bind payload in plain numbers: where its bytes stand, and what its receiver gets. */
module Delivery {
  import opened Wrappers
  import opened Numbers
  import opened Bytes
  import opened Utf8
  import opened Seqs
  import opened Payload
  import opened Util
  import opened Codec

  // -- what arrives --

  /** Cut to a length, and nothing else. */
  ghost predicate CutTo(whole: seq<byte>, limit: nat, cut: seq<byte>) {
    cut <= whole && |cut| == Min(|whole|, limit)
  }

  ghost predicate OfflineArrives(sent: OfflineKey, got: OfflineKey) {
    && CutTo(sent.sshUser, 255, got.sshUser)
    && got.sshPort == sent.sshPort && got.seed == sent.seed && got.hostkey == sent.hostkey
    && (got.authorizedKeys.Some? <==> sent.authorizedKeys.Some? && sent.authorizedKeys.value != [])
    && (got.authorizedKeys.Some? ==> CutTo(sent.authorizedKeys.value, 255, got.authorizedKeys.value))
  }

  ghost predicate Arrives(sent: BindPayload, got: BindPayload) {
    && got.port == sent.port && got.spub == sent.spub && got.token == sent.token
    && got.addrs <= sent.addrs && |got.addrs| == Min(|sent.addrs|, 3)
    && got.name <= sent.name && |got.name| <= 32
    && (forall k :: |got.name| < k <= Min(|sent.name|, 32) ==> !ValidUtf8(sent.name[..k]))
    && (got.offline.Some? <==> sent.offline.Some?)
    && (got.offline.Some? ==> OfflineArrives(sent.offline.value, got.offline.value))
  }

  /** Whatever is decoded from an encoding is the payload itself: its first three addresses, the longest
      whole-character prefix of its name that fits 32 bytes, user and path cut at 255, the rest as is. */
  lemma DecodedAsSent(p: BindPayload, junk: seq<byte>)
    ensures Decode(Encode(p) + junk).Some? ==> Arrives(p, Decode(Encode(p) + junk).value)
  {
    hide Decode;
    hide Encode;
    hide ValidUtf8;
    DecodeOfEncode(p, junk);
    if CutsClean(p) {
      NormArrives(p);
    }
    hide Norm;
    hide CutsClean;
    hide Arrives;
  }

  lemma NormArrives(p: BindPayload)
    requires CutsClean(p)
    ensures Arrives(p, Norm(p))
  {
    RecordIsLegal(p);
    TruncatedNameIsLongest(p.name, 0);
    forall k | |TruncatedName(p.name)| < k <= Min(|p.name|, 32)
      ensures !ValidUtf8(p.name[..k])
    {
      TruncatedNameIsLongest(p.name, k);
    }
    hide TruncatedName;
    hide ValidUtf8;
    hide Boundary;
  }

  // -- where the bytes stand --

  /** A 16-bit number, high byte first. */
  function High16(n: u16): seq<byte> {
    [n / 256, n % 256]
  }

  lemma High16IsBe(n: u16)
    ensures ToBe(2, n) == High16(n)
  {
    assert ToBe(2, n) == ToBe(1, n / 256) + [n % 256];
    assert ToBe(1, n / 256) == ToBe(0, n / 256 / 256) + [n / 256 % 256];
  }

  /** A length byte and what it counts. */
  function Counted(t: seq<byte>): seq<byte>
    requires |t| <= 255
  {
    [|t| as byte] + t
  }

  /** Each address as its family number, 4 or 6, and its octets. */
  function Families(addrs: seq<IpAddr>): seq<byte> {
    if addrs == [] then []
    else (if addrs[0].V4? then [4] + addrs[0].octets4 else [6] + addrs[0].octets16) + Families(addrs[1..])
  }

  lemma {:induction false} FamiliesArePrinted(addrs: seq<IpAddr>)
    ensures PrintAddrs(addrs) == Families(addrs)
  {
    if addrs != [] {
      FamiliesArePrinted(addrs[1..]);
    }
  }

  function FirstBytes(t: seq<byte>): (r: seq<byte>)
    ensures |r| <= 255
  {
    t[..Min(|t|, 255)]
  }

  function OfflineLayout(o: OfflineKey): seq<byte> {
    Counted(FirstBytes(o.sshUser)) + High16(o.sshPort) + o.seed
    + Counted(FirstBytes(if o.authorizedKeys.Some? then o.authorizedKeys.value else []))
    + (if o.hostkey.Some? then [32] + o.hostkey.value else [0])
  }

  function Layout(p: BindPayload, name: seq<byte>): seq<byte>
    requires |name| <= 32
  {
    var kept := p.addrs[..Min(|p.addrs|, 3)];
    [2, if p.offline.Some? then 1 else 0] + p.spub + p.token + High16(p.port) + [|kept| as byte] + Families(kept)
    + Counted(name) + (if p.offline.Some? then OfflineLayout(p.offline.value) else [])
  }

  /** Every byte of an encoding has its place: version 2, the flag, the server's key, the token, the port
      high byte first, the addresses under their family numbers, the name, and offline the rest. */
  lemma EncodingIsLaidOut(p: BindPayload)
    ensures |TruncatedName(p.name)| <= 32 && Encode(p) == Layout(p, TruncatedName(p.name))
  {
    hide TruncatedName;
    hide ToBe;
    TruncatedNameIsLongest(p.name, 0);
    High16IsBe(p.port);
    FamiliesArePrinted(KeptAddrs(p.addrs));
    PushedRecord(RecordOf(p));
    hide Print;
    hide ValidUtf8;
    var start := [2, if p.offline.Some? then 1 else 0] + p.spub + p.token + High16(p.port);
    assert PrintHead(HeadOf(RecordOf(p))) == start;
    hide PrintHead;
    hide PrintAddrs;
    hide Families;
    if p.offline.Some? {
      OfflineIsLaidOut(p.offline.value);
    }
    hide PrintTail;
    hide OfflineLayout;
  }

  lemma OfflineIsLaidOut(o: OfflineKey)
    ensures PrintTail(TailOf(o)) == OfflineLayout(o)
  {
    hide ToBe;
    High16IsBe(o.sshPort);
    var t := TailOf(o);
    PushedTail([], t);
    assert [] + PrintTail(t) == PrintTail(t);
    assert [] + PrintText(t.user) == PrintText(t.user);
    hide PrintTail;
  }

  // -- what is decoded --

  /** Whatever decodes is version 2, has its fixed fields where an encoding has them and at most three
      addresses, and carries an offline part if and only if the lowest bit of its flags is set. */
  lemma DecodedShape(b: seq<byte>)
    requires Decode(b).Some?
    ensures |b| >= 53 && b[0] == 2
    ensures var q := Decode(b).value;
            && b[2..34] == q.spub && b[34..50] == q.token && b[50] as int * 256 + b[51] == q.port
            && b[52] == |q.addrs| <= 3
            && (q.offline.Some? <==> b[1] % 2 == 1)
  {
    var (r, rest) := Parse(b).value;
    ParseSound(b, r, rest);
    RecordIsShort(r);
    PrintChain(r, rest);
    High16IsBe(r.port);
    hide Parse;
    hide Print;
    hide ToBe;
    hide PrintAddrs;
    hide PrintText;
    hide PrintOffline;
    hide ValidUtf8;
    var head := [2, r.flags] + (r.spub + (r.token + High16(r.port)));
    var tail := PrintAddrs(r.addrs) + (PrintText(r.name) + (PrintOffline(r.tail) + rest));
    HeadFields(b, r.flags, r.spub, r.token, r.port, |r.addrs|, tail);
  }

  lemma HeadFields(b: seq<byte>, flags: byte, spub: Bytes32, token: Bytes16, port: u16, count: byte, tail: seq<byte>)
    requires b == ([2, flags] + (spub + (token + High16(port)))) + ([count] + tail)
    ensures |b| >= 53 && b[0] == 2 && b[1] == flags && b[2..34] == spub && b[34..50] == token
    ensures b[50] as int * 256 + b[51] == port && b[52] == count
  {
    assert b[50] == High16(port)[0] && b[51] == High16(port)[1];
  }

  /** The URL is the scheme and the bytes in base64url, and nothing is read from any other URL. */
  lemma UrlCarries(p: BindPayload, url: string)
    ensures ToUrl(p) == "multiplex://b/" + B64Url(Encode(p))
    ensures FromUrl(url).Some? ==> exists data :: url == "multiplex://b/" + B64Url(data) && Decode(data) == FromUrl(url)
  {
    hide B64Url;
    hide B64UrlDecode;
    hide Encode;
    hide Decode;
    if FromUrl(url).Some? {
      var text := url[|"multiplex://b/"|..];
      var data := B64UrlDecode(text).value;
      B64UrlExact(text, data);
      assert url == "multiplex://b/" + text;
    }
  }
}
