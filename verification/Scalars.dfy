/** That the bytes called valid are exactly the encodings of character strings (section 3 of RFC 3629). */
module Scalars {
  import opened Bytes
  import opened Utf8
  import opened Seqs

  /** One Unicode scalar value in one to four bytes. */
  function Utf8Char(c: char): (r: seq<byte>)
    ensures 1 <= |r| <= 4
  {
    var n := c as int;
    if n < 0x80 then [n]
    else if n < 0x800 then [0xC0 + n / 64, 0x80 + n % 64]
    else if n < 0x1_0000 then [0xE0 + n / 4096, 0x80 + n / 64 % 64, 0x80 + n % 64]
    else [0xF0 + n / 262144, 0x80 + n / 4096 % 64, 0x80 + n / 64 % 64, 0x80 + n % 64]
  }

  function Utf8Of(t: string): seq<byte> {
    if t == "" then [] else Utf8Char(t[0]) + Utf8Of(t[1..])
  }

  /** A character in front is found whole. */
  lemma CharIsFound(c: char, rest: seq<byte>)
    ensures CharLength(Utf8Char(c) + rest) == |Utf8Char(c)|
  {
    var n := c as int;
    var s := Utf8Char(c) + rest;
    assert s[0] == Utf8Char(c)[0];
    if 0x80 <= n < 0x800 {
      assert s[1] == 0x80 + n % 64;
    } else if 0x800 <= n < 0x1_0000 {
      ThreeByteForm(n);
      assert s[1] == 0x80 + n / 64 % 64 && s[2] == 0x80 + n % 64;
    } else if 0x1_0000 <= n {
      FourByteForm(n);
      assert s[1] == 0x80 + n / 4096 % 64 && s[2] == 0x80 + n / 64 % 64 && s[3] == 0x80 + n % 64;
    }
  }

  lemma ThreeByteForm(n: nat)
    requires 0x800 <= n < 0xD800 || 0xE000 <= n < 0x1_0000
    ensures 0 <= n / 4096 < 16 && 0 <= n / 64 % 64 < 64
    ensures n / 4096 == 0 ==> n / 64 % 64 >= 0x20
    ensures n / 4096 == 13 ==> n / 64 % 64 < 0x20
  {
    var h, m := n / 4096, n / 64 % 64;
    assert n / 64 == h * 64 + m;
  }

  lemma FourByteForm(n: nat)
    requires 0x1_0000 <= n < 0x11_0000
    ensures 0 <= n / 262144 <= 4 && 0 <= n / 4096 % 64 < 64
    ensures n / 262144 == 0 ==> n / 4096 % 64 >= 0x10
    ensures n / 262144 == 4 ==> n / 4096 % 64 < 0x10
  {
    var h, m := n / 262144, n / 4096 % 64;
    assert n / 4096 == h * 64 + m;
  }

  /** What counts as a character is the encoding of one. */
  lemma FoundIsChar(s: seq<byte>) returns (c: char)
    requires CharLength(s) > 0
    ensures s[..CharLength(s)] == Utf8Char(c)
  {
    var k := CharLength(s);
    var s0: int := s[0];
    if k == 1 {
      c := s0 as char;
    } else if k == 2 {
      var s1: int := s[1];
      c := TwoByteChar(s0 - 0xC0, s1 - 0x80);
      assert s[..2] == [s[0], s[1]];
    } else if k == 3 {
      var s1: int, s2: int := s[1], s[2];
      c := ThreeByteChar(s0 - 0xE0, s1 - 0x80, s2 - 0x80);
      assert s[..3] == [s[0], s[1], s[2]];
    } else {
      var s1: int, s2: int, s3: int := s[1], s[2], s[3];
      c := FourByteChar(s0 - 0xF0, s1 - 0x80, s2 - 0x80, s3 - 0x80);
      assert s[..4] == [s[0], s[1], s[2], s[3]];
    }
  }

  lemma TwoByteChar(a: nat, b: nat) returns (c: char)
    requires 2 <= a < 32 && b < 64
    ensures Utf8Char(c) == [0xC0 + a, 0x80 + b]
  {
    var n := a * 64 + b;
    assert n / 64 == a && n % 64 == b;
    c := n as char;
  }

  lemma ThreeByteChar(a: nat, b: nat, d: nat) returns (c: char)
    requires a < 16 && b < 64 && d < 64 && (a == 0 ==> b >= 32) && (a == 13 ==> b < 32)
    ensures Utf8Char(c) == [0xE0 + a, 0x80 + b, 0x80 + d]
  {
    var n := a * 4096 + b * 64 + d;
    assert n / 64 == a * 64 + b && n % 64 == d;
    assert n / 4096 == a && (a * 64 + b) % 64 == b;
    c := n as char;
  }

  lemma FourByteChar(a: nat, b: nat, d: nat, e: nat) returns (c: char)
    requires a <= 4 && b < 64 && d < 64 && e < 64 && (a == 0 ==> b >= 16) && (a == 4 ==> b < 16)
    ensures Utf8Char(c) == [0xF0 + a, 0x80 + b, 0x80 + d, 0x80 + e]
  {
    var n := a * 262144 + b * 4096 + d * 64 + e;
    assert n / 64 == a * 4096 + b * 64 + d && n % 64 == e;
    assert n / 4096 == a * 64 + b && (a * 4096 + b * 64 + d) % 64 == d;
    assert n / 262144 == a && (a * 64 + b) % 64 == b;
    c := n as char;
  }

  lemma {:induction false} EncodingIsValid(t: string)
    ensures ValidUtf8(Utf8Of(t))
  {
    if t != "" {
      EncodingIsValid(t[1..]);
      CharIsFound(t[0], Utf8Of(t[1..]));
      hide CharLength;
      hide Utf8Char;
      var s := Utf8Of(t);
      assert s[|Utf8Char(t[0])|..] == Utf8Of(t[1..]);
    }
  }

  lemma Utf8Cons(c: char, rest: string)
    ensures Utf8Of([c] + rest) == Utf8Char(c) + Utf8Of(rest) && Utf8Of("") == []
  {
    hide Utf8Char;
    assert ([c] + rest)[1..] == rest;
  }

  lemma ValidStep(s: seq<byte>)
    requires ValidUtf8(s) && s != []
    ensures CharLength(s) > 0 && ValidUtf8(s[CharLength(s)..])
  {
    hide CharLength;
  }

  lemma {:induction false} ValidIsEncoding(s: seq<byte>) returns (t: string)
    requires ValidUtf8(s)
    ensures s == Utf8Of(t)
  {
    hide CharLength;
    hide Utf8Char;
    hide Utf8Of;
    hide ValidUtf8;
    Utf8Cons('a', "");
    if s == [] {
      t := "";
    } else {
      ValidStep(s);
      var k := CharLength(s);
      var c := FoundIsChar(s);
      var rest := ValidIsEncoding(s[k..]);
      Utf8Cons(c, rest);
      t := [c] + rest;
      assert s == s[..k] + s[k..];
    }
  }

  /** Bytes are valid if and only if they are the encoding of some string. */
  lemma ValidExactly(s: seq<byte>)
    ensures ValidUtf8(s) <==> exists t :: s == Utf8Of(t)
  {
    if ValidUtf8(s) {
      var t := ValidIsEncoding(s);
    }
    if t :| s == Utf8Of(t) {
      EncodingIsValid(t);
    }
  }
}
