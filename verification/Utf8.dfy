/** UTF-8 validity and character boundaries (sections 3 and 4 of RFC 3629), as `String::from_utf8`
    and `str::is_char_boundary` decide them. */
module Utf8 {
  import opened Bytes

  predicate IsTail(b: byte) {
    0x80 <= b <= 0xBF
  }

  /** Length of the well-formed character at the front, or 0 when there is none. */
  function CharLength(s: seq<byte>): (n: nat)
    ensures n <= |s| && n <= 4
  {
    if s == [] then 0
    else if s[0] <= 0x7F then 1
    else if 0xC2 <= s[0] <= 0xDF then
      if |s| >= 2 && IsTail(s[1]) then 2 else 0
    else if 0xE0 <= s[0] <= 0xEF then
      if |s| >= 3 && SecondOfThree(s[0], s[1]) && IsTail(s[2]) then 3 else 0
    else if 0xF0 <= s[0] <= 0xF4 then
      if |s| >= 4 && SecondOfFour(s[0], s[1]) && IsTail(s[2]) && IsTail(s[3]) then 4 else 0
    else 0
  }

  /** No overlong forms and no surrogates. */
  predicate SecondOfThree(first: byte, second: byte) {
    && IsTail(second)
    && (first == 0xE0 ==> 0xA0 <= second)
    && (first == 0xED ==> second <= 0x9F)
  }

  /** No overlong forms and nothing above U+10FFFF. */
  predicate SecondOfFour(first: byte, second: byte) {
    && IsTail(second)
    && (first == 0xF0 ==> 0x90 <= second)
    && (first == 0xF4 ==> second <= 0x8F)
  }

  predicate ValidUtf8(s: seq<byte>) {
    s != [] ==> CharLength(s) > 0 && ValidUtf8(s[CharLength(s)..])
  }

  type Str = s: seq<byte> | ValidUtf8(s)

  /** `is_char_boundary`. */
  predicate Boundary(s: seq<byte>, at: nat) {
    at == 0 || at == |s| || (at < |s| && !IsTail(s[at]))
  }

  lemma CharBytes(s: seq<byte>)
    requires CharLength(s) > 0
    ensures !IsTail(s[0]) && forall k :: 0 < k < CharLength(s) ==> IsTail(s[k])
  {
  }

  lemma CharOfPrefix(s: seq<byte>, at: nat)
    requires CharLength(s) > 0 && 0 < at <= |s|
    ensures CharLength(s[..at]) == if CharLength(s) <= at then CharLength(s) else 0
  {
  }

  lemma BoundaryShift(s: seq<byte>, n: nat, at: nat)
    requires n <= at <= |s| && ValidUtf8(s[n..])
    requires 0 < n
    ensures Boundary(s, at) == Boundary(s[n..], at - n)
  {
    if n == at && n < |s| {
      CharBytes(s[n..]);
    }
  }

  /** A valid string cut at a position is valid exactly when the cut falls between characters. */
  lemma {:induction false} CutIsValid(s: seq<byte>, at: nat)
    requires ValidUtf8(s) && at <= |s|
    ensures ValidUtf8(s[..at]) <==> Boundary(s, at)
  {
    if at > 0 {
      var n := CharLength(s);
      CharOfPrefix(s, at);
      CharBytes(s);
      hide CharLength;
      if n <= at {
        assert s[..at][n..] == s[n..][..at - n];
        CutIsValid(s[n..], at - n);
        BoundaryShift(s, n, at);
      }
    }
  }
}
