/** `src/util.rs`: the marker slug and the hex and base64url text codecs. */
module Util {
  import opened Wrappers
  import opened Seqs
  import opened Bytes

  // -- device_slug --

  const MAX_SLUG := 24

  predicate IsUpper(c: char) { 'A' <= c <= 'Z' }

  predicate IsLower(c: char) { 'a' <= c <= 'z' }

  predicate IsDigit(c: char) { '0' <= c <= '9' }

  /** `char::is_ascii_alphanumeric`. */
  predicate IsAlnum(c: char) { IsUpper(c) || IsLower(c) || IsDigit(c) }

  /** `char::to_ascii_lowercase`. */
  function ToLower(c: char): char {
    if IsUpper(c) then ((c as int) + 32) as char else c
  }

  predicate IsSlugChar(c: char) { IsLower(c) || IsDigit(c) || c == '-' }

  /** What the slug loop would emit for `s` with no cap, given whether it last emitted a dash. */
  function Kebab(s: string, lastDash: bool): string {
    if s == "" then ""
    else if IsAlnum(s[0]) then [ToLower(s[0])] + Kebab(s[1..], false)
    else (if lastDash then "" else "-") + Kebab(s[1..], true)
  }

  lemma KebabEnd(lastDash: bool)
    ensures Kebab("", lastDash) == ""
  {
  }

  lemma KebabStep(c: char, s: string, lastDash: bool)
    ensures IsAlnum(ToLower(c)) == IsAlnum(c)
    ensures IsAlnum(c) ==> Kebab([c] + s, lastDash) == [ToLower(c)] + Kebab(s, false)
    ensures !IsAlnum(c) ==> Kebab([c] + s, lastDash) == (if lastDash then "" else "-") + Kebab(s, true)
  {
    assert ([c] + s)[1..] == s;
  }

  function Cap(s: string): string {
    if |s| <= MAX_SLUG then s else s[..MAX_SLUG]
  }

  lemma CapOfFull(a: string, b: string)
    requires |a| == MAX_SLUG || (|a| < MAX_SLUG && b == "")
    ensures Cap(a + b) == a
  {
  }

  function DropLeadingDashes(s: string): string {
    if s != "" && s[0] == '-' then DropLeadingDashes(s[1..]) else s
  }

  function DropTrailingDashes(s: string): string {
    if s != "" && s[|s| - 1] == '-' then DropTrailingDashes(s[..|s| - 1]) else s
  }

  /** The slug without its loop: kebab-case, cut to 24, dashes trimmed, "device" when nothing is left. */
  function Slug(display: string): string {
    var trimmed := DropTrailingDashes(DropLeadingDashes(Cap(Kebab(display, true))));
    if trimmed == "" then "device" else trimmed
  }

  /** The loop as written, with its early break once 24 characters are out. */
  method DeviceSlug(display: string) returns (r: string)
    ensures r == Slug(display)
  {
    hide Kebab;
    hide ToLower;
    var slug := "";
    var lastDash := true;
    var i := 0;
    while i < |display|
      invariant 0 <= i <= |display|
      invariant |slug| < MAX_SLUG
      invariant slug + Kebab(display[i..], lastDash) == Kebab(display, true)
    {
      var lower := ToLower(display[i]);
      assert display[i..] == [display[i]] + display[i + 1..];
      KebabStep(display[i], display[i + 1..], lastDash);
      if IsAlnum(lower) {
        Assoc(slug, [lower], Kebab(display[i + 1..], false));
        slug := slug + [lower];
        lastDash := false;
      } else if !lastDash {
        Assoc(slug, "-", Kebab(display[i + 1..], true));
        slug := slug + "-";
        lastDash := true;
      }
      i := i + 1;
      assert slug + Kebab(display[i..], lastDash) == Kebab(display, true);
      if |slug| >= MAX_SLUG {
        break;
      }
    }
    KebabEnd(lastDash);
    assert i == |display| ==> display[i..] == "";
    CapOfFull(slug, Kebab(display[i..], lastDash));
    var trimmed := DropTrailingDashes(DropLeadingDashes(slug));
    r := if trimmed == "" then "device" else trimmed;
  }

  ghost predicate NoDoubledDash(s: string) {
    forall k :: 0 < k < |s| ==> s[k - 1] != '-' || s[k] != '-'
  }

  ghost predicate SlugChars(s: string) {
    forall k :: 0 <= k < |s| ==> IsSlugChar(s[k])
  }

  /** What a marker's last part may look like. */
  ghost predicate WellFormedSlug(s: string) {
    && 1 <= |s| <= 24
    && SlugChars(s)
    && s[0] != '-' && s[|s| - 1] != '-'
    && NoDoubledDash(s)
  }

  lemma {:induction false} KebabShape(s: string, lastDash: bool)
    ensures SlugChars(Kebab(s, lastDash)) && NoDoubledDash(Kebab(s, lastDash))
    ensures lastDash && Kebab(s, lastDash) != "" ==> Kebab(s, lastDash)[0] != '-'
  {
    if s != "" {
      KebabShape(s[1..], !IsAlnum(s[0]));
    }
  }

  lemma {:induction false} DropTrailingDashesShape(s: string)
    ensures DropTrailingDashes(s) <= s
    ensures DropTrailingDashes(s) != "" ==> s[|DropTrailingDashes(s)| - 1] != '-'
  {
    if s != "" && s[|s| - 1] == '-' {
      DropTrailingDashesShape(s[..|s| - 1]);
    }
  }

  lemma SlugShape(display: string)
    ensures WellFormedSlug(Slug(display))
  {
    KebabShape(display, true);
    DropTrailingDashesShape(Cap(Kebab(display, true)));
  }

  lemma {:induction false} KebabFixed(s: string, lastDash: bool)
    requires SlugChars(s) && NoDoubledDash(s)
    requires s != "" && lastDash ==> s[0] != '-'
    ensures Kebab(s, lastDash) == s
  {
    if s != "" {
      assert IsSlugChar(s[0]);
      assert forall k :: 0 <= k < |s[1..]| ==> s[1..][k] == s[k + 1];
      KebabFixed(s[1..], s[0] == '-');
    }
  }

  lemma SlugOfWellFormed(s: string)
    requires WellFormedSlug(s)
    ensures Slug(s) == s
  {
    KebabFixed(s, true);
    hide Kebab;
  }

  /** The slugs are exactly the well-formed strings, and each is its own slug. */
  lemma SlugFixpoint(s: string)
    ensures Slug(s) == s <==> WellFormedSlug(s)
    ensures Slug(Slug(s)) == Slug(s)
  {
    SlugShape(s);
    SlugOfWellFormed(Slug(s));
    if WellFormedSlug(s) {
      SlugOfWellFormed(s);
    }
    hide Slug;
  }

  /** The letters and digits of a display name, lowercased. */
  function Letters(s: string): string {
    if s == "" then ""
    else (if IsAlnum(s[0]) then [ToLower(s[0])] else "") + Letters(s[1..])
  }

  lemma {:induction false} LettersOfKebab(s: string, lastDash: bool)
    ensures Letters(Kebab(s, lastDash)) == Letters(s)
  {
    if s != "" {
      var rest := Kebab(s[1..], !IsAlnum(s[0]));
      LettersOfKebab(s[1..], !IsAlnum(s[0]));
      assert Kebab(s, lastDash) == rest || Kebab(s, lastDash)[1..] == rest;
    }
  }

  lemma {:induction false} LettersMonotone(a: string, s: string)
    requires a <= s
    ensures Letters(a) <= Letters(s)
  {
    if a != "" {
      LettersMonotone(a[1..], s[1..]);
    }
  }

  lemma {:induction false} NoLetters(s: string)
    requires SlugChars(s) && s != "" && s[0] != '-'
    ensures Letters(s) != ""
  {
    assert IsSlugChar(s[0]);
  }

  /** A slug spells the name's own letters in order, cut short at most, never made up. */
  lemma SlugSpellsName(display: string)
    ensures Letters(display) == "" ==> Slug(display) == "device"
    ensures Letters(display) != "" ==> Letters(Slug(display)) <= Letters(display)
  {
    var full := Kebab(display, true);
    KebabShape(display, true);
    LettersOfKebab(display, true);
    var cut := DropTrailingDashes(Cap(full));
    DropTrailingDashesShape(Cap(full));
    if full != "" {
      NoLetters(full);
      assert DropLeadingDashes(Cap(full)) == Cap(full);
      FirstLetterStays(Cap(full));
      LettersMonotone(cut, full);
    }
  }

  lemma {:induction false} FirstLetterStays(s: string)
    requires s != "" && s[0] != '-'
    ensures DropTrailingDashes(s) != ""
  {
    if s[|s| - 1] == '-' {
      FirstLetterStays(s[..|s| - 1]);
    }
  }

  // -- hex --

  function HexDigit(n: int): char
    requires 0 <= n < 16
  {
    if n < 10 then (48 + n) as char else (87 + n) as char
  }

  /** `char::to_digit(16)`. */
  function HexValue(c: char): Option<int> {
    if IsDigit(c) then Some(c as int - 48)
    else if 'a' <= c <= 'f' then Some(c as int - 87)
    else if 'A' <= c <= 'F' then Some(c as int - 55)
    else None
  }

  function Hex(data: seq<byte>): string {
    if data == [] then ""
    else [HexDigit(data[0] / 16), HexDigit(data[0] % 16)] + Hex(data[1..])
  }

  /** An odd length and any character that is not a hex digit are refused. */
  function HexDecode(s: string): Option<seq<byte>> {
    if s == "" then Some([])
    else if |s| == 1 then None
    else
      var hi :- HexValue(s[0]);
      var lo :- HexValue(s[1]);
      var rest :- HexDecode(s[2..]);
      Some([(hi * 16 + lo) as byte] + rest)
  }

  lemma {:induction false} HexShape(data: seq<byte>)
    ensures |Hex(data)| == 2 * |data|
    ensures forall k :: 0 <= k < |Hex(data)| ==> IsDigit(Hex(data)[k]) || 'a' <= Hex(data)[k] <= 'f'
  {
    if data != [] {
      HexShape(data[1..]);
    }
  }

  /** Decoding accepts exactly the encodings, in either case, and returns what was encoded. */
  lemma {:induction false} HexDecodeExact(s: string, data: seq<byte>)
    ensures HexDecode(s) == Some(data) <==> Map(ToLower, s) == Hex(data)
    decreases |s|
  {
    HexShape(data);
    if |s| >= 2 && data != [] {
      HexDecodeExact(s[2..], data[1..]);
      var lower, tail := Map(ToLower, s), Map(ToLower, s[2..]);
      assert lower == [ToLower(s[0]), ToLower(s[1])] + tail;
      assert Hex(data)[2..] == Hex(data[1..]);
      HexPair(s[0], s[1], data[0]);
      assert data == [data[0]] + data[1..];
      if lower == Hex(data) {
        assert lower[0] == Hex(data)[0] && lower[1] == Hex(data)[1] && lower[2..] == tail;
      }
    }
  }

  lemma HexPair(hi: char, lo: char, b: byte)
    ensures HexValue(hi).Some? && HexValue(lo).Some? && HexValue(hi).value * 16 + HexValue(lo).value == b
       <==> ToLower(hi) == HexDigit(b / 16) && ToLower(lo) == HexDigit(b % 16)
  {
  }

  // -- base64url without padding --

  type sextet = n: int | 0 <= n < 64

  /** The URL-safe alphabet, table 2 in section 5 of RFC 4648. */
  function Symbol(n: sextet): char {
    if n < 26 then (65 + n) as char
    else if n < 52 then (71 + n) as char
    else if n < 62 then (n - 4) as char
    else if n == 62 then '-'
    else '_'
  }

  function SymbolValue(c: char): Option<sextet> {
    if IsUpper(c) then Some(c as int - 65)
    else if IsLower(c) then Some(c as int - 71)
    else if IsDigit(c) then Some(c as int + 4)
    else if c == '-' then Some(62)
    else if c == '_' then Some(63)
    else None
  }

  function Symbols(ns: seq<sextet>): string {
    if ns == [] then "" else [Symbol(ns[0])] + Symbols(ns[1..])
  }

  function SymbolValues(s: string): Option<seq<sextet>> {
    if s == "" then Some([])
    else
      var n :- SymbolValue(s[0]);
      var rest :- SymbolValues(s[1..]);
      Some([n] + rest)
  }

  function Six1(x: byte): sextet { x / 4 }

  function Six2(x: byte, y: byte): sextet { x % 4 * 16 + y / 16 }

  function Six3(y: byte, z: byte): sextet { y % 16 * 4 + z / 64 }

  function Six4(z: byte): sextet { z % 64 }

  /** Bytes regrouped six bits at a time, the last group filled with zero bits. */
  function Regroup(data: seq<byte>): seq<sextet> {
    if data == [] then []
    else if |data| == 1 then [Six1(data[0]), Six2(data[0], 0)]
    else if |data| == 2 then [Six1(data[0]), Six2(data[0], data[1]), Six3(data[1], 0)]
    else [Six1(data[0]), Six2(data[0], data[1]), Six3(data[1], data[2]), Six4(data[2])] + Regroup(data[3..])
  }

  function Byte1(a: sextet, b: sextet): byte {
    var hi: int := a;
    hi * 4 + b / 16
  }

  function Byte2(b: sextet, c: sextet): byte {
    var hi: int := b % 16;
    hi * 16 + c / 4
  }

  function Byte3(c: sextet, d: sextet): byte {
    var hi: int := c % 4;
    hi * 64 + d
  }

  /** The bits a final partial group leaves over must be zero (section 3.5 of RFC 4648). */
  function Ungroup(ns: seq<sextet>): Option<seq<byte>> {
    if ns == [] then Some([])
    else if |ns| == 1 then None
    else if |ns| == 2 then
      if Byte2(ns[1], 0) == 0 then Some([Byte1(ns[0], ns[1])]) else None
    else if |ns| == 3 then
      if Byte3(ns[2], 0) == 0 then Some([Byte1(ns[0], ns[1]), Byte2(ns[1], ns[2])]) else None
    else
      var rest :- Ungroup(ns[4..]);
      Some([Byte1(ns[0], ns[1]), Byte2(ns[1], ns[2]), Byte3(ns[2], ns[3])] + rest)
  }

  function B64Url(data: seq<byte>): string {
    Symbols(Regroup(data))
  }

  function B64UrlDecode(s: string): Option<seq<byte>> {
    var ns :- SymbolValues(s);
    Ungroup(ns)
  }

  lemma SymbolExact(c: char, n: sextet)
    ensures SymbolValue(c) == Some(n) <==> c == Symbol(n)
  {
  }

  lemma {:induction false} SymbolsExact(s: string, ns: seq<sextet>)
    ensures SymbolValues(s) == Some(ns) <==> s == Symbols(ns)
  {
    if s != "" && ns != [] {
      SymbolExact(s[0], ns[0]);
      SymbolsExact(s[1..], ns[1..]);
      assert s == [s[0]] + s[1..] && ns == [ns[0]] + ns[1..];
      assert Symbols(ns)[1..] == Symbols(ns[1..]);
    }
  }

  lemma BytesOfSextets(a: sextet, b: sextet, c: sextet, d: sextet)
    ensures var x, y, z := Byte1(a, b), Byte2(b, c), Byte3(c, d);
            a == Six1(x) && b == Six2(x, y) && c == Six3(y, z) && d == Six4(z)
  {
  }

  lemma SextetsOfBytes(x: byte, y: byte, z: byte)
    ensures var a, b, c, d := Six1(x), Six2(x, y), Six3(y, z), Six4(z);
            x == Byte1(a, b) && y == Byte2(b, c) && z == Byte3(c, d)
  {
  }

  lemma {:induction false} UngroupOfRegroup(data: seq<byte>)
    ensures Ungroup(Regroup(data)) == Some(data)
  {
    hide Six1; hide Six2; hide Six3; hide Six4; hide Byte1; hide Byte2; hide Byte3;
    if |data| == 1 {
      SextetsOfBytes(data[0], 0, 0);
      Padding();
      assert data == [data[0]];
    } else if |data| == 2 {
      SextetsOfBytes(data[0], data[1], 0);
      Padding();
      assert data == [data[0], data[1]];
    } else if |data| >= 3 {
      SextetsOfBytes(data[0], data[1], data[2]);
      UngroupOfRegroup(data[3..]);
      assert Regroup(data)[4..] == Regroup(data[3..]);
      assert data == [data[0], data[1], data[2]] + data[3..];
    }
  }

  lemma Padding()
    ensures Six3(0, 0) == 0 && Six4(0) == 0
  {
  }

  lemma {:induction false} RegroupOfUngroup(ns: seq<sextet>)
    requires Ungroup(ns).Some?
    ensures Regroup(Ungroup(ns).value) == ns
  {
    hide Six1; hide Six2; hide Six3; hide Six4; hide Byte1; hide Byte2; hide Byte3;
    if |ns| == 2 {
      BytesOfSextets(ns[0], ns[1], 0, 0);
      assert ns == [ns[0], ns[1]];
    } else if |ns| == 3 {
      BytesOfSextets(ns[0], ns[1], ns[2], 0);
      assert ns == [ns[0], ns[1], ns[2]];
    } else if |ns| >= 4 {
      BytesOfSextets(ns[0], ns[1], ns[2], ns[3]);
      RegroupOfUngroup(ns[4..]);
      assert Ungroup(ns).value[3..] == Ungroup(ns[4..]).value;
      assert ns == [ns[0], ns[1], ns[2], ns[3]] + ns[4..];
    }
  }

  /** Each byte string has exactly one accepted spelling. */
  lemma B64UrlExact(s: string, data: seq<byte>)
    ensures B64UrlDecode(s) == Some(data) <==> s == B64Url(data)
  {
    SymbolsExact(s, Regroup(data));
    UngroupOfRegroup(data);
    if SymbolValues(s).Some? {
      var ns := SymbolValues(s).value;
      SymbolsExact(s, ns);
      if Ungroup(ns).Some? {
        RegroupOfUngroup(ns);
      }
    }
  }
}
