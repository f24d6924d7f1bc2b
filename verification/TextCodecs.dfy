/** The text codecs of `src/util.rs` against their alphabets and bits, and the slug against the words of
    a name. */
module TextCodecs {
  import opened Wrappers
  import opened Seqs
  import opened Bytes
  import opened Util

  // -- hex --

  /** Two lowercase digits for each byte, the high one first. */
  lemma {:induction false} HexAt(data: seq<byte>, i: nat)
    requires i < |data|
    ensures |Hex(data)| == 2 * |data|
    ensures Hex(data)[2 * i] == "0123456789abcdef"[data[i] / 16]
    ensures Hex(data)[2 * i + 1] == "0123456789abcdef"[data[i] % 16]
  {
    HexShape(data);
    if i == 0 {
      DigitIs(data[0] / 16);
      DigitIs(data[0] % 16);
    } else {
      HexAt(data[1..], i - 1);
      assert Hex(data)[2..] == Hex(data[1..]);
      assert Hex(data)[2 * i] == Hex(data[1..])[2 * i - 2] && Hex(data)[2 * i + 1] == Hex(data[1..])[2 * i - 1];
    }
  }

  lemma DigitIs(n: nat)
    requires n < 16
    ensures HexDigit(n) == "0123456789abcdef"[n]
  {
  }

  // -- base64url --

  /** Table 2 in section 5 of RFC 4648. */
  lemma SymbolIs(n: sextet)
    ensures Symbol(n) == (if n < 26 then "ABCDEFGHIJKLMNOPQRSTUVWXYZ"[n]
                          else if n < 52 then "abcdefghijklmnopqrstuvwxyz"[n - 26]
                          else "0123456789-_"[n - 52])
  {
  }

  type bit = b: int | 0 <= b < 2

  /** A number in so many bits, the high one first. */
  function Bits(width: nat, n: nat): (s: seq<bit>)
    ensures |s| == width
  {
    if width == 0 then [] else Bits(width - 1, n / 2) + [n % 2]
  }

  function Pow2(k: nat): (p: nat)
    ensures p > 0
  {
    if k == 0 then 1 else 2 * Pow2(k - 1)
  }

  /** High bits above low bits. */
  lemma {:induction false} BitsSplit(width: nat, k: nat, high: nat, low: nat)
    requires low < Pow2(k)
    ensures Bits(width + k, high * Pow2(k) + low) == Bits(width, high) + Bits(k, low)
  {
    if k == 0 {
      assert high * Pow2(0) == high;
      assert Bits(width, high) + [] == Bits(width, high);
    } else {
      var p, n := high * Pow2(k - 1), high * Pow2(k) + low;
      Twice(high, Pow2(k - 1));
      assert n == 2 * p + low && n / 2 == p + low / 2 && n % 2 == low % 2;
      BitsSplit(width, k - 1, high, low / 2);
      Assoc(Bits(width, high), Bits(k - 1, low / 2), [low % 2]);
    }
  }

  lemma Twice(a: nat, p: nat)
    ensures a * (2 * p) == 2 * (a * p)
  {
  }

  lemma Pow2Values()
    ensures Pow2(2) == 4 && Pow2(4) == 16 && Pow2(6) == 64
  {
    assert Pow2(4) == 2 * Pow2(3);
    assert Pow2(6) == 2 * Pow2(5);
  }

  function BitsOfBytes(data: seq<byte>): seq<bit> {
    if data == [] then [] else Bits(8, data[0]) + BitsOfBytes(data[1..])
  }

  function BitsOfSextets(ns: seq<sextet>): seq<bit> {
    if ns == [] then [] else Bits(6, ns[0]) + BitsOfSextets(ns[1..])
  }

  lemma ByteHalves(x: byte, y: byte, z: byte)
    ensures Bits(8, x) == Bits(6, x / 4) + Bits(2, x % 4)
    ensures Bits(8, y) == Bits(4, y / 16) + Bits(4, y % 16)
    ensures Bits(8, z) == Bits(2, z / 64) + Bits(6, z % 64)
  {
    hide Bits;
    Pow2Values();
    hide Pow2;
    SplitAt(6, 2, 4, x / 4, x % 4, x);
    SplitAt(4, 4, 16, y / 16, y % 16, y);
    SplitAt(2, 6, 64, z / 64, z % 64, z);
  }

  lemma SplitAt(width: nat, k: nat, p: nat, high: nat, low: nat, n: nat)
    requires p == Pow2(k) && low < p && n == high * p + low
    ensures Bits(width + k, n) == Bits(width, high) + Bits(k, low)
  {
    BitsSplit(width, k, high, low);
  }

  lemma SextetHalves(x: byte, y: byte, z: byte)
    ensures Bits(6, Six1(x)) == Bits(6, x / 4)
    ensures Bits(6, Six2(x, y)) == Bits(2, x % 4) + Bits(4, y / 16)
    ensures Bits(6, Six3(y, z)) == Bits(4, y % 16) + Bits(2, z / 64)
    ensures Bits(6, Six4(z)) == Bits(6, z % 64)
  {
    hide Bits;
    Pow2Values();
    hide Pow2;
    SplitAt(2, 4, 16, x % 4, y / 16, Six2(x, y));
    SplitAt(4, 2, 4, y % 16, z / 64, Six3(y, z));
  }

  function Zeros(n: nat): (s: seq<bit>) {
    seq(n, _ => 0)
  }

  lemma BytesStep(x: byte, rest: seq<byte>)
    ensures BitsOfBytes([x] + rest) == Bits(8, x) + BitsOfBytes(rest)
  {
    hide Bits;
    assert ([x] + rest)[1..] == rest;
  }

  lemma SextetsStep(n: sextet, rest: seq<sextet>)
    ensures BitsOfSextets([n] + rest) == Bits(6, n) + BitsOfSextets(rest)
  {
    hide Bits;
    assert ([n] + rest)[1..] == rest;
  }

  lemma NoBits(width: nat)
    ensures Bits(width, 0) == Zeros(width)
  {
    if width > 0 {
      NoBits(width - 1);
    }
  }

  function Fill(length: nat): seq<bit> {
    Zeros(if length % 3 == 1 then 4 else if length % 3 == 2 then 2 else 0)
  }

  lemma OneByte(x: byte)
    ensures BitsOfSextets([Six1(x)] + ([Six2(x, 0)] + [])) == BitsOfBytes([x] + []) + Zeros(4)
  {
    ByteHalves(x, 0, 0);
    SextetHalves(x, 0, 0);
    NoBits(4);
    hide Bits;
    hide Six1;
    hide Six2;
    SextetsStep(Six1(x), [Six2(x, 0)] + []);
    SextetsStep(Six2(x, 0), []);
    BytesStep(x, []);
    hide BitsOfSextets;
    hide BitsOfBytes;
    Shuffle1(Bits(6, x / 4), Bits(2, x % 4), Zeros(4));
  }

  lemma Shuffle1(a: seq<bit>, b: seq<bit>, z: seq<bit>)
    ensures a + ((b + z) + []) == ((a + b) + []) + z
  {
  }

  lemma TwoBytes(x: byte, y: byte)
    ensures BitsOfSextets([Six1(x)] + ([Six2(x, y)] + ([Six3(y, 0)] + [])))
         == BitsOfBytes([x] + ([y] + [])) + Zeros(2)
  {
    ByteHalves(x, y, 0);
    SextetHalves(x, y, 0);
    NoBits(2);
    hide Bits;
    hide Six1;
    hide Six2;
    hide Six3;
    SextetsStep(Six1(x), [Six2(x, y)] + ([Six3(y, 0)] + []));
    SextetsStep(Six2(x, y), [Six3(y, 0)] + []);
    SextetsStep(Six3(y, 0), []);
    BytesStep(x, [y] + []);
    BytesStep(y, []);
    hide BitsOfSextets;
    hide BitsOfBytes;
    Shuffle2(Bits(6, x / 4), Bits(2, x % 4), Bits(4, y / 16), Bits(4, y % 16), Zeros(2));
  }

  lemma Shuffle2(a: seq<bit>, b: seq<bit>, c: seq<bit>, d: seq<bit>, z: seq<bit>)
    ensures a + ((b + c) + ((d + z) + [])) == ((a + b) + ((c + d) + [])) + z
  {
  }

  lemma ThreeBytesStep(x: byte, y: byte, z: byte, ns: seq<sextet>, rest: seq<byte>, fill: seq<bit>)
    requires BitsOfSextets(ns) == BitsOfBytes(rest) + fill
    ensures BitsOfSextets([Six1(x)] + ([Six2(x, y)] + ([Six3(y, z)] + ([Six4(z)] + ns))))
         == BitsOfBytes([x] + ([y] + ([z] + rest))) + fill
  {
    ByteHalves(x, y, z);
    SextetHalves(x, y, z);
    hide Bits;
    hide Six1;
    hide Six2;
    hide Six3;
    hide Six4;
    SextetsStep(Six1(x), [Six2(x, y)] + ([Six3(y, z)] + ([Six4(z)] + ns)));
    SextetsStep(Six2(x, y), [Six3(y, z)] + ([Six4(z)] + ns));
    SextetsStep(Six3(y, z), [Six4(z)] + ns);
    SextetsStep(Six4(z), ns);
    BytesStep(x, [y] + ([z] + rest));
    BytesStep(y, [z] + rest);
    BytesStep(z, rest);
    hide BitsOfSextets;
    Shuffle3(Bits(6, x / 4), Bits(2, x % 4), Bits(4, y / 16), Bits(4, y % 16), Bits(2, z / 64), Bits(6, z % 64),
             BitsOfBytes(rest), fill);
    hide BitsOfBytes;
  }

  lemma Shuffle3(a: seq<bit>, b: seq<bit>, c: seq<bit>, d: seq<bit>, e: seq<bit>, f: seq<bit>, r: seq<bit>, z: seq<bit>)
    ensures a + ((b + c) + ((d + e) + (f + (r + z)))) == ((a + b) + ((c + d) + ((e + f) + r))) + z
  {
  }

  /** Sextets are the bits of the bytes six at a time, filled with zero bits at the end (section 4 of
      RFC 4648). */
  lemma {:induction false} RegroupKeepsBits(data: seq<byte>)
    ensures BitsOfSextets(Regroup(data)) == BitsOfBytes(data) + Fill(|data|)
    decreases |data|
  {
    hide Bits;
    hide Six1;
    hide Six2;
    hide Six3;
    hide Six4;
    if |data| == 1 {
      OneByte(data[0]);
      assert data == [data[0]] + [];
      assert Regroup(data) == [Six1(data[0])] + ([Six2(data[0], 0)] + []);
    } else if |data| == 2 {
      TwoBytes(data[0], data[1]);
      assert data == [data[0]] + ([data[1]] + []);
      assert Regroup(data) == [Six1(data[0])] + ([Six2(data[0], data[1])] + ([Six3(data[1], 0)] + []));
    } else if |data| >= 3 {
      var x, y, z, rest := data[0], data[1], data[2], data[3..];
      RegroupKeepsBits(rest);
      SameFill(|rest|);
      hide BitsOfSextets;
      hide BitsOfBytes;
      hide Fill;
      ThreeBytesStep(x, y, z, Regroup(rest), rest, Fill(|data|));
      assert data == [x] + ([y] + ([z] + rest));
      RegroupStep(x, y, z, rest);
    }
  }

  lemma SameFill(length: nat)
    ensures Fill(length + 3) == Fill(length)
  {
  }

  lemma RegroupStep(x: byte, y: byte, z: byte, rest: seq<byte>)
    ensures Regroup([x] + ([y] + ([z] + rest)))
         == [Six1(x)] + ([Six2(x, y)] + ([Six3(y, z)] + ([Six4(z)] + Regroup(rest))))
  {
    hide Six1;
    hide Six2;
    hide Six3;
    hide Six4;
    var data := [x] + ([y] + ([z] + rest));
    assert data[3..] == rest;
  }

  /** The URL text of bytes, symbol by symbol: the alphabet at each sextet of their bits. */
  lemma {:induction false} SymbolsAt(ns: seq<sextet>, i: nat)
    requires i < |ns|
    ensures |Symbols(ns)| == |ns| && Symbols(ns)[i] == Symbol(ns[i])
  {
    if i > 0 {
      SymbolsAt(ns[1..], i - 1);
    } else if |ns| > 1 {
      SymbolsAt(ns[1..], 0);
    }
  }

  // -- slugs --

  /** The letters kept are the 52 ASCII ones, capitals made small, and the ten digits; a dash is kept. */
  lemma AsciiLetters(c: char)
    ensures IsAlnum(c) <==> c in "ABCDEFGHIJKLMNOPQRSTUVWXYZ" || c in "abcdefghijklmnopqrstuvwxyz" || c in "0123456789"
    ensures forall i :: 0 <= i < 26 ==> ToLower("ABCDEFGHIJKLMNOPQRSTUVWXYZ"[i]) == "abcdefghijklmnopqrstuvwxyz"[i]
    ensures c !in "ABCDEFGHIJKLMNOPQRSTUVWXYZ" ==> ToLower(c) == c
  {
    Capital(c);
    Small(c);
    Digit(c);
  }

  lemma Capital(c: char)
    ensures IsUpper(c) <==> c in "ABCDEFGHIJKLMNOPQRSTUVWXYZ"
  {
    if IsUpper(c) {
      assert c == "ABCDEFGHIJKLMNOPQRSTUVWXYZ"[c as int - 65];
    }
  }

  lemma Small(c: char)
    ensures IsLower(c) <==> c in "abcdefghijklmnopqrstuvwxyz"
  {
    if IsLower(c) {
      assert c == "abcdefghijklmnopqrstuvwxyz"[c as int - 97];
    }
  }

  lemma Digit(c: char)
    ensures IsDigit(c) <==> c in "0123456789"
  {
    if IsDigit(c) {
      assert c == "0123456789"[c as int - 48];
    }
  }

  /** How many characters at the front are ASCII letters and digits. */
  function RunLength(s: string): (n: nat)
    ensures n <= |s|
    ensures forall k :: 0 <= k < n ==> IsAlnum(s[k])
    ensures n < |s| ==> !IsAlnum(s[n])
  {
    if s == "" || !IsAlnum(s[0]) then 0 else 1 + RunLength(s[1..])
  }

  /** The words of a name: its runs of ASCII letters and digits, lowercased. */
  function Words(s: string): seq<string>
    decreases |s|
  {
    if s == "" then []
    else if !IsAlnum(s[0]) then Words(s[1..])
    else [Map(ToLower, s[..RunLength(s)])] + Words(s[RunLength(s)..])
  }

  function Dashed(words: seq<string>): string {
    if words == [] then ""
    else if |words| == 1 then words[0]
    else words[0] + "-" + Dashed(words[1..])
  }

  lemma {:induction false} RunIsKebab(run: string, rest: string, lastDash: bool)
    requires forall k :: 0 <= k < |run| ==> IsAlnum(run[k])
    ensures Kebab(run + rest, lastDash) == Map(ToLower, run) + Kebab(rest, if run == "" then lastDash else false)
  {
    hide ToLower;
    if run == "" {
      assert run + rest == rest;
    } else {
      var c, more := run[0], run[1..];
      assert run + rest == [c] + (more + rest);
      KebabStep(c, more + rest, lastDash);
      RunIsKebab(more, rest, false);
      Assoc([ToLower(c)], Map(ToLower, more), Kebab(rest, false));
      hide Kebab;
    }
  }

  /** Up to a dash at the end, kebab-case is the words joined by dashes. */
  ghost predicate DashedUpToEnd(kebab: string, words: seq<string>) {
    kebab == Dashed(words) || (words != [] && kebab == Dashed(words) + "-")
  }

  lemma {:induction false} KebabIsDashed(s: string)
    ensures DashedUpToEnd(Kebab(s, true), Words(s))
    decreases |s|
  {
    hide ToLower;
    if s != "" && !IsAlnum(s[0]) {
      KebabIsDashed(s[1..]);
    } else if s != "" {
      var n := RunLength(s);
      var run, rest := s[..n], s[n..];
      assert s == run + rest;
      RunIsKebab(run, rest, true);
      if rest != "" {
        KebabIsDashed(rest[1..]);
        RestIsKebab(rest);
        DashedStep(Map(ToLower, run), Kebab(rest[1..], true), Words(rest[1..]));
      }
    }
  }

  lemma RestIsKebab(rest: string)
    requires rest != "" && !IsAlnum(rest[0])
    ensures Kebab(rest, false) == "-" + Kebab(rest[1..], true) && Words(rest) == Words(rest[1..])
  {
  }

  lemma DashedStep(word: string, kebab: string, words: seq<string>)
    requires DashedUpToEnd(kebab, words)
    ensures DashedUpToEnd(word + ("-" + kebab), [word] + words)
  {
    if words == [] {
      assert [word] + words == [word];
      assert word + ("-" + "") == word + "-";
    } else {
      assert ([word] + words)[1..] == words;
      Assoc(word, "-", Dashed(words));
      assert word + ("-" + (Dashed(words) + "-")) == (word + "-" + Dashed(words)) + "-";
    }
  }

  /** Not empty, and lowercase letters and digits all through. */
  ghost predicate IsWord(w: string) {
    w != "" && forall k :: 0 <= k < |w| ==> IsLower(w[k]) || IsDigit(w[k])
  }

  lemma {:induction false} WordsAreWords(s: string)
    ensures forall i :: 0 <= i < |Words(s)| ==> IsWord(Words(s)[i])
    decreases |s|
  {
    if s != "" && !IsAlnum(s[0]) {
      WordsAreWords(s[1..]);
    } else if s != "" {
      WordsAreWords(s[RunLength(s)..]);
    }
  }

  lemma {:induction false} DashedEndsInWord(words: seq<string>)
    requires words != [] && forall i :: 0 <= i < |words| ==> IsWord(words[i])
    ensures Dashed(words) != "" && Dashed(words)[|Dashed(words)| - 1] != '-' && Dashed(words)[0] != '-'
  {
    assert IsWord(words[0]);
    if |words| > 1 {
      DashedEndsInWord(words[1..]);
    }
  }

  /** The slug of a name: its words joined by dashes, cut to 24 characters and not left ending in a dash;
      "device" when it has none. */
  lemma SlugJoinsWords(name: string)
    ensures var whole := Dashed(Words(name));
            Slug(name) == if Words(name) == [] then "device"
                          else if |whole| <= 24 then whole
                          else if whole[23] == '-' then whole[..23]
                          else whole[..24]
  {
    var words := Words(name);
    var whole := Dashed(words);
    KebabIsDashed(name);
    KebabShape(name, true);
    WordsAreWords(name);
    if words != [] {
      DashedEndsInWord(words);
      hide Kebab;
      hide Words;
      hide Dashed;
      CutOfKebab(Kebab(name, true), whole);
    }
  }

  lemma CutOfKebab(kebab: string, whole: string)
    requires kebab == whole || kebab == whole + "-"
    requires whole != "" && whole[0] != '-' && whole[|whole| - 1] != '-' && NoDoubledDash(kebab)
    ensures var cut := DropTrailingDashes(DropLeadingDashes(Cap(kebab)));
            && cut != ""
            && cut == if |whole| <= 24 then whole else if whole[23] == '-' then whole[..23] else whole[..24]
  {
    var capped := Cap(kebab);
    assert capped[0] == whole[0];
    assert DropLeadingDashes(capped) == capped;
    if |whole| < 24 && kebab != whole {
      assert capped == whole + "-";
      OneDashDropped(whole);
    } else if |whole| <= 24 {
      assert capped == whole;
    } else {
      assert capped == whole[..24];
      if whole[23] == '-' {
        assert kebab[22] != '-';
        assert whole[..24] == whole[..23] + "-";
        OneDashDropped(whole[..23]);
      }
    }
  }

  lemma OneDashDropped(s: string)
    requires s != "" && s[|s| - 1] != '-'
    ensures DropTrailingDashes(s + "-") == s
  {
    assert (s + "-")[..|s|] == s;
  }
}
