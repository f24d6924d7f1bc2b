/** The `str` operations of Rust's standard library that the editor and the server rely on,
    at character level. */
module Text {
  import opened Seqs

  /** `char::is_whitespace`: the Unicode White_Space property. */
  predicate IsWhitespace(c: char) {
    || '\t' <= c <= '\r'
    || c == ' '
    || c == '\U{85}'
    || c == '\U{A0}'
    || c == '\U{1680}'
    || '\U{2000}' <= c <= '\U{200A}'
    || c == '\U{2028}'
    || c == '\U{2029}'
    || c == '\U{202F}'
    || c == '\U{205F}'
    || c == '\U{3000}'
  }

  /** `char::is_control`: the general category Cc. */
  predicate IsControl(c: char) {
    c <= '\U{1F}' || '\U{7F}' <= c <= '\U{9F}'
  }

  ghost predicate Blank(s: string) {
    forall k :: 0 <= k < |s| ==> IsWhitespace(s[k])
  }

  /** Non-empty and free of whitespace. */
  ghost predicate Token(s: string) {
    s != "" && forall k :: 0 <= k < |s| ==> !IsWhitespace(s[k])
  }

  ghost predicate Tokens(words: seq<string>) {
    forall i :: 0 <= i < |words| ==> Token(words[i])
  }

  /** Neither end is whitespace. */
  ghost predicate Trimmed(s: string) {
    s != "" ==> !IsWhitespace(s[0]) && !IsWhitespace(s[|s| - 1])
  }

  // -- trim --

  /** How many leading characters are whitespace. */
  function BlankLength(s: string): (n: nat)
    ensures n <= |s|
    ensures forall k :: 0 <= k < n ==> IsWhitespace(s[k])
    ensures n < |s| ==> !IsWhitespace(s[n])
  {
    if s == "" || !IsWhitespace(s[0]) then 0 else 1 + BlankLength(s[1..])
  }

  /** The length up to and including the last character that is not whitespace. */
  function InkLength(s: string): (n: nat)
    ensures n <= |s|
    ensures forall k :: n <= k < |s| ==> IsWhitespace(s[k])
    ensures n > 0 ==> !IsWhitespace(s[n - 1])
  {
    if s == "" || !IsWhitespace(s[|s| - 1]) then |s| else InkLength(s[..|s| - 1])
  }

  function TrimStart(s: string): (r: string)
    ensures r != "" ==> !IsWhitespace(r[0])
  {
    s[BlankLength(s)..]
  }

  function TrimEnd(s: string): string {
    s[..InkLength(s)]
  }

  function Trim(s: string): (r: string)
    ensures Trimmed(r)
  {
    TrimEnd(TrimStart(s))
  }

  lemma TrimStartPadding(before: string, s: string)
    requires Blank(before)
    ensures TrimStart(before + s) == TrimStart(s)
  {
    var t, m := before + s, BlankLength(s);
    assert forall k :: 0 <= k < |before| + m ==> t[k] == if k < |before| then before[k] else s[k - |before|];
    assert m < |s| ==> t[|before| + m] == s[m];
    assert BlankLength(t) == |before| + m;
  }

  lemma TrimEndPadding(s: string, after: string)
    requires Blank(after)
    ensures TrimEnd(s + after) == TrimEnd(s)
  {
    var t, m := s + after, InkLength(s);
    assert forall k :: m <= k < |t| ==> t[k] == if k < |s| then s[k] else after[k - |s|];
    assert m > 0 ==> t[m - 1] == s[m - 1];
    assert InkLength(t) == m;
  }

  /** Trimming finds the core between blank ends when the core starts and ends in ink. */
  lemma TrimCore(before: string, core: string, after: string)
    requires Blank(before) && Blank(after) && Trimmed(core)
    ensures Trim(before + core + after) == core
  {
    hide IsWhitespace;
    assert before + core + after == before + (core + after);
    TrimStartPadding(before, core + after);
    if core == "" {
      TrimStartPadding(after, "");
      assert core + after == after + "";
    } else {
      TrimEndPadding(core, after);
    }
  }

  /** Every string is its trimmed core between two blank ends. */
  lemma TrimSplits(s: string) returns (before: string, after: string)
    ensures Blank(before) && Blank(after) && s == before + Trim(s) + after
  {
    var t := TrimStart(s);
    var r := TrimEnd(t);
    before, after := s[..BlankLength(s)], t[|r|..];
  }

  lemma TrimIdempotent(s: string)
    ensures Trim(Trim(s)) == Trim(s)
  {
    TrimCore("", Trim(s), "");
    assert "" + Trim(s) + "" == Trim(s);
  }

  lemma TrimPadding(before: string, s: string, after: string)
    requires Blank(before) && Blank(after)
    ensures Trim(before + s + after) == Trim(s)
  {
    var b, a := TrimSplits(s);
    assert before + s + after == (before + b) + Trim(s) + (a + after);
    TrimCore(before + b, Trim(s), a + after);
  }

  // -- split_whitespace --

  function WordLength(s: string): (n: nat)
    ensures n <= |s|
    ensures forall k :: 0 <= k < n ==> !IsWhitespace(s[k])
    ensures n < |s| ==> IsWhitespace(s[n])
  {
    if s == "" || IsWhitespace(s[0]) then 0 else 1 + WordLength(s[1..])
  }

  /** `str::split_whitespace`, collected. */
  function Fields(s: string): (words: seq<string>)
    ensures Tokens(words)
    decreases |s|
  {
    var t := TrimStart(s);
    if t == "" then [] else
      var n := WordLength(t);
      [t[..n]] + Fields(t[n..])
  }

  /** `words.join(" ")`. */
  function Join(words: seq<string>): string {
    if words == [] then ""
    else if |words| == 1 then words[0]
    else words[0] + " " + Join(words[1..])
  }

  lemma FieldsPadding(before: string, s: string)
    requires Blank(before)
    ensures Fields(before + s) == Fields(s)
  {
    TrimStartPadding(before, s);
  }

  lemma WordLengthUnique(word: string, rest: string)
    requires Token(word)
    requires rest != "" ==> IsWhitespace(rest[0])
    ensures WordLength(word + rest) == |word|
  {
    var s := word + rest;
    var n := WordLength(s);
    assert forall k :: 0 <= k < |word| ==> s[k] == word[k];
    assert rest != "" ==> s[|word|] == rest[0];
  }

  /** The first field is the leading token, and the others come from what follows it. */
  lemma FieldsStep(word: string, rest: string)
    requires Token(word)
    requires rest != "" ==> IsWhitespace(rest[0])
    ensures Fields(word + rest) == [word] + Fields(rest)
  {
    var s := word + rest;
    assert s[0] == word[0];
    assert TrimStart(s) == s;
    WordLengthUnique(word, rest);
    assert s[..|word|] == word && s[|word|..] == rest;
  }

  lemma FieldsOfBlank(s: string)
    requires Blank(s)
    ensures Fields(s) == []
  {
    TrimStartPadding(s, "");
    assert s + "" == s;
  }

  /** A string that is not blank, seen as its first field and what follows. */
  lemma FieldsHead(s: string) returns (before: string, word: string, rest: string)
    requires TrimStart(s) != ""
    ensures Blank(before) && Token(word) && s == before + (word + rest) && |rest| < |s|
    ensures rest != "" ==> IsWhitespace(rest[0])
  {
    var t := TrimStart(s);
    var n := WordLength(t);
    before, word, rest := s[..BlankLength(s)], t[..n], t[n..];
  }

  lemma FieldsPadded(before: string, word: string, rest: string)
    requires Blank(before) && Token(word)
    requires rest != "" ==> IsWhitespace(rest[0])
    ensures Fields(before + (word + rest)) == [word] + Fields(rest)
  {
    FieldsPadding(before, word + rest);
    FieldsStep(word, rest);
  }

  /** Splitting undoes joining. */
  lemma {:induction false} FieldsOfJoin(words: seq<string>)
    requires Tokens(words)
    ensures Fields(Join(words)) == words
  {
    if |words| == 1 {
      hide Fields;
      FieldsOfOne(words[0]);
      assert words == [words[0]];
    } else if |words| > 1 {
      var first, rest := words[0], words[1..];
      assert words == [first] + rest;
      assert Join(words) == first + " " + Join(rest);
      hide Fields;
      hide Join;
      FieldsOfPair(first, Join(rest));
      FieldsOfJoin(rest);
    }
  }

  lemma FieldsOfOne(word: string)
    requires Token(word)
    ensures Fields(word) == [word]
  {
    FieldsStep(word, "");
    assert word + "" == word;
  }

  lemma FieldsOfPair(word: string, rest: string)
    requires Token(word)
    ensures Fields(word + " " + rest) == [word] + Fields(rest)
  {
    assert word + " " + rest == word + (" " + rest);
    FieldsStep(word, " " + rest);
    FieldsPadding(" ", rest);
  }

  lemma {:induction false} JoinIsTrimmed(words: seq<string>)
    requires Tokens(words)
    ensures Trimmed(Join(words))
    ensures words != [] ==> Join(words) != ""
  {
    if |words| > 1 {
      JoinIsTrimmed(words[1..]);
    }
  }

  lemma {:induction false} JoinHasNoBreak(words: seq<string>)
    requires Tokens(words)
    ensures '\n' !in Join(words)
  {
    if |words| > 1 {
      JoinHasNoBreak(words[1..]);
    }
  }

  // -- lines --

  /** Position of the first `c`, or the length of the string. */
  function IndexOf(s: string, c: char): (n: nat)
    ensures n <= |s|
    ensures forall k :: 0 <= k < n ==> s[k] != c
    ensures n < |s| ==> s[n] == c
  {
    if s == "" || s[0] == c then 0 else 1 + IndexOf(s[1..], c)
  }

  lemma IndexOfUnique(a: string, c: char, b: string)
    requires c !in a
    ensures IndexOf(a + [c] + b, c) == |a|
    ensures IndexOf(a, c) == |a|
  {
    var s := a + [c] + b;
    assert forall k :: 0 <= k < |a| ==> s[k] == a[k];
    assert s[|a|] == c;
  }

  function DropCr(s: string): string {
    if s != "" && s[|s| - 1] == '\r' then s[..|s| - 1] else s
  }

  /** `str::lines`: split at `\n`, drop one `\r` before it, keep a bare final `\r`. */
  function Lines(s: string): (ls: seq<string>)
    ensures forall i :: 0 <= i < |ls| ==> '\n' !in ls[i]
    decreases |s|
  {
    if s == "" then [] else
      var n := IndexOf(s, '\n');
      if n == |s| then [s] else [DropCr(s[..n])] + Lines(s[n + 1..])
  }

  function TrimmedLines(s: string): seq<string> {
    Map(Trim, Lines(s))
  }

  lemma TrimOfDropCr(l: string)
    ensures Trim(DropCr(l)) == Trim(l)
  {
    if DropCr(l) != l {
      assert l == "" + DropCr(l) + "\r";
      TrimPadding("", DropCr(l), "\r");
    }
  }

  lemma LinesStep(l: string, rest: string)
    requires '\n' !in l
    ensures Lines(l + "\n" + rest) == [DropCr(l)] + Lines(rest)
  {
    var s := l + "\n" + rest;
    assert s == l + ['\n'] + rest;
    IndexOfUnique(l, '\n', rest);
    assert s[..|l|] == l && s[|l| + 1..] == rest;
  }

  lemma SplitFirstLine(a: string) returns (l: string, rest: string)
    requires '\n' in a
    ensures '\n' !in l && a == l + "\n" + rest && |rest| < |a|
    ensures rest != "" ==> rest[|rest| - 1] == a[|a| - 1]
  {
    var n := IndexOf(a, '\n');
    l, rest := a[..n], a[n + 1..];
  }

  /** Complete lines in front are read on their own. */
  lemma {:induction false} LinesAppend(a: string, b: string)
    requires a != "" ==> a[|a| - 1] == '\n'
    ensures Lines(a + b) == Lines(a) + Lines(b)
    decreases |a|
  {
    if a == "" {
      assert a + b == b;
    } else {
      hide Lines;
      hide DropCr;
      var l, rest := SplitFirstLine(a);
      LinesAppend(rest, b);
      Assoc(l + "\n", rest, b);
      LinesStep(l, rest);
      LinesStep(l, rest + b);
      Assoc([DropCr(l)], Lines(rest), Lines(b));
    }
  }

  /** Ending an unfinished last line changes no trimmed line: at most a stray `\r` goes. */
  lemma {:induction false} TrimmedLinesFinish(a: string)
    requires a != "" && a[|a| - 1] != '\n'
    ensures TrimmedLines(a + "\n") == TrimmedLines(a)
    decreases |a|
  {
    if '\n' in a {
      var l, rest := SplitFirstLine(a);
      assert a + "\n" == l + "\n" + (rest + "\n");
      LinesStep(l, rest);
      LinesStep(l, rest + "\n");
      TrimmedLinesFinish(rest);
    } else {
      assert a + "\n" == a + "\n" + "";
      LinesStep(a, "");
      TrimOfDropCr(a);
    }
  }

  /** Each line written back with its own `\n`. */
  function Unlines(ls: seq<string>): (s: string)
    ensures s != "" ==> s[|s| - 1] == '\n'
  {
    if ls == [] then "" else ls[0] + "\n" + Unlines(ls[1..])
  }

  lemma {:induction false} UnlinesSnoc(ls: seq<string>, l: string)
    ensures Unlines(ls + [l]) == Unlines(ls) + l + "\n"
  {
    if ls == [] {
      assert ls + [l] == [l];
    } else {
      assert (ls + [l])[1..] == ls[1..] + [l];
      UnlinesSnoc(ls[1..], l);
    }
  }

  lemma {:induction false} TrimmedLinesOfUnlines(ls: seq<string>)
    requires forall i :: 0 <= i < |ls| ==> '\n' !in ls[i]
    ensures TrimmedLines(Unlines(ls)) == Map(Trim, ls)
  {
    if ls != [] {
      LinesStep(ls[0], Unlines(ls[1..]));
      TrimOfDropCr(ls[0]);
      TrimmedLinesOfUnlines(ls[1..]);
    }
  }

  /** A line ends at `\n`, or at `\r\n`; without either it is kept as it is. */
  lemma LineEnds(line: string, rest: string)
    requires '\n' !in line && (line != "" ==> line[|line| - 1] != '\r')
    ensures Lines(line + "\n" + rest) == [line] + Lines(rest)
    ensures Lines(line + "\r\n" + rest) == [line] + Lines(rest)
    ensures Lines(line + "\r") == [line + "\r"]
    ensures line != "" ==> Lines(line) == [line]
  {
    hide Lines;
    hide DropCr;
    CrGoes(line);
    LinesStep(line, rest);
    CrLfLine(line, rest);
    LastLine(line + "\r");
    if line != "" {
      LastLine(line);
    }
  }

  lemma CrLfLine(line: string, rest: string)
    requires '\n' !in line
    ensures Lines(line + "\r\n" + rest) == [DropCr(line + "\r")] + Lines(rest)
  {
    hide Lines;
    hide DropCr;
    LinesStep(line + "\r", rest);
    Assoc(line, "\r", "\n");
    assert "\r" + "\n" == "\r\n";
  }

  lemma LastLine(line: string)
    requires '\n' !in line && line != ""
    ensures Lines(line) == [line]
  {
    IndexOfUnique(line, '\n', "");
  }

  lemma CrGoes(line: string)
    requires line != "" ==> line[|line| - 1] != '\r'
    ensures DropCr(line) == line && DropCr(line + "\r") == line
  {
  }

  /** Lines without breaks in them are read back as they were written. */
  lemma {:induction false} LinesOfUnlines(ls: seq<string>)
    requires forall i :: 0 <= i < |ls| ==> '\n' !in ls[i] && (ls[i] != "" ==> ls[i][|ls[i]| - 1] != '\r')
    ensures Lines(Unlines(ls)) == ls
  {
    if ls != [] {
      LinesStep(ls[0], Unlines(ls[1..]));
      LinesOfUnlines(ls[1..]);
      assert ls == [ls[0]] + ls[1..];
    }
  }

  // -- starts_with / contains --

  predicate StartsWith(s: string, prefix: string) {
    prefix <= s
  }

  predicate Contains(s: string, part: string) {
    exists k {:trigger s[k..]} :: 0 <= k <= |s| && part <= s[k..]
  }

  lemma ContainsAt(s: string, part: string, k: nat)
    requires k + |part| <= |s| && part == s[k..k + |part|]
    ensures Contains(s, part)
  {
    assert part <= s[k..];
  }
}
