/** The line parser of `src/authkeys.rs` against the lines sshd allows: what the quote scanner
    finds, and when parsing undoes printing. */
module Parsing {
  import opened Wrappers
  import opened Seqs
  import opened Text
  import opened AuthKeys

  // -- what the scanner finds --

  function QuotingAfter(s: string, q: Quoting): Quoting {
    if s == "" then q else QuotingAfter(s[1..], NextQuoting(q, s[0]))
  }

  /** Position `k` holds whitespace that no quote hides. */
  predicate BreaksAt(s: string, q: Quoting, k: nat)
    requires k < |s|
  {
    QuotingAfter(s[..k], q).Bare? && IsWhitespace(s[k])
  }

  lemma BreaksAtTail(s: string, q: Quoting, k: nat)
    requires 0 < k < |s|
    ensures BreaksAt(s, q, k) == BreaksAt(s[1..], NextQuoting(q, s[0]), k - 1)
  {
    assert s[..k][1..] == s[1..][..k - 1];
  }

  /** The scan stops at the first whitespace outside quotes, or at the end when there is none. */
  lemma {:induction false} ScannerStopsAtFirstBreak(s: string, q: Quoting)
    ensures var n := FirstFieldLength(s, q);
            && (n < |s| ==> BreaksAt(s, q, n))
            && forall k :: 0 <= k < n ==> !BreaksAt(s, q, k)
  {
    if s != "" && !(q.Bare? && IsWhitespace(s[0])) {
      var n := FirstFieldLength(s, q);
      ScannerStopsAtFirstBreak(s[1..], NextQuoting(q, s[0]));
      if n < |s| {
        BreaksAtTail(s, q, n);
      }
      forall k | 0 <= k < n
        ensures !BreaksAt(s, q, k)
      {
        if k > 0 {
          BreaksAtTail(s, q, k);
        }
      }
    }
  }

  // -- option fields --

  /** Inside quotes: a character that stands for itself, or any character after a backslash. */
  datatype Quotable = Literal(c: char) | Escape(c: char) {
    function Render(): string {
      match this
      case Literal(c) => [c]
      case Escape(c) => ['\\', c]
    }

    predicate Legal() {
      Literal? ==> c != '"' && c != '\\'
    }
  }

  /** An options field: characters outside quotes and quoted stretches, in any order. */
  datatype OptionPart = Plain(c: char) | Quote(body: seq<Quotable>) {
    function Render(): string {
      match this
      case Plain(c) => [c]
      case Quote(body) => "\"" + RenderBody(body) + "\""
    }

    ghost predicate Legal() {
      match this
      case Plain(c) => !IsWhitespace(c) && c != '"'
      case Quote(body) => forall i :: 0 <= i < |body| ==> body[i].Legal()
    }
  }

  function RenderBody(body: seq<Quotable>): string {
    if body == [] then "" else body[0].Render() + RenderBody(body[1..])
  }

  function RenderOptions(parts: seq<OptionPart>): string {
    if parts == [] then "" else parts[0].Render() + RenderOptions(parts[1..])
  }

  ghost predicate LegalOptions(parts: seq<OptionPart>) {
    parts != [] && forall i :: 0 <= i < |parts| ==> parts[i].Legal()
  }

  lemma FirstFieldStep(c: char, s: string, q: Quoting)
    requires !(q.Bare? && IsWhitespace(c))
    ensures FirstFieldLength([c] + s, q) == 1 + FirstFieldLength(s, NextQuoting(q, c))
  {
    assert ([c] + s)[1..] == s;
  }

  lemma {:induction false} ScanBody(body: seq<Quotable>, rest: string)
    requires forall i :: 0 <= i < |body| ==> body[i].Legal()
    ensures FirstFieldLength(RenderBody(body) + rest, Quoted) == |RenderBody(body)| + FirstFieldLength(rest, Quoted)
  {
    if body == [] {
      assert RenderBody(body) + rest == rest;
    } else {
      var tail := RenderBody(body[1..]) + rest;
      Assoc(body[0].Render(), RenderBody(body[1..]), rest);
      ScanBody(body[1..], rest);
      hide FirstFieldLength;
      assert body[0].Legal();
      if body[0].Literal? {
        FirstFieldStep(body[0].c, tail, Quoted);
      } else {
        assert body[0].Render() + tail == ['\\'] + ([body[0].c] + tail);
        FirstFieldStep('\\', [body[0].c] + tail, Quoted);
        FirstFieldStep(body[0].c, tail, Escaped);
      }
    }
  }

  lemma ScanPart(part: OptionPart, rest: string)
    requires part.Legal()
    ensures FirstFieldLength(part.Render() + rest, Bare) == |part.Render()| + FirstFieldLength(rest, Bare)
  {
    hide FirstFieldLength;
    match part
    case Plain(c) =>
      FirstFieldStep(c, rest, Bare);
    case Quote(body) =>
      assert part.Render() + rest == ['"'] + (RenderBody(body) + (['"'] + rest));
      FirstFieldStep('"', RenderBody(body) + (['"'] + rest), Bare);
      ScanBody(body, ['"'] + rest);
      FirstFieldStep('"', rest, Quoted);
  }

  lemma {:induction false} ScanOptions(parts: seq<OptionPart>, rest: string)
    requires forall i :: 0 <= i < |parts| ==> parts[i].Legal()
    ensures FirstFieldLength(RenderOptions(parts) + rest, Bare)
         == |RenderOptions(parts)| + FirstFieldLength(rest, Bare)
  {
    if parts == [] {
      assert RenderOptions(parts) + rest == rest;
    } else {
      Assoc(parts[0].Render(), RenderOptions(parts[1..]), rest);
      ScanOptions(parts[1..], rest);
      ScanPart(parts[0], RenderOptions(parts[1..]) + rest);
    }
  }

  /** A token never ends the first field: it only moves the quoting on. */
  lemma {:induction false} ScanToken(word: string, rest: string, q: Quoting)
    requires forall k :: 0 <= k < |word| ==> !IsWhitespace(word[k])
    ensures FirstFieldLength(word + rest, q) == |word| + FirstFieldLength(rest, QuotingAfter(word, q))
  {
    if word == "" {
      assert word + rest == rest;
    } else {
      assert word == [word[0]] + word[1..];
      Assoc([word[0]], word[1..], rest);
      ScanToken(word[1..], rest, NextQuoting(q, word[0]));
      hide FirstFieldLength;
      FirstFieldStep(word[0], word[1..] + rest, q);
    }
  }

  // -- printing and parsing --

  /** What follows the options: type, material and a single-spaced comment. */
  function PrintKey(keyType: string, material: string, words: seq<string>): string {
    Join([keyType, material] + words)
  }

  lemma {:induction false} FieldsAcross(a: string, gap: string, b: string)
    requires gap != "" && Blank(gap)
    ensures Fields(a + (gap + b)) == Fields(a) + Fields(b)
    decreases |a|
  {
    if TrimStart(a) == "" {
      FieldsOfBlank(a);
      FieldsPadding(a, gap + b);
      FieldsPadding(gap, b);
    } else {
      hide Fields;
      hide TrimStart;
      var before, word, rest := FieldsHead(a);
      Assoc(before, word + rest, gap + b);
      Assoc(word, rest, gap + b);
      assert (rest + (gap + b))[0] == if rest == "" then gap[0] else rest[0];
      FieldsPadded(before, word, rest + (gap + b));
      FieldsPadded(before, word, rest);
      FieldsAcross(rest, gap, b);
      Assoc([word], Fields(rest), Fields(b));
    }
  }

  lemma ParseIgnoresPadding(before: string, line: string, after: string)
    requires Blank(before) && Blank(after)
    ensures ParseLine(before + line + after) == ParseLine(line)
  {
    TrimPadding(before, line, after);
    hide Trim;
  }

  lemma ParseTrimmed(line: string, key: string)
    requires Trimmed(line) && line != "" && line[0] != '#'
    requires SkipOptions(line) == key
    ensures ParseLine(line) == FromFields(Fields(key))
  {
    TrimCore("", line, "");
    assert "" + line + "" == line;
    hide SkipOptions;
    hide Fields;
  }

  lemma ParseComment(line: string)
    requires Trimmed(line) && line != "" && line[0] == '#'
    ensures ParseLine(line) == None
  {
    TrimCore("", line, "");
    assert "" + line + "" == line;
  }

  function FromFields(fields: seq<string>): Option<KeyLine> {
    if |fields| < 2 then None else Some(KeyLine(fields[0], fields[1], Join(fields[2..])))
  }

  lemma FromPrinted(keyType: string, material: string, words: seq<string>)
    ensures FromFields([keyType, material] + words) == Some(KeyLine(keyType, material, Join(words)))
  {
    assert ([keyType, material] + words)[2..] == words;
  }

  /** A key behind extra fields is not read as that key: its comment comes out too long. */
  lemma FromShifted(extra: seq<string>, keyType: string, material: string, words: seq<string>)
    requires extra != [] && Tokens(extra) && Token(keyType) && Token(material) && Tokens(words)
    ensures FromFields(extra + ([keyType, material] + words)) != Some(KeyLine(keyType, material, Join(words)))
  {
    var fields := extra + ([keyType, material] + words);
    var tail := fields[2..];
    assert Tokens(tail) && |tail| == |words| + |extra|;
    FieldsOfJoin(tail);
    FieldsOfJoin(words);
  }

  lemma OptionsShape(parts: seq<OptionPart>)
    requires LegalOptions(parts)
    ensures RenderOptions(parts) != "" && !IsWhitespace(RenderOptions(parts)[0])
  {
    assert parts[0].Legal();
  }

  lemma SkipsOptions(options: string, gap: string, key: string)
    requires options != "" && FirstFieldLength(options + (gap + key), Bare) == |options|
    requires gap != "" && Blank(gap) && Trimmed(key) && key != ""
    ensures SkipOptions(options + (gap + key)) == if IsKeyType(options) then options + (gap + key) else key
  {
    var line := options + (gap + key);
    assert line[..|options|] == options && line[|options|..] == gap + key;
    TrimStartPadding(gap, key);
    hide FirstFieldLength;
    hide IsKeyType;
  }

  lemma PrintKeyShape(keyType: string, material: string, words: seq<string>)
    requires Token(keyType) && Token(material) && Tokens(words)
    ensures Tokens([keyType, material] + words)
    ensures Trimmed(PrintKey(keyType, material, words)) && PrintKey(keyType, material, words) != ""
    ensures Fields(PrintKey(keyType, material, words)) == [keyType, material] + words
  {
    JoinIsTrimmed([keyType, material] + words);
    FieldsOfJoin([keyType, material] + words);
    hide Join;
  }

  /** Parsing a line with any options gives back exactly what was printed, unless the options
      field starts like a comment or would itself pass for a key type. */
  lemma OptionedLineParses(before: string, parts: seq<OptionPart>, gap: string, keyType: string, material: string,
                           words: seq<string>, after: string)
    requires Blank(before) && Blank(after) && Blank(gap) && gap != ""
    requires LegalOptions(parts) && Token(keyType) && Token(material) && Tokens(words)
    ensures RenderOptions(parts) != ""
    ensures ParseLine(before + (RenderOptions(parts) + (gap + PrintKey(keyType, material, words))) + after)
              == Some(KeyLine(keyType, material, Join(words)))
       <==> RenderOptions(parts)[0] != '#' && !IsKeyType(RenderOptions(parts))
  {
    var options, key := RenderOptions(parts), PrintKey(keyType, material, words);
    OptionsShape(parts);
    PrintKeyShape(keyType, material, words);
    ParseIgnoresPadding(before, options + (gap + key), after);
    ScanOptions(parts, gap + key);
    OptionedCore(options, gap, key, keyType, material, words);
  }

  lemma OptionedCore(options: string, gap: string, key: string, keyType: string, material: string, words: seq<string>)
    requires options != "" && !IsWhitespace(options[0])
    requires FirstFieldLength(options + (gap + key), Bare) == |options| + FirstFieldLength(gap + key, Bare)
    requires gap != "" && Blank(gap) && Trimmed(key) && key != ""
    requires Token(keyType) && Token(material) && Tokens(words)
    requires Fields(key) == [keyType, material] + words
    ensures ParseLine(options + (gap + key)) == Some(KeyLine(keyType, material, Join(words)))
       <==> options[0] != '#' && !IsKeyType(options)
  {
    FirstFieldAtBreak(gap + key);
    SkipsOptions(options, gap, key);
    hide ParseLine;
    hide Fields;
    hide SkipOptions;
    hide FirstFieldLength;
    hide IsKeyType;
    var line := options + (gap + key);
    assert line[0] == options[0] && line[|line| - 1] == key[|key| - 1];
    if options[0] == '#' {
      ParseComment(line);
    } else {
      ParseTrimmed(line, SkipOptions(line));
      if IsKeyType(options) {
        FieldsAcross(options, gap, key);
        FieldsNonEmpty(options);
        FromShifted(Fields(options), keyType, material, words);
      } else {
        FromPrinted(keyType, material, words);
      }
    }
  }

  lemma FirstFieldAtBreak(s: string)
    requires s != "" && IsWhitespace(s[0])
    ensures FirstFieldLength(s, Bare) == 0
  {
  }

  lemma FieldsNonEmpty(s: string)
    requires s != "" && !IsWhitespace(s[0])
    ensures Fields(s) != []
  {
  }

  /** What a caller can check of a line before writing it without options: its type passes the
      scanner's key-type test, or else the line is no comment and quotes hide every space in it. */
  predicate Legible(keyType: string, line: string)
    requires keyType != ""
  {
    IsKeyType(keyType) || (keyType[0] != '#' && FirstFieldLength(line, Bare) == |line|)
  }

  /** A line without options parses back to what was printed exactly when it is legible; otherwise
      the type is taken for a comment or an options field, and what follows for less than it is. */
  lemma BareLineParses(keyType: string, material: string, words: seq<string>)
    requires Token(keyType) && Token(material) && Tokens(words)
    ensures var line := PrintKey(keyType, material, words);
            && (ParseLine(line) == Some(KeyLine(keyType, material, Join(words))) <==> Legible(keyType, line))
            && (!Legible(keyType, line) && ParseLine(line).Some? ==>
                  && ParseLine(line).value.comment != Join(words)
                  && (|words| == 1 ==> ParseLine(line).value == KeyLine(material, words[0], "")))
  {
    hide Join;
    hide ParseLine;
    hide Fields;
    hide SkipOptions;
    hide Legible;
    hide PrintKey;
    var line, fields := PrintKey(keyType, material, words), [keyType, material] + words;
    PrintKeyShape(keyType, material, words);
    PrintKeySplits(keyType, material, words);
    BareStarts(keyType, line);
    if line[0] == '#' {
      ParseComment(line);
    } else {
      ParseTrimmed(line, SkipOptions(line));
      var k := BareFields(keyType, material, words);
      if k == 0 {
        assert fields[k..] == fields;
        FromPrinted(keyType, material, words);
      } else {
        FromFewer(keyType, material, words, k);
      }
    }
  }

  lemma BareStarts(keyType: string, line: string)
    requires Token(keyType) && keyType <= line
    ensures line[0] == keyType[0]
    ensures line[0] == '#' ==> !Legible(keyType, line)
  {
    hide IsKeyType;
    KeyTypesAreNoComments(keyType);
  }

  /** Which of its fields a line without options is read from: all of them exactly when legible. */
  lemma BareFields(keyType: string, material: string, words: seq<string>) returns (k: nat)
    requires Token(keyType) && Token(material) && Tokens(words) && keyType[0] != '#'
    ensures var line := PrintKey(keyType, material, words);
            && k <= 2 + |words|
            && Fields(SkipOptions(line)) == ([keyType, material] + words)[k..]
            && (k == 0 <==> Legible(keyType, line))
  {
    hide Join;
    hide Fields;
    hide SkipOptions;
    hide IsKeyType;
    hide FirstFieldLength;
    var line := PrintKey(keyType, material, words);
    PrintKeyShape(keyType, material, words);
    PrintKeySplits(keyType, material, words);
    JoinIsTrimmed([material] + words);
    var n := BareScan(keyType, " " + PrintRest(material, words));
    if Legible(keyType, line) {
      k := 0;
      assert ([keyType, material] + words)[0..] == [keyType, material] + words;
    } else {
      k := BreakDropsFields(line, n);
    }
  }

  lemma KeyTypesAreNoComments(keyType: string)
    ensures IsKeyType(keyType) ==> keyType[0] != '#'
  {
  }

  /** Where the scan of a type and what follows it stops, and what is then skipped. */
  lemma BareScan(keyType: string, rest: string) returns (n: nat)
    requires Token(keyType) && rest != "" && rest[0] == ' '
    ensures n == FirstFieldLength(keyType + rest, Bare) && |keyType| <= n <= |keyType + rest|
    ensures n < |keyType + rest| ==> IsWhitespace((keyType + rest)[n])
    ensures SkipOptions(keyType + rest)
         == if n == |keyType + rest| || IsKeyType(keyType) then keyType + rest else TrimStart((keyType + rest)[n..])
  {
    var line := keyType + rest;
    n := FirstFieldLength(line, Bare);
    ScanToken(keyType, rest, Bare);
    ScannerStopsAtFirstBreak(line, Bare);
    TypeOfField(keyType, line[..n]);
    hide IsKeyType;
    hide FirstFieldLength;
  }

  /** A first field passes for a key type exactly when the token it starts with does. */
  lemma TypeOfField(keyType: string, field: string)
    requires keyType <= field && (|field| > |keyType| ==> field[|keyType|] == ' ')
    ensures IsKeyType(field) <==> IsKeyType(keyType)
  {
    PrefixOfField(keyType, field, "ssh-");
    PrefixOfField(keyType, field, "ecdsa-");
    PrefixOfField(keyType, field, "sk-");
  }

  lemma PrefixOfField(keyType: string, field: string, prefix: string)
    requires keyType <= field && (|field| > |keyType| ==> field[|keyType|] == ' ') && ' ' !in prefix
    ensures prefix <= field <==> prefix <= keyType
  {
    assert |prefix| > |keyType| ==> prefix[|keyType|] in prefix;
  }

  /** Beyond an unquoted break the first fields are lost. */
  lemma BreakDropsFields(line: string, n: nat) returns (k: nat)
    requires line != "" && !IsWhitespace(line[0]) && 0 < n < |line| && IsWhitespace(line[n])
    ensures 0 < k <= |Fields(line)| && Fields(TrimStart(line[n..])) == Fields(line)[k..]
  {
    var a, gap, b := line[..n], [line[n]], line[n + 1..];
    assert line == a + (gap + b) && line[n..] == gap + b;
    FieldsAcross(a, gap, b);
    FieldsNonEmpty(a);
    FieldsPadding(gap, b);
    FieldsOfTrimStart(line[n..]);
    hide Fields;
    k := |Fields(a)|;
  }

  lemma FieldsOfTrimStart(s: string)
    ensures Fields(TrimStart(s)) == Fields(s)
  {
    var blank := s[..BlankLength(s)];
    assert s == blank + TrimStart(s);
    FieldsPadding(blank, TrimStart(s));
    hide Fields;
  }

  /** A key read without the first fields has lost some of its comment. */
  lemma FromFewer(keyType: string, material: string, words: seq<string>, k: nat)
    requires Token(keyType) && Token(material) && Tokens(words) && 0 < k <= 2 + |words|
    ensures var parsed := FromFields(([keyType, material] + words)[k..]);
            parsed.Some? ==>
              && parsed.value.comment != Join(words)
              && (|words| == 1 ==> parsed.value == KeyLine(material, words[0], ""))
  {
    hide Fields;
    hide Join;
    hide Token;
    hide Tokens;
    var all := [keyType, material] + words;
    if k <= |words| {
      DropMore(all, k, words);
      ShorterJoin(words, k);
      if |words| == 1 {
        OneWordLeft(keyType, material, words);
      }
    }
  }

  lemma DropMore(all: seq<string>, k: nat, words: seq<string>)
    requires k <= |words| && |all| == 2 + |words| && all[2..] == words
    ensures all[k..][2..] == words[k..]
  {
  }

  lemma OneWordLeft(keyType: string, material: string, words: seq<string>)
    requires |words| == 1
    ensures FromFields(([keyType, material] + words)[1..]) == Some(KeyLine(material, words[0], ""))
  {
    var fields := ([keyType, material] + words)[1..];
    assert fields == [material, words[0]] && fields[2..] == [];
    NothingJoins();
    hide Join;
  }

  lemma ShorterJoin(words: seq<string>, k: nat)
    requires Tokens(words) && 0 < k <= |words|
    ensures Join(words[k..]) != Join(words)
  {
    hide Fields;
    hide Join;
    hide Token;
    assert Tokens(words[k..]);
    FieldsOfJoin(words[k..]);
    FieldsOfJoin(words);
    assert |words[k..]| < |words|;
  }

  lemma NothingJoins()
    ensures Join([]) == ""
  {
  }

  function PrintRest(material: string, words: seq<string>): string {
    Join([material] + words)
  }

  lemma PrintKeySplits(keyType: string, material: string, words: seq<string>)
    ensures PrintKey(keyType, material, words) == keyType + (" " + PrintRest(material, words))
  {
    assert ([keyType, material] + words)[1..] == [material] + words;
  }

  /** Without quotes in it, a type is known or its line is not legible. */
  lemma QuoteFreeTypes(keyType: string, rest: string)
    requires Token(keyType) && '"' !in keyType
    ensures Legible(keyType, keyType + (" " + rest)) <==> IsKeyType(keyType)
  {
    hide IsKeyType;
    QuoteFreeStaysBare(keyType);
    ScanToken(keyType, " " + rest, Bare);
    FirstFieldAtBreak(" " + rest);
    hide FirstFieldLength;
  }

  lemma {:induction false} QuoteFreeStaysBare(word: string)
    requires '"' !in word
    ensures QuotingAfter(word, Bare) == Bare
  {
    if word != "" {
      QuoteFreeStaysBare(word[1..]);
    }
  }

  // -- by the letters of the first field --

  /** The field begins the way an OpenSSH key type does. */
  predicate BeginsLikeAType(field: string) {
    "ssh-" <= field || "ecdsa-" <= field || "sk-" <= field
  }

  /** A line that begins like a key type parses to exactly its three parts, quotes in them or not. */
  lemma KnownTypesParse(keyType: string, material: string, words: seq<string>)
    requires Token(keyType) && BeginsLikeAType(keyType) && Token(material) && Tokens(words)
    ensures ParseLine(PrintKey(keyType, material, words)) == Some(KeyLine(keyType, material, Join(words)))
  {
    BareLineParses(keyType, material, words);
    hide ParseLine;
    hide PrintKey;
    hide Join;
  }

  /** A first field without quotes that begins like none is skipped, whatever key follows it. */
  lemma OtherFieldsAreSkipped(field: string, keyType: string, material: string, words: seq<string>)
    requires Token(field) && '"' !in field && field[0] != '#' && !BeginsLikeAType(field)
    requires Token(keyType) && Token(material) && Tokens(words)
    ensures ParseLine(field + (" " + PrintKey(keyType, material, words)))
         == Some(KeyLine(keyType, material, Join(words)))
  {
    hide ParseLine;
    hide PrintKey;
    hide Join;
    hide Fields;
    hide FirstFieldLength;
    hide IsWhitespace;
    var key := PrintKey(keyType, material, words);
    NotAType(field);
    hide IsKeyType;
    PrintKeyShape(keyType, material, words);
    QuoteFreeStaysBare(field);
    ScanToken(field, " " + key, Bare);
    assert IsWhitespace(' ') by { OneBlank(); }
    OptionedCore(field, " ", key, keyType, material, words);
  }

  lemma OneBlank()
    ensures IsWhitespace(' ')
  {
  }

  lemma NotAType(field: string)
    ensures BeginsLikeAType(field) <==> IsKeyType(field)
  {
  }
}
