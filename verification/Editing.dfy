/** The edits of `src/authkeys.rs` on text, refined by the same edits on a list of entries. */
module Editing {
  import opened Wrappers
  import opened Seqs
  import opened Text
  import opened AuthKeys
  import opened Parsing

  // -- the abstract file --

  /** A trimmed line, and the key it carries when the parser finds one. */
  datatype Entry = Other(text: string) | Key(text: string, key: KeyLine)

  function Classify(line: string): Entry {
    match ParseLine(line)
    case Some(key) => Key(Trim(line), key)
    case None => Other(Trim(line))
  }

  function Entries(content: string): seq<Entry> {
    Map(Classify, TrimmedLines(content))
  }

  /** `None` is a file that cannot be read. */
  function View(disk: Disk): Option<seq<Entry>> {
    match disk
    case Missing => Some([])
    case Readable(content) => Some(Entries(content))
    case Unreadable => None
  }

  function MarkOf(e: Entry): Option<MarkedKey> {
    match e
    case Other(_) => None
    case Key(text, key) => MarkOfKey(key, text)
  }

  function Marks(es: seq<Entry>): seq<MarkedKey> {
    Picked(MarkOf, es)
  }

  function Unmarked(es: seq<Entry>): seq<Entry> {
    Unpicked(MarkOf, es)
  }

  /** The comment of the first entry that holds the key material. */
  function Holder(es: seq<Entry>, material: string): Option<string> {
    if es == [] then None
    else if es[0].Key? && es[0].key.material == material then Some(es[0].key.comment)
    else Holder(es[1..], material)
  }

  // -- the edits --

  datatype Edit =
    | Ensure(keyType: string, material: string, comment: string, fault: bool)
    | Remove(sel: MarkedKey -> bool, fault: bool)

  datatype Report =
    | Ensured(added: Result<AddOutcome, IoError>)
    | Unbound(removed: Result<seq<MarkedKey>, IoError>)

  function EditDisk(disk: Disk, e: Edit): (Report, Disk) {
    match e
    case Ensure(keyType, material, comment, fault) =>
      var (r, d) := EnsureDisk(disk, keyType, material, comment, fault);
      (Ensured(r), d)
    case Remove(sel, fault) =>
      var (r, d) := RemoveDisk(disk, sel, fault);
      (Unbound(r), d)
  }

  function EnsureEntries(es: seq<Entry>, keyType: string, material: string, comment: string, fault: bool)
    : (Result<AddOutcome, IoError>, seq<Entry>)
  {
    match Holder(es, material)
    case Some(existing) => (Ok(AlreadyPresent(existing)), es)
    case None =>
      if fault then (Err(WriteFailed), es)
      else (Ok(Added), es + [Classify(KeyText(keyType, material, comment))])
  }

  function SelectedEntry(sel: MarkedKey -> bool): Entry -> Option<MarkedKey> {
    (e: Entry) => Chosen(MarkOf(e), sel)
  }

  function RemoveEntries(es: seq<Entry>, sel: MarkedKey -> bool, fault: bool)
    : (Result<seq<MarkedKey>, IoError>, seq<Entry>)
  {
    var removed := Picked(SelectedEntry(sel), es);
    if removed == [] then (Ok([]), es)
    else if fault then (Err(WriteFailed), es)
    else (Ok(removed), Unpicked(SelectedEntry(sel), es))
  }

  function EditEntries(view: Option<seq<Entry>>, e: Edit): (Report, Option<seq<Entry>>) {
    match (view, e)
    case (None, Ensure(_, _, _, _)) => (Ensured(Err(ReadFailed)), None)
    case (None, Remove(_, _)) => (Unbound(Err(ReadFailed)), None)
    case (Some(es), Ensure(keyType, material, comment, fault)) =>
      var (r, es') := EnsureEntries(es, keyType, material, comment, fault);
      (Ensured(r), Some(es'))
    case (Some(es), Remove(sel, fault)) =>
      var (r, es') := RemoveEntries(es, sel, fault);
      (Unbound(r), Some(es'))
  }

  /** One line stays one line: no line break in what is appended. */
  ghost predicate OneLine(e: Edit) {
    e.Ensure? ==> '\n' !in e.keyType && '\n' !in e.material && '\n' !in e.comment
  }

  // -- text refines entries --

  lemma ParseOfTrim(line: string)
    ensures ParseLine(Trim(line)) == ParseLine(line)
    ensures Classify(Trim(line)) == Classify(line)
  {
    TrimIdempotent(line);
    hide Trim;
  }

  lemma MarkOfLine(line: string)
    ensures MarkOf(Classify(Trim(line))) == MarkedKeyOf(line)
  {
    ParseOfTrim(line);
    hide ParseLine;
    hide Trim;
  }

  lemma {:induction false} HolderOfLines(lines: seq<string>, material: string)
    ensures Holder(Map(Classify, Map(Trim, lines)), material) == HolderOf(lines, material)
  {
    if lines != [] {
      ParseOfTrim(lines[0]);
      HolderOfLines(lines[1..], material);
      hide ParseLine;
      hide Trim;
      assert Map(Classify, Map(Trim, lines))[1..] == Map(Classify, Map(Trim, lines[1..]));
    }
  }

  lemma SelectedLine(sel: MarkedKey -> bool, line: string)
    ensures SelectedEntry(sel)(Classify(Trim(line))) == Selected(sel)(line)
  {
    MarkOfLine(line);
    hide Classify;
    hide MarkOf;
    hide MarkedKeyOf;
  }

  lemma {:induction false} SplitOfLines(lines: seq<string>, sel: MarkedKey -> bool)
    ensures var es := Map(Classify, Map(Trim, lines));
            && Picked(SelectedEntry(sel), es) == Removed(lines, sel)
            && Unpicked(SelectedEntry(sel), es) == Map(Classify, Map(Trim, Kept(lines, sel)))
  {
    if lines != [] {
      SelectedLine(sel, lines[0]);
      SplitOfLines(lines[1..], sel);
      hide Classify;
      hide Trim;
      hide Selected;
      hide SelectedEntry;
      var es := Map(Classify, Map(Trim, lines));
      assert es[0] == Classify(Trim(lines[0]));
      assert es[1..] == Map(Classify, Map(Trim, lines[1..]));
    }
  }

  lemma KeptLinesUnbroken(content: string, sel: MarkedKey -> bool)
    ensures forall i :: 0 <= i < |Kept(Lines(content), sel)| ==> '\n' !in Kept(Lines(content), sel)[i]
  {
    UnpickedExactly(Selected(sel), Lines(content));
    hide Selected;
    forall i | 0 <= i < |Kept(Lines(content), sel)|
      ensures '\n' !in Kept(Lines(content), sel)[i]
    {
      assert Kept(Lines(content), sel)[i] in Lines(content);
    }
  }

  lemma AppendedLines(content: string, line: string)
    requires '\n' !in line
    ensures TrimmedLines(AppendLine(content, line)) == TrimmedLines(content) + [Trim(line)]
  {
    var closed := content + (if content != "" && content[|content| - 1] != '\n' then "\n" else "");
    assert AppendLine(content, line) == closed + (line + "\n");
    if content != "" && content[|content| - 1] != '\n' {
      TrimmedLinesFinish(content);
    } else {
      assert closed == content;
    }
    AppendedToClosed(closed, line);
  }

  lemma AppendedToClosed(closed: string, line: string)
    requires closed != "" ==> closed[|closed| - 1] == '\n'
    requires '\n' !in line
    ensures TrimmedLines(closed + (line + "\n")) == TrimmedLines(closed) + [Trim(line)]
  {
    LinesAppend(closed, line + "\n");
    assert line + "\n" == line + "\n" + "";
    LinesStep(line, "");
    assert Lines(line + "\n") == [DropCr(line)];
    TrimOfDropCr(line);
    hide Lines;
    hide Trim;
    hide DropCr;
    MapAppend(Trim, Lines(closed), [DropCr(line)]);
  }

  lemma EnsureRefines(content: string, keyType: string, material: string, comment: string, fault: bool)
    requires '\n' !in keyType && '\n' !in material && '\n' !in comment
    ensures var (r, d) := EnsureDisk(Readable(content), keyType, material, comment, fault);
            && d.Readable?
            && (r, Entries(d.content)) == EnsureEntries(Entries(content), keyType, material, comment, fault)
  {
    hide Classify;
    hide HolderOf;
    hide Holder;
    hide AppendLine;
    hide Trim;
    hide Lines;
    hide KeyText;
    var line := KeyText(keyType, material, comment);
    KeyTextHasNoBreak(keyType, material, comment);
    HolderOfLines(Lines(content), material);
    AppendedLines(content, line);
    MapAppend(Classify, TrimmedLines(content), [Trim(line)]);
    ParseOfTrim(line);
    assert Map(Classify, [Trim(line)]) == [Classify(line)];
  }

  lemma KeyTextHasNoBreak(keyType: string, material: string, comment: string)
    requires '\n' !in keyType && '\n' !in material && '\n' !in comment
    ensures '\n' !in KeyText(keyType, material, comment)
  {
  }

  lemma RemoveRefines(content: string, sel: MarkedKey -> bool, fault: bool)
    ensures var (r, d) := RemoveDisk(Readable(content), sel, fault);
            && d.Readable?
            && (r, Entries(d.content)) == RemoveEntries(Entries(content), sel, fault)
  {
    hide Classify;
    hide Removed;
    hide Kept;
    hide SelectedEntry;
    hide Lines;
    hide Unlines;
    hide Trim;
    hide Map;
    hide Picked;
    hide Unpicked;
    var lines := Lines(content);
    SplitOfLines(lines, sel);
    KeptLinesUnbroken(content, sel);
    TrimmedLinesOfUnlines(Kept(lines, sel));
  }

  /** One edit of the text is the same edit of the entry list, with the same report. */
  lemma EditRefines(disk: Disk, e: Edit)
    requires OneLine(e)
    ensures EditEntries(View(disk), e) == (EditDisk(disk, e).0, View(EditDisk(disk, e).1))
  {
    match disk
    case Unreadable =>
    case Missing =>
      MissingIsEmpty(e);
      ReadableRefines("", e);
    case Readable(content) =>
      ReadableRefines(content, e);
  }

  lemma MissingIsEmpty(e: Edit)
    ensures View(Missing) == View(Readable(""))
    ensures EditDisk(Missing, e).0 == EditDisk(Readable(""), e).0
    ensures View(EditDisk(Missing, e).1) == View(EditDisk(Readable(""), e).1)
  {
  }

  lemma ReadableRefines(content: string, e: Edit)
    requires OneLine(e)
    ensures EditEntries(View(Readable(content)), e)
         == (EditDisk(Readable(content), e).0, View(EditDisk(Readable(content), e).1))
  {
    match e
    case Ensure(keyType, material, comment, fault) =>
      EnsureRefines(content, keyType, material, comment, fault);
      hide Entries;
      hide EnsureDisk;
      hide EnsureEntries;
    case Remove(sel, fault) =>
      RemoveRefines(content, sel, fault);
      hide Entries;
      hide RemoveDisk;
      hide RemoveEntries;
  }

  function RunDisk(disk: Disk, edits: seq<Edit>): (seq<Report>, Disk)
    decreases |edits|
  {
    if edits == [] then ([], disk)
    else
      var (r, d) := EditDisk(disk, edits[0]);
      var (rs, d') := RunDisk(d, edits[1..]);
      ([r] + rs, d')
  }

  function RunEntries(view: Option<seq<Entry>>, edits: seq<Edit>): (seq<Report>, Option<seq<Entry>>)
    decreases |edits|
  {
    if edits == [] then ([], view)
    else
      var (r, v) := EditEntries(view, edits[0]);
      var (rs, v') := RunEntries(v, edits[1..]);
      ([r] + rs, v')
  }

  /** Any run of binds and unbinds on the text, faults included, is that run on the entry list. */
  lemma {:induction false} RunRefines(disk: Disk, edits: seq<Edit>)
    requires forall i :: 0 <= i < |edits| ==> OneLine(edits[i])
    ensures RunEntries(View(disk), edits) == (RunDisk(disk, edits).0, View(RunDisk(disk, edits).1))
    decreases |edits|
  {
    if edits != [] {
      EditRefines(disk, edits[0]);
      RunRefines(EditDisk(disk, edits[0]).1, edits[1..]);
      hide EditDisk;
      hide EditEntries;
      hide View;
    }
  }

  // -- what any run keeps --

  /** An enrolment that reads back: plain tokens and a single-spaced comment, on a legible line. */
  ghost predicate WellFormed(e: Edit) {
    e.Ensure? ==> WellFormedKey(e.keyType, e.material, e.comment)
  }

  ghost predicate WellFormedKey(keyType: string, material: string, comment: string) {
    PlainKey(keyType, material, comment) && LegibleKey(keyType, material, comment)
  }

  /** Plain tokens and a single-spaced comment, under any type. */
  ghost predicate PlainKey(keyType: string, material: string, comment: string) {
    Token(keyType) && Token(material) && Join(Fields(comment)) == comment
  }

  /** The line an enrolment appends, legible once trimmed. */
  predicate LegibleKey(keyType: string, material: string, comment: string) {
    keyType != "" && Legible(keyType, Trim(KeyText(keyType, material, comment)))
  }

  lemma PlainIsOneLine(keyType: string, material: string, comment: string)
    requires PlainKey(keyType, material, comment)
    ensures '\n' !in keyType && '\n' !in material && '\n' !in comment
  {
    assert IsWhitespace('\n');
    hide IsWhitespace;
    hide Fields;
    hide Join;
    JoinHasNoBreak(Fields(comment));
  }

  /** The appended line parses back to what was enrolled exactly when it is legible; otherwise its
      comment is not found, and a comment of one field is taken for the material. */
  lemma KeyTextReads(keyType: string, material: string, comment: string)
    requires PlainKey(keyType, material, comment)
    ensures var parsed := ParseLine(KeyText(keyType, material, comment));
            && (parsed == Some(KeyLine(keyType, material, comment)) <==> LegibleKey(keyType, material, comment))
            && (!LegibleKey(keyType, material, comment) && parsed.Some? ==>
                  && parsed.value.comment != comment
                  && (Token(comment) ==> parsed.value == KeyLine(material, comment, "")))
  {
    hide ParseLine;
    hide Legible;
    hide Fields;
    hide KeyText;
    hide PrintKey;
    hide Join;
    hide Trim;
    var words := Fields(comment);
    var line := PrintKey(keyType, material, words);
    var end := if words == [] then " " else "";
    BareLineParses(keyType, material, words);
    KeyTextIsPrinted(keyType, material, words);
    PrintKeyShape(keyType, material, words);
    ParseIgnoresPadding("", line, end);
    TrimCore("", line, end);
    assert "" + line + end == line + end;
    if Token(comment) {
      FieldsOfOne(comment);
    }
  }

  lemma KeyTextParses(keyType: string, material: string, comment: string)
    requires WellFormedKey(keyType, material, comment)
    ensures ParseLine(KeyText(keyType, material, comment)) == Some(KeyLine(keyType, material, comment))
  {
    hide ParseLine;
    hide PlainKey;
    hide LegibleKey;
    hide KeyText;
    KeyTextReads(keyType, material, comment);
  }

  /** The holder is the first line of the key. */
  lemma {:induction false} HolderIsFirst(es: seq<Entry>, material: string, i: nat)
    requires i < |es| && es[i].Key? && es[i].key.material == material
    requires forall j :: 0 <= j < i ==> !(es[j].Key? && es[j].key.material == material)
    ensures Holder(es, material) == Some(es[i].key.comment)
  {
    if i > 0 {
      assert es[1..][i - 1] == es[i];
      HolderIsFirst(es[1..], material, i - 1);
    }
  }

  lemma {:induction false} HolderSnoc(es: seq<Entry>, e: Entry, material: string)
    requires Holder(es, material).None?
    ensures Holder(es + [e], material) == if e.Key? && e.key.material == material then Some(e.key.comment) else None
  {
    if es == [] {
      assert es + [e] == [e];
    } else {
      assert (es + [e])[1..] == es[1..] + [e];
      HolderSnoc(es[1..], e, material);
    }
  }

  /** A key that was not there is found under its comment exactly when its line is legible. */
  lemma HolderAfterAppend(es: seq<Entry>, keyType: string, material: string, comment: string)
    requires PlainKey(keyType, material, comment) && Holder(es, material).None?
    ensures Holder(es + [Classify(KeyText(keyType, material, comment))], material) == Some(comment)
       <==> LegibleKey(keyType, material, comment)
    ensures !LegibleKey(keyType, material, comment) && Token(comment) && comment != material ==>
              Holder(es + [Classify(KeyText(keyType, material, comment))], material) == None
  {
    KeyTextReads(keyType, material, comment);
    HolderSnoc(es, Classify(KeyText(keyType, material, comment)), material);
    hide Holder;
    hide PlainKey;
    hide LegibleKey;
    hide ParseLine;
    hide KeyText;
    hide Trim;
  }

  /** The line a bind appends under a type that begins like one parses back to exactly its parts. */
  lemma AppendedLineParses(keyType: string, material: string, comment: string)
    requires PlainKey(keyType, material, comment) && BeginsLikeAType(keyType)
    ensures ParseLine(keyType + " " + material + " " + comment) == Some(KeyLine(keyType, material, comment))
  {
    KeyTextParses(keyType, material, comment);
    hide ParseLine;
    hide Fields;
    hide Join;
    hide Trim;
  }

  lemma KeyTextIsPrinted(keyType: string, material: string, words: seq<string>)
    ensures KeyText(keyType, material, Join(words))
         == PrintKey(keyType, material, words) + if words == [] then " " else ""
  {
    PrintKeySplits(keyType, material, words);
    PrintRestSplits(material, words);
    hide PrintKey;
    hide PrintRest;
    hide Join;
    var end := if words == [] then " " else "";
    assert KeyText(keyType, material, Join(words)) == keyType + (" " + (material + " " + Join(words)));
    assert keyType + (" " + (PrintRest(material, words) + end)) == keyType + (" " + PrintRest(material, words)) + end;
  }

  lemma PrintRestSplits(material: string, words: seq<string>)
    ensures material + " " + Join(words) == PrintRest(material, words) + if words == [] then " " else ""
  {
    if words == [] {
      assert [material] + words == [material];
    } else {
      assert ([material] + words)[1..] == words;
    }
  }

  function Spared(sel: MarkedKey -> bool): MarkedKey -> bool {
    (k: MarkedKey) => !sel(k)
  }

  /** A removal splits the marked keys in two without reordering or losing any, and touches nothing else. */
  lemma {:induction false} RemovalSplitsMarks(es: seq<Entry>, sel: MarkedKey -> bool)
    ensures Picked(SelectedEntry(sel), es) == Filter(sel, Marks(es))
    ensures Marks(Unpicked(SelectedEntry(sel), es)) == Filter(Spared(sel), Marks(es))
    ensures Unmarked(Unpicked(SelectedEntry(sel), es)) == Unmarked(es)
  {
    if es != [] {
      RemovalSplitsMarks(es[1..], sel);
      RemovalStep(es[0], es[1..], sel);
      assert es == [es[0]] + es[1..];
      hide Marks;
      hide Unmarked;
    }
  }

  lemma RemovalStep(e: Entry, es: seq<Entry>, sel: MarkedKey -> bool)
    requires Picked(SelectedEntry(sel), es) == Filter(sel, Marks(es))
    requires Marks(Unpicked(SelectedEntry(sel), es)) == Filter(Spared(sel), Marks(es))
    requires Unmarked(Unpicked(SelectedEntry(sel), es)) == Unmarked(es)
    ensures Picked(SelectedEntry(sel), [e] + es) == Filter(sel, Marks([e] + es))
    ensures Marks(Unpicked(SelectedEntry(sel), [e] + es)) == Filter(Spared(sel), Marks([e] + es))
    ensures Unmarked(Unpicked(SelectedEntry(sel), [e] + es)) == Unmarked([e] + es)
  {
    var m, kept := MarkOf(e), Unpicked(SelectedEntry(sel), es);
    assert SelectedEntry(sel)(e) == Chosen(m, sel);
    PickedStep(SelectedEntry(sel), e, es);
    PickedStep(MarkOf, e, es);
    PickedStep(MarkOf, e, kept);
    if m.Some? {
      FilterStep(sel, m.value, Marks(es));
      FilterStep(Spared(sel), m.value, Marks(es));
      assert Spared(sel)(m.value) == !sel(m.value);
    }
    hide MarkOf;
    hide SelectedEntry;
    hide Spared;
    hide Filter;
    hide Picked;
    hide Unpicked;
  }

  lemma EditKeepsUnmarked(es: seq<Entry>, e: Edit)
    ensures EditEntries(Some(es), e).1.Some?
    ensures Unmarked(es) <= Unmarked(EditEntries(Some(es), e).1.value)
    ensures WellFormed(e) && (e.Ensure? ==> StartsWith(e.comment, MARKER_PREFIX)) ==>
              Unmarked(EditEntries(Some(es), e).1.value) == Unmarked(es)
  {
    match e
    case Ensure(keyType, material, comment, fault) =>
      var added := Classify(KeyText(keyType, material, comment));
      PickedSnoc(MarkOf, es, added);
      if WellFormed(e) && StartsWith(comment, MARKER_PREFIX) {
        KeyTextParses(keyType, material, comment);
        assert MarkOf(added).Some?;
      }
      hide Classify;
      hide Holder;
      hide MarkOf;
    case Remove(sel, fault) =>
      RemovalSplitsMarks(es, sel);
      hide SelectedEntry;
  }

  ghost predicate WellFormedRun(edits: seq<Edit>) {
    forall i :: 0 <= i < |edits| ==> WellFormed(edits[i])
  }

  ghost predicate AllMarked(edits: seq<Edit>) {
    forall i :: 0 <= i < |edits| && edits[i].Ensure? ==> StartsWith(edits[i].comment, MARKER_PREFIX)
  }

  lemma {:induction false} RunKeepsUnmarked(es: seq<Entry>, edits: seq<Edit>)
    ensures var after := RunEntries(Some(es), edits).1;
            && after.Some?
            && Unmarked(es) <= Unmarked(after.value)
            && (WellFormedRun(edits) && AllMarked(edits) ==> Unmarked(after.value) == Unmarked(es))
    decreases |edits|
  {
    if edits != [] {
      EditKeepsUnmarked(es, edits[0]);
      hide EditEntries;
      hide Unmarked;
      hide WellFormed;
      var next := EditEntries(Some(es), edits[0]).1.value;
      RunKeepsUnmarked(next, edits[1..]);
      assert WellFormedRun(edits) ==> WellFormed(edits[0]) && WellFormedRun(edits[1..]);
      assert AllMarked(edits) ==> AllMarked(edits[1..]);
    }
  }

  lemma RunIsOneLine(edits: seq<Edit>)
    requires WellFormedRun(edits)
    ensures forall i :: 0 <= i < |edits| ==> OneLine(edits[i])
  {
    forall i | 0 <= i < |edits|
      ensures OneLine(edits[i])
    {
      if edits[i].Ensure? {
        PlainIsOneLine(edits[i].keyType, edits[i].material, edits[i].comment);
      }
    }
  }

  /** Comments, foreign keys and unparseable lines survive any run in order, whatever is enrolled;
      when every enrolment reads back and carries the marker, nothing joins them either. */
  lemma UnmarkedLinesSurvive(disk: Disk, edits: seq<Edit>)
    requires View(disk).Some? && forall i :: 0 <= i < |edits| ==> OneLine(edits[i])
    ensures var after := View(RunDisk(disk, edits).1);
            && after.Some?
            && Unmarked(View(disk).value) <= Unmarked(after.value)
            && (WellFormedRun(edits) && AllMarked(edits) ==> Unmarked(after.value) == Unmarked(View(disk).value))
  {
    RunRefines(disk, edits);
    RunKeepsUnmarked(View(disk).value, edits);
    hide View;
    hide Unmarked;
    hide WellFormedRun;
    hide OneLine;
  }

  /** No two lines hold the same key material. */
  ghost predicate Distinct(es: seq<Entry>) {
    forall i, j :: 0 <= i < j < |es| && es[i].Key? && es[j].Key? ==> es[i].key.material != es[j].key.material
  }

  lemma {:induction false} NoHolder(es: seq<Entry>, material: string)
    ensures Holder(es, material).None? <==> forall i :: 0 <= i < |es| && es[i].Key? ==> es[i].key.material != material
  {
    if es != [] {
      NoHolder(es[1..], material);
      assert Holder(es[1..], material).None? ==>
               forall i :: 0 < i < |es| && es[i].Key? ==> es[1..][i - 1].key.material != material;
    }
  }

  lemma {:induction false} UnpickedKeepsDistinct<U>(pick: Entry -> Option<U>, es: seq<Entry>)
    requires Distinct(es)
    ensures Distinct(Unpicked(pick, es))
  {
    if es != [] {
      UnpickedKeepsDistinct(pick, es[1..]);
      UnpickedExactly(pick, es[1..]);
      var rest := Unpicked(pick, es[1..]);
      forall j | 0 <= j < |rest| && es[0].Key? && rest[j].Key?
        ensures es[0].key.material != rest[j].key.material
      {
        assert rest[j] in es[1..];
      }
    }
  }

  lemma AppendKeepsDistinct(es: seq<Entry>, e: Entry)
    requires Distinct(es)
    ensures Distinct(es + [e]) <==> (e.Key? ==> Holder(es, e.key.material).None?)
  {
    if e.Key? {
      NoHolder(es, e.key.material);
      if Distinct(es + [e]) {
        forall i | 0 <= i < |es| && es[i].Key?
          ensures es[i].key.material != e.key.material
        {
          assert (es + [e])[i] == es[i] && (es + [e])[|es|] == e;
        }
      }
    }
  }

  /** An edit that appends no line which reads as a key that is there already. */
  predicate NoClash(es: seq<Entry>, e: Edit) {
    e.Ensure? && !e.fault && Holder(es, e.material).None? ==>
      var entry := Classify(KeyText(e.keyType, e.material, e.comment));
      entry.Key? ==> Holder(es, entry.key.material).None?
  }

  /** One edit keeps the keys distinct exactly when it brings no clash, whatever it enrols. */
  lemma EditKeepsDistinct(es: seq<Entry>, e: Edit)
    requires Distinct(es)
    ensures EditEntries(Some(es), e).1.Some?
    ensures Distinct(EditEntries(Some(es), e).1.value) <==> NoClash(es, e)
  {
    hide Classify;
    hide Holder;
    hide SelectedEntry;
    match e
    case Ensure(keyType, material, comment, fault) =>
      AppendKeepsDistinct(es, Classify(KeyText(keyType, material, comment)));
      hide Distinct;
    case Remove(sel, fault) =>
      UnpickedKeepsDistinct(SelectedEntry(sel), es);
  }

  lemma WellFormedIsNoClash(es: seq<Entry>, e: Edit)
    requires WellFormed(e)
    ensures NoClash(es, e)
  {
    if e.Ensure? {
      KeyTextParses(e.keyType, e.material, e.comment);
      assert Classify(KeyText(e.keyType, e.material, e.comment)).key.material == e.material;
      hide Classify;
      hide Holder;
    }
  }

  /** Each key is held by at most one line, before every edit of a run and after the last. */
  ghost predicate StaysDistinct(disk: Disk, edits: seq<Edit>)
    decreases |edits|
  {
    && View(disk).Some? && Distinct(View(disk).value)
    && (edits != [] ==> StaysDistinct(EditDisk(disk, edits[0]).1, edits[1..]))
  }

  ghost predicate NoClashes(disk: Disk, edits: seq<Edit>)
    decreases |edits|
  {
    edits != [] ==>
      && View(disk).Some? && NoClash(View(disk).value, edits[0])
      && NoClashes(EditDisk(disk, edits[0]).1, edits[1..])
  }

  /** Each key stays enrolled at most once over a run, legible or not, exactly when no enrolment of it
      writes a line that reads as a key which is there already. */
  lemma {:induction false} DistinctExactly(disk: Disk, edits: seq<Edit>)
    requires View(disk).Some? && Distinct(View(disk).value)
    requires forall i :: 0 <= i < |edits| ==> OneLine(edits[i])
    ensures StaysDistinct(disk, edits) <==> NoClashes(disk, edits)
    decreases |edits|
  {
    hide View;
    hide Distinct;
    hide NoClash;
    hide EditDisk;
    hide EditEntries;
    hide OneLine;
    if edits != [] {
      var after := EditDisk(disk, edits[0]).1;
      EditRefines(disk, edits[0]);
      EditKeepsDistinct(View(disk).value, edits[0]);
      if Distinct(View(after).value) {
        DistinctExactly(after, edits[1..]);
      } else if edits[1..] == [] {
        assert !StaysDistinct(after, edits[1..]);
      }
    }
  }

  lemma {:induction false} WellFormedRunsDoNotClash(disk: Disk, edits: seq<Edit>)
    requires View(disk).Some? && WellFormedRun(edits)
    ensures NoClashes(disk, edits)
    decreases |edits|
  {
    hide View;
    hide NoClash;
    hide EditDisk;
    hide EditEntries;
    hide WellFormed;
    if edits != [] {
      RunIsOneLine(edits);
      EditRefines(disk, edits[0]);
      ViewSurvives(View(disk).value, edits[0]);
      WellFormedIsNoClash(View(disk).value, edits[0]);
      WellFormedRunsDoNotClash(EditDisk(disk, edits[0]).1, edits[1..]);
    }
  }

  lemma ViewSurvives(es: seq<Entry>, e: Edit)
    ensures EditEntries(Some(es), e).1.Some?
  {
    hide Classify;
    hide Holder;
    hide SelectedEntry;
  }

  lemma {:induction false} DistinctAtEnd(disk: Disk, edits: seq<Edit>)
    requires StaysDistinct(disk, edits)
    ensures View(RunDisk(disk, edits).1).Some? && Distinct(View(RunDisk(disk, edits).1).value)
    decreases |edits|
  {
    hide View;
    hide Distinct;
    hide EditDisk;
    if edits != [] {
      DistinctAtEnd(EditDisk(disk, edits[0]).1, edits[1..]);
    }
  }

  /** Each key stays enrolled at most once over any run of enrolments that read back. */
  lemma MaterialsStayDistinct(disk: Disk, edits: seq<Edit>)
    requires View(disk).Some? && WellFormedRun(edits) && Distinct(View(disk).value)
    ensures View(RunDisk(disk, edits).1).Some? && Distinct(View(RunDisk(disk, edits).1).value)
  {
    RunIsOneLine(edits);
    WellFormedRunsDoNotClash(disk, edits);
    hide View;
    hide Distinct;
    hide RunDisk;
    hide WellFormed;
    hide StaysDistinct;
    hide NoClashes;
    DistinctExactly(disk, edits);
    DistinctAtEnd(disk, edits);
  }

  /** On disk: what a removal reports and what it leaves are the two halves of the marked keys. */
  lemma RemovalAccounts(disk: Disk, sel: MarkedKey -> bool)
    requires View(disk).Some?
    ensures var (r, after) := RemoveDisk(disk, sel, false);
            && r.Ok? && View(after).Some?
            && r.value == Filter(sel, Marks(View(disk).value))
            && Marks(View(after).value) == Filter(Spared(sel), Marks(View(disk).value))
            && multiset(r.value) + multiset(Marks(View(after).value)) == multiset(Marks(View(disk).value))
            && Unmarked(View(after).value) == Unmarked(View(disk).value)
  {
    var es := View(disk).value;
    EditRefines(disk, Remove(sel, false));
    RemovalSplitsMarks(es, sel);
    forall k | k in Marks(es)
      ensures sel(k) != Spared(sel)(k)
    {
    }
    FilterPartition(sel, Spared(sel), Marks(es));
    RemovalOfNone(es, sel);
    hide View;
    hide Marks;
    hide Unmarked;
    hide RemoveDisk;
    hide SelectedEntry;
  }

  /** Selecting nothing leaves every entry. */
  lemma {:induction false} RemovalOfNone(es: seq<Entry>, sel: MarkedKey -> bool)
    ensures Picked(SelectedEntry(sel), es) == [] ==> Unpicked(SelectedEntry(sel), es) == es
  {
    if es != [] {
      RemovalOfNone(es[1..], sel);
      hide SelectedEntry;
    }
  }
}
