/** `mpx unbind` from `src/main.rs`, the marker id it takes, and how unbinding undoes binding. */
module Unbind {
  import opened Wrappers
  import opened Seqs
  import opened Text
  import opened AuthKeys
  import opened Editing
  import opened Util

  // -- the marker --

  /** The id out of a marker comment; a comment without the marker is returned whole. */
  function MarkerId8(comment: string): string {
    if StartsWith(comment, MARKER_PREFIX) then IdOf(comment[|MARKER_PREFIX|..]) else comment
  }

  /** The comment the server writes: the session's marker id, a colon, the device slug. */
  function MarkerComment(id: string, slug: string): string {
    MARKER_PREFIX + id + ":" + slug
  }

  function ById(id: string): MarkedKey -> bool {
    (k: MarkedKey) => k.id == id
  }

  function Everything(): MarkedKey -> bool {
    (k: MarkedKey) => true
  }

  /** The marker parser takes the server's comment apart again. */
  lemma MarkerRoundTrip(id: string, slug: string, keyType: string, material: string, text: string)
    requires ':' !in id
    ensures MarkerId8(MarkerComment(id, slug)) == id
    ensures MarkOfKey(KeyLine(keyType, material, MarkerComment(id, slug)), text)
         == Some(MarkedKey(id, slug, keyType, text))
  {
    var comment := MarkerComment(id, slug);
    var rest := comment[|MARKER_PREFIX|..];
    assert comment == MARKER_PREFIX + (id + ":" + slug);
    assert StartsWith(comment, MARKER_PREFIX);
    assert rest == id + [':'] + slug;
    IndexOfUnique(id, ':', slug);
    assert rest[..|id|] == id && rest[|id| + 1..] == slug;
  }

  /** An id as the program draws one: four random bytes in hex. */
  ghost predicate IsId(id: string) {
    exists b :: |b| == 4 && id == Hex(b)
  }

  lemma IdShape(id: string)
    requires IsId(id)
    ensures |id| == 8 && Token(id) && ':' !in id
  {
    var b :| |b| == 4 && id == Hex(b);
    HexShape(b);
  }

  lemma SlugIsToken(slug: string)
    requires WellFormedSlug(slug)
    ensures Token(slug)
  {
    forall k | 0 <= k < |slug|
      ensures !IsWhitespace(slug[k])
    {
      assert IsSlugChar(slug[k]);
    }
  }

  lemma PrefixIsToken()
    ensures Token(MARKER_PREFIX)
  {
  }

  /** For every device name the server's comment is one field of the line it is written to. */
  lemma MarkerCommentIsOneField(id: string, display: string)
    requires IsId(id)
    ensures Token(MarkerComment(id, Slug(display)))
    ensures Fields(MarkerComment(id, Slug(display))) == [MarkerComment(id, Slug(display))]
    ensures Join(Fields(MarkerComment(id, Slug(display)))) == MarkerComment(id, Slug(display))
    ensures StartsWith(MarkerComment(id, Slug(display)), MARKER_PREFIX)
  {
    IdShape(id);
    SlugShape(display);
    SlugIsToken(Slug(display));
    hide Slug;
    hide Fields;
    MarkerIsToken(id, Slug(display));
    hide MarkerComment;
    FieldsOfOne(MarkerComment(id, Slug(display)));
  }

  lemma MarkerIsToken(id: string, slug: string)
    requires Token(id) && Token(slug)
    ensures Token(MarkerComment(id, slug)) && StartsWith(MarkerComment(id, slug), MARKER_PREFIX)
  {
    PrefixIsToken();
    TokenConcat(id, ":");
    TokenConcat(id + ":", slug);
    TokenConcat(MARKER_PREFIX, id + ":" + slug);
    assert MarkerComment(id, slug) == MARKER_PREFIX + (id + ":" + slug);
  }

  lemma TokenConcat(a: string, b: string)
    requires Token(a) && Token(b)
    ensures Token(a + b)
  {
  }

  /** A marker without a second colon is all id, and names no device. */
  lemma BareMarker(id: string, keyType: string, material: string, text: string)
    requires ':' !in id
    ensures MarkOfKey(KeyLine(keyType, material, "multiplex:bind:" + id), text)
         == Some(MarkedKey(id, "", keyType, text))
    ensures MarkerId8("multiplex:bind:" + id) == id
  {
    var comment := "multiplex:bind:" + id;
    assert comment[|MARKER_PREFIX|..] == id;
    IndexOfUnique(id, ':', "");
    assert id[..|id|] == id;
  }

  // -- the id selects its line --

  lemma PickedHas<T(!new), U>(pick: T -> Option<U>, s: seq<T>, x: T)
    requires x in s && pick(x).Some?
    ensures pick(x).value in Picked(pick, s)
  {
    if s[0] != x {
      PickedHas(pick, s[1..], x);
    }
  }

  /** The id printed for any marked comment is the one that removes that line. */
  lemma PrintedIdSelects(disk: Disk, e: Entry)
    requires View(disk).Some? && e in View(disk).value && MarkOf(e).Some?
    ensures MarkOf(e).value.id == MarkerId8(e.key.comment)
    ensures var (r, after) := RemoveDisk(disk, ById(MarkerId8(e.key.comment)), false);
            && r.Ok? && MarkOf(e).value in r.value
            && View(after).Some? && MarkOf(e).value !in Marks(View(after).value)
  {
    var id := MarkerId8(e.key.comment);
    assert MarkOf(e).value.id == id;
    PickedHas(MarkOf, View(disk).value, e);
    RemovalAccounts(disk, ById(id));
    assert ById(id)(MarkOf(e).value);
    assert !Spared(ById(id))(MarkOf(e).value);
    hide RemoveDisk;
    hide View;
    hide MarkOf;
    hide ById;
    hide Spared;
  }

  // -- unbind undoes bind --

  /** The line the server writes carries its mark exactly when it is legible. */
  lemma BoundEntry(keyType: string, material: string, id: string, slug: string)
    requires Token(keyType) && Token(material)
    requires ':' !in id && Token(MarkerComment(id, slug))
    ensures var comment := MarkerComment(id, slug);
            var line := KeyText(keyType, material, comment);
            MarkOf(Classify(line))
              == if LegibleKey(keyType, material, comment) then Some(MarkedKey(id, slug, keyType, line)) else None
  {
    hide ParseLine;
    hide MarkOfKey;
    hide MarkerComment;
    hide LegibleKey;
    hide KeyText;
    hide Fields;
    hide Trim;
    hide Join;
    var comment := MarkerComment(id, slug);
    var line := KeyText(keyType, material, comment);
    FieldsOfOne(comment);
    OneWordJoins(comment);
    KeyTextReads(keyType, material, comment);
    MarkerRoundTrip(id, slug, keyType, material, line);
    NoCommentNoMark(material, comment, line);
    KeyTextIsTrimmed(keyType, material, comment);
  }

  lemma OneWordJoins(word: string)
    ensures Join([word]) == word
  {
  }

  lemma NoCommentNoMark(keyType: string, material: string, text: string)
    ensures MarkOfKey(KeyLine(keyType, material, ""), text) == None
  {
    assert |MARKER_PREFIX| > 0;
  }

  lemma KeyTextIsTrimmed(keyType: string, material: string, comment: string)
    requires Token(keyType) && Token(material) && Token(comment)
    ensures Trim(KeyText(keyType, material, comment)) == KeyText(keyType, material, comment)
  {
    hide IsWhitespace;
    var line := KeyText(keyType, material, comment);
    TrimCore("", line, "");
    assert "" + line + "" == line;
    hide Trim;
  }

  lemma NothingSelected(es: seq<Entry>, id: string)
    requires forall k :: k in Marks(es) ==> k.id != id
    ensures Picked(SelectedEntry(ById(id)), es) == [] && Unpicked(SelectedEntry(ById(id)), es) == es
  {
    RemovalSplitsMarks(es, ById(id));
    FilterNone(ById(id), Marks(es));
    RemovalOfNone(es, ById(id));
    hide SelectedEntry;
    hide Marks;
  }

  lemma UndoEntries(es: seq<Entry>, e: Entry, id: string)
    requires forall k :: k in Marks(es) ==> k.id != id
    requires MarkOf(e).Some? ==> MarkOf(e).value.id == id
    ensures RemoveEntries(es + [e], ById(id), false)
         == if MarkOf(e).Some? then (Ok([MarkOf(e).value]), es) else (Ok([]), es + [e])
  {
    NothingSelected(es, id);
    assert SelectedEntry(ById(id))(e) == MarkOf(e);
    hide SelectedEntry;
    hide MarkOf;
    PickedSnoc(SelectedEntry(ById(id)), es, e);
    if MarkOf(e).Some? {
      assert [] + [MarkOf(e).value] == [MarkOf(e).value];
    }
  }

  /** A file without the key and without the id: binding and then unbinding by that id removes
      exactly the new key and leaves the trimmed lines as they were, if and only if the line written
      is legible; otherwise unbinding finds nothing and the key stays. */
  lemma UnbindUndoesBind(disk: Disk, keyType: string, material: string, id: string, slug: string)
    requires View(disk).Some? && Holder(View(disk).value, material).None?
    requires forall k :: k in Marks(View(disk).value) ==> k.id != id
    requires Token(keyType) && Token(material)
    requires ':' !in id && Token(MarkerComment(id, slug))
    ensures var comment := MarkerComment(id, slug);
            var (bound, d1) := EnsureDisk(disk, keyType, material, comment, false);
            var (unbound, d2) := RemoveDisk(d1, ById(id), false);
            && bound == Ok(Added)
            && if LegibleKey(keyType, material, comment) then
                 && unbound == Ok([MarkedKey(id, slug, keyType, KeyText(keyType, material, comment))])
                 && View(d2) == View(disk)
               else
                 unbound == Ok([]) && d2 == d1
  {
    var comment := MarkerComment(id, slug);
    var es, e := View(disk).value, Classify(KeyText(keyType, material, comment));
    var d1 := EnsureDisk(disk, keyType, material, comment, false).1;
    BoundEntry(keyType, material, id, slug);
    TokensAreOneLine(keyType, material, comment);
    hide LegibleKey;
    hide Classify;
    hide MarkOf;
    hide MarkerComment;
    EditRefines(disk, Ensure(keyType, material, comment, false));
    EditRefines(d1, Remove(ById(id), false));
    UndoEntries(es, e, id);
    hide Marks;
    hide Holder;
    hide RemoveEntries;
    hide EnsureDisk;
    hide KeyText;
    assert ReadExisting(d1).Ok? by { hide Entries; hide RemoveDisk; }
    FaultMatters(d1, ById(id), false);
    hide View;
    hide RemoveDisk;
  }

  lemma TokensAreOneLine(keyType: string, material: string, comment: string)
    requires Token(keyType) && Token(material) && Token(comment)
    ensures '\n' !in keyType && '\n' !in material && '\n' !in comment
  {
    assert IsWhitespace('\n');
  }

  /** A line that holds the key material. */
  ghost predicate Holds(es: seq<Entry>, e: Entry, material: string) {
    e in es && e.Key? && e.key.material == material
  }

  /** Every line of a key carries a mark that the selection takes. */
  ghost predicate MarkedThroughout(es: seq<Entry>, material: string, sel: MarkedKey -> bool) {
    forall e :: Holds(es, e, material) ==> MarkOf(e).Some? && sel(MarkOf(e).value)
  }

  lemma NobodyHolds(es: seq<Entry>, material: string)
    ensures Holder(es, material).None? <==> forall e :: !Holds(es, e, material)
  {
    NoHolder(es, material);
    hide Holder;
    forall i | 0 <= i < |es| && es[i].Key? && forall e :: !Holds(es, e, material)
      ensures es[i].key.material != material
    {
      assert !Holds(es, es[i], material);
    }
  }

  /** A removal takes every line of a key exactly when it selects the mark of each. */
  lemma HolderAfterRemoval(es: seq<Entry>, sel: MarkedKey -> bool, material: string)
    ensures Holder(Unpicked(SelectedEntry(sel), es), material).None? <==> MarkedThroughout(es, material, sel)
  {
    hide Holder;
    hide MarkOf;
    var kept := Unpicked(SelectedEntry(sel), es);
    UnpickedExactly(SelectedEntry(sel), es);
    NobodyHolds(kept, material);
    assert forall e :: Holds(kept, e, material) <==> Holds(es, e, material) && SelectedEntry(sel)(e).None?;
  }

  lemma HolderIsThere(es: seq<Entry>, material: string) returns (e: Entry)
    requires Holder(es, material).Some?
    ensures Holds(es, e, material) && e.key.comment == Holder(es, material).value
  {
    if es[0].Key? && es[0].key.material == material {
      e := es[0];
    } else {
      e := HolderIsThere(es[1..], material);
    }
  }

  lemma DistinctHolder(es: seq<Entry>, x: Entry, y: Entry, material: string)
    requires Distinct(es) && Holds(es, x, material) && Holds(es, y, material)
    ensures x == y
  {
    var i :| 0 <= i < |es| && es[i] == x;
    var j :| 0 <= j < |es| && es[j] == y;
  }

  /** What the id printed for the comment of a key that was there does: it takes every line of the key
      exactly when each carries a mark with that id, and on a file without duplicate keys exactly when
      the comment is marked. */
  ghost predicate HeldKeyUnbound(disk: Disk, material: string, comment: string) {
    var sel := ById(MarkerId8(comment));
    var (unbound, after) := RemoveDisk(disk, sel, false);
    && View(disk).Some? && View(after).Some? && unbound.Ok?
    && (Holder(View(after).value, material).None? <==> MarkedThroughout(View(disk).value, material, sel))
    && (Distinct(View(disk).value) ==>
          (Holder(View(after).value, material).None? <==> StartsWith(comment, MARKER_PREFIX)))
    && (StartsWith(comment, MARKER_PREFIX) ==> unbound.value != [])
  }

  lemma UnbindOfHeldKey(disk: Disk, material: string, comment: string)
    requires View(disk).Some? && Holder(View(disk).value, material) == Some(comment)
    ensures HeldKeyUnbound(disk, material, comment)
  {
    hide Holder;
    hide View;
    hide Distinct;
    hide RemoveDisk;
    hide MarkerId8;
    hide MarkOf;
    hide SelectedEntry;
    var es := View(disk).value;
    var sel := ById(MarkerId8(comment));
    RemovalOnEntries(disk, sel);
    HolderAfterRemoval(es, sel, material);
    var x := HolderIsThere(es, material);
    PrintedIdTakes(x);
    if Distinct(es) {
      forall y | Holds(es, y, material)
        ensures y == x
      {
        DistinctHolder(es, x, y, material);
      }
    }
    if MarkOf(x).Some? {
      SelectedMark(sel, x);
      PickedHas(SelectedEntry(sel), es, x);
    }
  }

  lemma PrintedIdTakes(e: Entry)
    requires e.Key?
    ensures MarkOf(e).Some? <==> StartsWith(e.key.comment, MARKER_PREFIX)
    ensures MarkOf(e).Some? ==> ById(MarkerId8(e.key.comment))(MarkOf(e).value)
  {
  }

  lemma SelectedMark(sel: MarkedKey -> bool, e: Entry)
    requires MarkOf(e).Some? && sel(MarkOf(e).value)
    ensures SelectedEntry(sel)(e).Some?
  {
  }

  /** A fault-free removal, on the entries. */
  lemma RemovalOnEntries(disk: Disk, sel: MarkedKey -> bool)
    requires View(disk).Some?
    ensures var (r, after) := RemoveDisk(disk, sel, false);
            && r == Ok(Picked(SelectedEntry(sel), View(disk).value))
            && View(after) == Some(Unpicked(SelectedEntry(sel), View(disk).value))
  {
    hide View;
    hide SelectedEntry;
    EditRefines(disk, Remove(sel, false));
    RemovalOfNone(View(disk).value, sel);
    hide RemoveDisk;
  }

  /** Binding a key that was there, or was written legibly, a second time under any comment only
      reports the line that is there. A key written illegibly is not recognised. */
  lemma BindIsIdempotent(disk: Disk, keyType: string, material: string, comment: string, other: string, fault: bool)
    requires PlainKey(keyType, material, comment)
    requires EnsureDisk(disk, keyType, material, comment, false).0.Ok?
    ensures var (first, d1) := EnsureDisk(disk, keyType, material, comment, false);
            var holder := if first.value.Added? then comment else first.value.comment;
            var again := EnsureDisk(d1, keyType, material, other, fault);
            var found := first.value.AlreadyPresent? || LegibleKey(keyType, material, comment);
            again == (Ok(AlreadyPresent(holder)), d1) <==> found
  {
    hide Classify;
    hide PlainKey;
    hide LegibleKey;
    hide KeyText;
    hide Holder;
    hide HolderOf;
    hide AppendLine;
    hide Lines;
    var content := ReadExisting(disk).value;
    var (first, d1) := EnsureDisk(disk, keyType, material, comment, false);
    if first.value.Added? {
      PlainIsOneLine(keyType, material, comment);
      EnsureRefines(content, keyType, material, comment, false);
      HolderOfLines(Lines(content), material);
      HolderOfLines(Lines(d1.content), material);
      HolderAfterAppend(Entries(content), keyType, material, comment);
      HolderDecides(d1, keyType, material, other, fault, comment);
    }
  }

  lemma HolderDecides(disk: Disk, keyType: string, material: string, other: string, fault: bool, comment: string)
    requires disk.Readable?
    ensures EnsureDisk(disk, keyType, material, other, fault) == (Ok(AlreadyPresent(comment)), disk)
       <==> HolderOf(Lines(disk.content), material) == Some(comment)
  {
    hide HolderOf;
    hide Lines;
    hide AppendLine;
    hide KeyText;
  }

  /** Unbinding a second time finds nothing and writes nothing. */
  lemma UnbindIsIdempotent(disk: Disk, sel: MarkedKey -> bool, fault: bool)
    requires RemoveDisk(disk, sel, false).0.Ok?
    ensures var d1 := RemoveDisk(disk, sel, false).1;
            RemoveDisk(d1, sel, fault) == (Ok([]), d1)
  {
    var d1 := RemoveDisk(disk, sel, false).1;
    assert View(disk).Some? by { hide Entries; }
    RemovalAccounts(disk, sel);
    RemovalAccounts(d1, sel);
    var left := Marks(View(d1).value);
    forall k | k in left
      ensures !sel(k)
    {
      assert k in Filter(Spared(sel), Marks(View(disk).value));
      assert Spared(sel)(k);
    }
    FilterNone(sel, left);
    hide Marks;
    hide View;
    hide Removed;
    hide Kept;
    hide Lines;
  }

  // -- the command --

  datatype UnbindArgs = UnbindArgs(id: Option<string>, all: bool, list: bool)

  /** What the command tells the operator. */
  datatype Notice = CouldNotRead | Listing(keys: seq<MarkedKey>) | NoMatch | CouldNotRewrite | Gone(lines: seq<string>)

  function Selection(args: UnbindArgs): MarkedKey -> bool {
    if args.all then Everything() else ById(if args.id.Some? then args.id.value else "")
  }

  predicate OnlyLists(args: UnbindArgs) {
    args.list || (args.id.None? && !args.all)
  }

  function GoneText(key: MarkedKey): string {
    "removed " + key.id + " (" + key.device + ")"
  }

  /** A write that went through gives what any fault-free write gives. */
  lemma FaultMatters(disk: Disk, sel: MarkedKey -> bool, fault: bool)
    requires ReadExisting(disk).Ok?
    ensures var (r, after) := RemoveDisk(disk, sel, fault);
            && (r.Ok? ==> (r, after) == RemoveDisk(disk, sel, false))
            && (r.Err? ==> fault && after == disk && RemoveDisk(disk, sel, false).0.Ok?
                           && RemoveDisk(disk, sel, false).0.value != [])
            && (r.Ok? && r.value == [] ==> after == disk)
  {
    hide Removed;
    hide Kept;
    hide Unlines;
  }

  /** The marks an unbinding by this id leaves. */
  function OtherThan(id: string): MarkedKey -> bool {
    (k: MarkedKey) => k.id != id
  }

  /** On the arguments' own fields: `--list`, or neither an id nor `--all`, lists; `--all` takes every
      mark; an id takes the marks with that id, and leaves all others in their order. */
  ghost predicate Obeys(args: UnbindArgs, before: Disk, notice: Notice, after: Disk) {
    && (notice.Listing? <==> View(before).Some? && (args.list || (args.id.None? && !args.all)))
    && (notice.Listing? ==> notice.keys == Marks(View(before).value))
    && (View(before).Some? && (notice.Gone? || notice.NoMatch?) ==>
          && View(after).Some?
          && Unmarked(View(after).value) == Unmarked(View(before).value)
          && (args.all ==> Marks(View(after).value) == [])
          && (!args.all && args.id.Some? ==>
                Marks(View(after).value) == Filter(OtherThan(args.id.value), Marks(View(before).value)))
          && (notice.NoMatch? ==> after == before)
          && (notice.Gone? ==> |Marks(View(before).value)| > |Marks(View(after).value)|)
          && (notice.Gone? ==> Reported(notice.lines, Marks(View(before).value), args)))
    && (notice.Gone? || notice.NoMatch? ==> View(before).Some?)
  }

  /** One line for each key taken, in order. */
  ghost predicate Reported(lines: seq<string>, marks: seq<MarkedKey>, args: UnbindArgs) {
    exists gone: seq<MarkedKey> ::
      && |lines| == |gone|
      && (forall i :: 0 <= i < |gone| ==> lines[i] == "removed " + gone[i].id + " (" + gone[i].device + ")")
      && (args.all ==> gone == marks)
      && (!args.all && args.id.Some? ==> gone == Filter(WithId(args.id.value), marks))
  }

  function WithId(id: string): MarkedKey -> bool {
    (k: MarkedKey) => k.id == id
  }

  lemma {:induction false} SameSelection(p: MarkedKey -> bool, q: MarkedKey -> bool, marks: seq<MarkedKey>)
    requires forall k :: p(k) == q(k)
    ensures Filter(p, marks) == Filter(q, marks)
  {
    if marks != [] {
      SameSelection(p, q, marks[1..]);
    }
  }

  lemma {:induction false} EverythingGoes(marks: seq<MarkedKey>)
    ensures Filter(Everything(), marks) == marks && Filter(Spared(Everything()), marks) == []
  {
    if marks != [] {
      EverythingGoes(marks[1..]);
      assert marks == [marks[0]] + marks[1..];
    }
  }

  /** What the selection made of the arguments takes and leaves. */
  lemma SelectionTakes(args: UnbindArgs, marks: seq<MarkedKey>)
    ensures args.all ==> Filter(Selection(args), marks) == marks && Filter(Spared(Selection(args)), marks) == []
    ensures !args.all && args.id.Some? ==>
              && Filter(Selection(args), marks) == Filter(WithId(args.id.value), marks)
              && Filter(Spared(Selection(args)), marks) == Filter(OtherThan(args.id.value), marks)
  {
    if args.all {
      EverythingGoes(marks);
    } else if args.id.Some? {
      SameSelection(Selection(args), WithId(args.id.value), marks);
      SameSelection(Spared(Selection(args)), OtherThan(args.id.value), marks);
    }
  }

  lemma {:induction false} MarksOfLines(lines: seq<string>)
    ensures MarkedKeysOf(lines) == Marks(Map(Classify, Map(Trim, lines)))
  {
    if lines != [] {
      MarkOfLine(lines[0]);
      MarksOfLines(lines[1..]);
      hide Classify;
      hide MarkOf;
      hide MarkedKeyOf;
      hide Trim;
      var es := Map(Classify, Map(Trim, lines));
      assert es[0] == Classify(Trim(lines[0]));
      assert es[1..] == Map(Classify, Map(Trim, lines[1..]));
    }
  }

  /** The listing is the marks of the file. */
  lemma ListingIsMarks(disk: Disk)
    requires ReadExisting(disk).Ok?
    ensures View(disk).Some? && MarkedKeysOf(Lines(ReadExisting(disk).value)) == Marks(View(disk).value)
  {
    hide Classify;
    hide Trim;
    MarksOfLines(Lines(ReadExisting(disk).value));
    if disk.Missing? {
      assert View(disk).value == Entries("");
    }
    hide Marks;
    hide MarkedKeysOf;
  }

  lemma RemovalObeys(args: UnbindArgs, before: Disk, removed: seq<MarkedKey>, after: Disk, lines: seq<string>)
    requires View(before).Some? && !(args.list || (args.id.None? && !args.all))
    requires RemoveDisk(before, Selection(args), false) == (Ok(removed), after)
    requires removed == [] ==> after == before
    requires lines == Map(GoneText, removed)
    ensures removed != [] ==> Obeys(args, before, Gone(lines), after)
    ensures removed == [] ==> Obeys(args, before, NoMatch, after)
  {
    hide View;
    hide RemoveDisk;
    hide Marks;
    hide Unmarked;
    hide Selection;
    hide Spared;
    hide WithId;
    hide OtherThan;
    hide Filter;
    var marks := Marks(View(before).value);
    RemovalAccounts(before, Selection(args));
    assert RemoveDisk(before, Selection(args), false).1 == after;
    SelectionTakes(args, marks);
    assert |multiset(marks)| == |multiset(removed)| + |multiset(Marks(View(after).value))|;
    if removed != [] {
      assert Reported(lines, marks, args);
    }
  }

  lemma OthersObey(args: UnbindArgs, disk: Disk)
    ensures View(disk).None? ==> Obeys(args, disk, CouldNotRead, disk)
    ensures View(disk).Some? && (args.list || (args.id.None? && !args.all)) ==>
              Obeys(args, disk, Listing(Marks(View(disk).value)), disk)
    ensures View(disk).Some? && !(args.list || (args.id.None? && !args.all)) ==>
              Obeys(args, disk, CouldNotRewrite, disk)
  {
    hide View;
    hide Marks;
  }

  method Run(file: KeyFile, args: UnbindArgs, fault: bool) returns (code: int, notice: Notice)
    modifies file
    ensures Obeys(args, old(file.disk), notice, file.disk)
    ensures code == 0 <==> notice.Listing? || notice.Gone?
    ensures code == 1 <==> notice.CouldNotRead? || notice.NoMatch? || notice.CouldNotRewrite?
    ensures notice.CouldNotRead? <==> View(old(file.disk)).None?
    ensures notice.Listing? <==> OnlyLists(args) && View(old(file.disk)).Some?
    ensures notice.Listing? ==> notice.keys == MarkedKeysOf(Lines(ReadExisting(old(file.disk)).value))
    ensures !notice.Gone? ==> file.disk == old(file.disk)
    ensures notice.Gone? ==>
              var (r, after) := RemoveDisk(old(file.disk), Selection(args), false);
              && r.Ok? && r.value != [] && file.disk == after
              && notice.lines == Map(GoneText, r.value)
    ensures notice.NoMatch? ==> RemoveDisk(old(file.disk), Selection(args), false) == (Ok([]), file.disk)
    ensures notice.CouldNotRewrite? ==> fault && RemoveDisk(old(file.disk), Selection(args), false).0 != Ok([])
  {
    hide MarkedKeysOf;
    hide Removed;
    hide Kept;
    hide Unlines;
    hide Entries;
    hide Lines;
    hide ById;
    hide Marks;
    hide Obeys;
    hide Map;
    hide Classify;
    OthersObey(args, file.disk);
    var read := ReadExisting(file.disk);
    if read.Err? {
      return 1, CouldNotRead;
    }
    var keys := MarkedKeysOf(Lines(read.value));
    ListingIsMarks(file.disk);
    if OnlyLists(args) {
      return 0, Listing(keys);
    }
    var result := file.RemoveMarked(Selection(args), fault);
    FaultMatters(old(file.disk), Selection(args), fault);
    hide RemoveDisk;
    match result {
      case Err(_) =>
        return 1, CouldNotRewrite;
      case Ok(removed) =>
        RemovalObeys(args, old(file.disk), removed, file.disk, Map(GoneText, removed));
        if removed == [] {
          return 1, NoMatch;
        }
        var lines := Tell(removed);
        return 0, Gone(lines);
    }
  }

  /** One line for each key taken. */
  method Tell(removed: seq<MarkedKey>) returns (lines: seq<string>)
    ensures lines == Map(GoneText, removed)
  {
    lines := [];
    var i := 0;
    while i < |removed|
      invariant 0 <= i <= |removed|
      invariant lines == Map(GoneText, removed[..i])
    {
      assert removed[..i + 1] == removed[..i] + [removed[i]];
      MapAppend(GoneText, removed[..i], [removed[i]]);
      lines := lines + [GoneText(removed[i])];
      i := i + 1;
    }
    assert removed[..i] == removed;
  }
}
