/** `src/authkeys.rs`: the line parser, the marker, and the two edits of authorized_keys. */
module AuthKeys {
  import opened Wrappers
  import opened Seqs
  import opened Text

  const MARKER_PREFIX := "multiplex:bind:"

  // -- the line parser --

  predicate IsKeyType(field: string) {
    StartsWith(field, "ssh-") || StartsWith(field, "ecdsa-") || StartsWith(field, "sk-")
  }

  /** Where the quote scanner is: outside quotes, inside, or just after a backslash inside. */
  datatype Quoting = Bare | Quoted | Escaped

  function NextQuoting(q: Quoting, c: char): Quoting {
    match q
    case Escaped => Quoted
    case Quoted => if c == '\\' then Escaped else if c == '"' then Bare else Quoted
    case Bare => if c == '"' then Quoted else Bare
  }

  /** Length of the first field, which ends at the first whitespace outside quotes. */
  function FirstFieldLength(s: string, q: Quoting): (n: nat)
    ensures n <= |s|
  {
    if s == "" || (q.Bare? && IsWhitespace(s[0])) then 0
    else 1 + FirstFieldLength(s[1..], NextQuoting(q, s[0]))
  }

  /** The line from its key type onward. */
  function SkipOptions(line: string): string {
    var n := FirstFieldLength(line, Bare);
    if n == |line| || IsKeyType(line[..n]) then line else TrimStart(line[n..])
  }

  /** The scanner as written: two flags and an early return. */
  method ScanPastOptions(line: string) returns (r: string)
    ensures r == SkipOptions(line)
  {
    var quoted, escaped := false, false;
    var index := 0;
    while index < |line|
      invariant 0 <= index <= |line|
      invariant escaped ==> quoted
      invariant FirstFieldLength(line, Bare) == index + FirstFieldLength(line[index..], State(quoted, escaped))
    {
      var ch := line[index];
      assert line[index..][1..] == line[index + 1..];
      if escaped {
        escaped := false;
      } else if ch == '\\' && quoted {
        escaped := true;
      } else if ch == '"' {
        quoted := !quoted;
      } else if IsWhitespace(ch) && !quoted {
        return if IsKeyType(line[..index]) then line else TrimStart(line[index..]);
      }
      index := index + 1;
    }
    return line;
  }

  function State(quoted: bool, escaped: bool): Quoting {
    if escaped then Escaped else if quoted then Quoted else Bare
  }

  datatype KeyLine = KeyLine(keyType: string, material: string, comment: string)

  function ParseLine(line: string): Option<KeyLine> {
    var trimmed := Trim(line);
    if trimmed == "" || trimmed[0] == '#' then None
    else
      var fields := Fields(SkipOptions(trimmed));
      if |fields| < 2 then None
      else Some(KeyLine(fields[0], fields[1], Join(fields[2..])))
  }

  // -- the marker --

  datatype MarkedKey = MarkedKey(id: string, device: string, keyType: string, line: string)

  function IdOf(rest: string): string {
    rest[..IndexOf(rest, ':')]
  }

  function DeviceOf(rest: string): string {
    var n := IndexOf(rest, ':');
    if n == |rest| then "" else rest[n + 1..]
  }

  /** The marked key a parsed line carries, when its comment starts with the marker. */
  function MarkOfKey(key: KeyLine, text: string): Option<MarkedKey> {
    if StartsWith(key.comment, MARKER_PREFIX) then
      var rest := key.comment[|MARKER_PREFIX|..];
      Some(MarkedKey(IdOf(rest), DeviceOf(rest), key.keyType, text))
    else None
  }

  function MarkedKeyOf(line: string): Option<MarkedKey> {
    var key :- ParseLine(line);
    MarkOfKey(key, Trim(line))
  }

  function MarkedKeysOf(lines: seq<string>): seq<MarkedKey> {
    Picked(MarkedKeyOf, lines)
  }

  // -- the two edits on text --

  datatype AddOutcome = Added | AlreadyPresent(comment: string)

  /** The comment of the first line that holds the key material, under any comment. */
  function HolderOf(lines: seq<string>, material: string): Option<string> {
    if lines == [] then None
    else
      match ParseLine(lines[0])
      case Some(key) => if key.material == material then Some(key.comment) else HolderOf(lines[1..], material)
      case None => HolderOf(lines[1..], material)
  }

  function KeyText(keyType: string, material: string, comment: string): string {
    keyType + " " + material + " " + comment
  }

  function AppendLine(content: string, line: string): string {
    content + (if content != "" && content[|content| - 1] != '\n' then "\n" else "") + line + "\n"
  }

  /** The marked key of a line, when the filter selects it. */
  function Selected(sel: MarkedKey -> bool): string -> Option<MarkedKey> {
    (line: string) => Chosen(MarkedKeyOf(line), sel)
  }

  function Chosen(marked: Option<MarkedKey>, sel: MarkedKey -> bool): Option<MarkedKey> {
    if marked.Some? && sel(marked.value) then marked else None
  }

  function Removed(lines: seq<string>, sel: MarkedKey -> bool): seq<MarkedKey> {
    Picked(Selected(sel), lines)
  }

  function Kept(lines: seq<string>, sel: MarkedKey -> bool): seq<string> {
    Unpicked(Selected(sel), lines)
  }

  // -- the file --

  /** A file that cannot be read is one that must not be rewritten. */
  datatype Disk = Missing | Readable(content: string) | Unreadable

  datatype IoError = ReadFailed | WriteFailed

  function ReadExisting(disk: Disk): Result<string, IoError> {
    match disk
    case Missing => Ok("")
    case Readable(content) => Ok(content)
    case Unreadable => Err(ReadFailed)
  }

  /** What `ensure_line` does to the file: `fault` says whether the atomic replace fails. */
  function EnsureDisk(disk: Disk, keyType: string, material: string, comment: string, fault: bool)
    : (Result<AddOutcome, IoError>, Disk)
  {
    match ReadExisting(disk)
    case Err(e) => (Err(e), disk)
    case Ok(content) =>
      match HolderOf(Lines(content), material)
      case Some(existing) => (Ok(AlreadyPresent(existing)), disk)
      case None =>
        if fault then (Err(WriteFailed), disk)
        else (Ok(Added), Readable(AppendLine(content, KeyText(keyType, material, comment))))
  }

  function RemoveDisk(disk: Disk, sel: MarkedKey -> bool, fault: bool): (Result<seq<MarkedKey>, IoError>, Disk) {
    match ReadExisting(disk)
    case Err(e) => (Err(e), disk)
    case Ok(content) =>
      var removed := Removed(Lines(content), sel);
      if removed == [] then (Ok([]), disk)
      else if fault then (Err(WriteFailed), disk)
      else (Ok(removed), Readable(Unlines(Kept(Lines(content), sel))))
  }

  /** The authorized_keys file as the process sees it. */
  class KeyFile {
    var disk: Disk

    constructor (disk: Disk)
      ensures this.disk == disk
    {
      this.disk := disk;
    }

    /** Temp file and rename: the new content appears whole or not at all. */
    method WriteAtomically(content: string, fault: bool) returns (ok: bool)
      modifies this
      ensures ok == !fault
      ensures disk == if fault then old(disk) else Readable(content)
    {
      ok := !fault;
      if ok {
        disk := Readable(content);
      }
    }

    method EnsureLine(keyType: string, material: string, comment: string, fault: bool)
      returns (r: Result<AddOutcome, IoError>)
      modifies this
      ensures (r, disk) == EnsureDisk(old(disk), keyType, material, comment, fault)
    {
      hide ParseLine;
      var read := ReadExisting(disk);
      if read.Err? {
        return Err(read.error);
      }
      var content := read.value;
      var lines := Lines(content);
      var i := 0;
      while i < |lines|
        invariant 0 <= i <= |lines|
        invariant HolderOf(lines, material) == HolderOf(lines[i..], material)
      {
        assert lines[i..][1..] == lines[i + 1..];
        var parsed := ParseLine(lines[i]);
        if parsed.Some? && parsed.value.material == material {
          return Ok(AlreadyPresent(parsed.value.comment));
        }
        i := i + 1;
      }
      var updated := content;
      if updated != "" && updated[|updated| - 1] != '\n' {
        updated := updated + "\n";
      }
      updated := updated + (keyType + " " + material + " " + comment + "\n");
      assert updated == AppendLine(content, KeyText(keyType, material, comment));
      var ok := WriteAtomically(updated, fault);
      r := if ok then Ok(Added) else Err(WriteFailed);
    }

    method RemoveMarked(sel: MarkedKey -> bool, fault: bool) returns (r: Result<seq<MarkedKey>, IoError>)
      modifies this
      ensures (r, disk) == RemoveDisk(old(disk), sel, fault)
    {
      var read := ReadExisting(disk);
      if read.Err? {
        return Err(read.error);
      }
      var removed, kept := SplitMarked(Lines(read.value), sel);
      if removed != [] {
        var ok := WriteAtomically(kept, fault);
        if !ok {
          return Err(WriteFailed);
        }
      }
      r := Ok(removed);
    }
  }

  /** The loop of `remove_marked`: what goes, and the text of what stays. */
  method SplitMarked(lines: seq<string>, sel: MarkedKey -> bool) returns (removed: seq<MarkedKey>, kept: string)
    ensures removed == Removed(lines, sel)
    ensures kept == Unlines(Kept(lines, sel))
  {
    hide Removed;
    hide Kept;
    hide Unlines;
    hide MarkedKeyOf;
    removed, kept := [], "";
    ghost var done: seq<string> := [];
    SplitNothing(sel);
    var i := 0;
    while i < |lines|
      invariant 0 <= i <= |lines| && done == lines[..i]
      invariant removed == Removed(done, sel)
      invariant kept == Unlines(Kept(done, sel))
    {
      var line := lines[i];
      SplitStep(done, line, sel);
      var marked := MarkedKeyOf(line);
      if marked.Some? && sel(marked.value) {
        removed := removed + [marked.value];
      } else {
        kept := kept + line + "\n";
      }
      done := done + [line];
      i := i + 1;
    }
    assert done == lines;
  }

  lemma SplitNothing(sel: MarkedKey -> bool)
    ensures Removed([], sel) == [] && Unlines(Kept([], sel)) == ""
  {
  }

  lemma SplitStep(lines: seq<string>, line: string, sel: MarkedKey -> bool)
    ensures var marked := MarkedKeyOf(line);
            if marked.Some? && sel(marked.value) then
              && Removed(lines + [line], sel) == Removed(lines, sel) + [marked.value]
              && Unlines(Kept(lines + [line], sel)) == Unlines(Kept(lines, sel))
            else
              && Removed(lines + [line], sel) == Removed(lines, sel)
              && Unlines(Kept(lines + [line], sel)) == Unlines(Kept(lines, sel)) + line + "\n"
  {
    hide MarkedKeyOf;
    hide Unlines;
    hide Picked;
    hide Unpicked;
    assert Selected(sel)(line) == Chosen(MarkedKeyOf(line), sel);
    hide Selected;
    PickedSnoc(Selected(sel), lines, line);
    UnlinesSnoc(Kept(lines, sel), line);
  }
}
