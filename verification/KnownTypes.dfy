/** The ordinary case from end to end: an honest client's new ssh-ed25519 key is bound, found under the
    comment reported, and taken out again by the id printed for it. */
module KnownTypes {
  import opened Wrappers
  import opened Text
  import opened Util
  import opened AuthKeys
  import opened Parsing
  import opened Editing
  import Unbind
  import opened Frame
  import opened Stream
  import opened Server
  import opened Conversation
  import opened HonestClient
  import opened Receipts
  import opened SessionSafety

  const KNOWN_TYPE := "ssh-ed25519"

  function KnownKey(material: string): SshKey {
    SshKey(KNOWN_TYPE, Some(KNOWN_TYPE + " " + material))
  }

  lemma KnownType(t: string)
    requires t == KNOWN_TYPE
    ensures Token(t) && BeginsLikeAType(t) && Contains(t, "ed25519")
  {
    hide Contains;
    assert t[4..11] == "ed25519";
    ContainsAt(t, "ed25519", 4);
  }

  lemma KnownKeyFields(material: string)
    requires Token(material)
    ensures Fields(KnownKey(material).canonical.value) == [KNOWN_TYPE, material]
  {
    hide Contains;
    KnownType(KNOWN_TYPE);
    FieldsOfPair(KNOWN_TYPE, material);
    FieldsOfOne(material);
    hide Fields;
    hide Token;
    assert [KNOWN_TYPE] + [material] == [KNOWN_TYPE, material];
  }

  /** The comment a session with this id gives a device: marker, id and slug. */
  ghost predicate MarkedFor(comment: string, id: string, device: string) {
    comment == "multiplex:bind:" + id + ":" + Slug(device)
  }

  /** The file after an enrolment: the lines from before, and one for the key. */
  ghost predicate OneLineMore(before: Disk, material: string, comment: string, after: Disk) {
    && View(before).Some? && View(after).Some?
    && var line := "ssh-ed25519" + " " + material + " " + comment;
       View(after).value == View(before).value + [Entry.Key(line, KeyLine("ssh-ed25519", material, comment))]
  }

  /** What unbinding by the printed id then does. */
  ghost predicate TakenOutAgain(before: Disk, material: string, comment: string, id: string, after: Disk) {
    var (unbound, last) := RemoveDisk(after, Unbind.WithId(Unbind.MarkerId8(comment)), false);
    && Unbind.MarkerId8(comment) == id
    && unbound.Ok? && |unbound.value| == 1
    && unbound.value[0].id == id && unbound.value[0].line == "ssh-ed25519" + " " + material + " " + comment
    && View(last) == View(before)
  }

  lemma EnrolmentAddsOneLine(before: Disk, material: string, comment: string, after: Disk)
    requires Token(material) && Token(comment)
    requires Wrote(before, Enrolment(KNOWN_TYPE, material, comment), comment, after)
    requires View(before).Some? && Holder(View(before).value, material).None?
    ensures OneLineMore(before, material, comment, after)
    ensures Holder(View(after).value, material) == Some(comment)
    ensures LegibleKey(KNOWN_TYPE, material, comment)
  {
    hide Fields;
    hide Join;
    hide Token;
    hide ParseLine;
    hide Holder;
    hide View;
    hide Trim;
    hide Wrote;
    hide Legible;
    hide IsKeyType;
    KnownType(KNOWN_TYPE);
    hide Contains;
    FieldsOfOne(comment);
    Unbind.OneWordJoins(comment);
    LegibleByType(KNOWN_TYPE, material, comment);
    AppendedLineParses(KNOWN_TYPE, material, comment);
    Unbind.KeyTextIsTrimmed(KNOWN_TYPE, material, comment);
    WrittenKeyIsHeld(before, Enrolment(KNOWN_TYPE, material, comment), comment, after);
    assert KeyText(KNOWN_TYPE, material, comment) == "ssh-ed25519" + " " + material + " " + comment;
  }

  lemma LegibleByType(keyType: string, material: string, comment: string)
    requires keyType != "" && BeginsLikeAType(keyType)
    ensures LegibleKey(keyType, material, comment)
  {
    hide Trim;
    hide KeyText;
    hide FirstFieldLength;
  }

  lemma SameRemoval(disk: Disk, id: string)
    ensures RemoveDisk(disk, Unbind.WithId(id), false) == RemoveDisk(disk, Unbind.ById(id), false)
  {
    hide MarkedKeyOf;
    hide Lines;
    hide Unlines;
    if ReadExisting(disk).Ok? {
      SameSplit(Lines(ReadExisting(disk).value), id);
      hide Removed;
      hide Kept;
    }
  }

  lemma {:induction false} SameSplit(lines: seq<string>, id: string)
    ensures Removed(lines, Unbind.WithId(id)) == Removed(lines, Unbind.ById(id))
    ensures Kept(lines, Unbind.WithId(id)) == Kept(lines, Unbind.ById(id))
  {
    hide MarkedKeyOf;
    if lines != [] {
      SameSplit(lines[1..], id);
    }
  }

  lemma EnrolmentIsTakenOut(before: Disk, material: string, id: string, slug: string, comment: string, after: Disk)
    requires View(before).Some? && Holder(View(before).value, material).None?
    requires forall k :: k in Marks(View(before).value) ==> k.id != id
    requires Token(material) && Token(comment) && ':' !in id
    requires comment == Unbind.MarkerComment(id, slug) && LegibleKey(KNOWN_TYPE, material, comment)
    requires after == EnsureDisk(before, KNOWN_TYPE, material, comment, false).1
    ensures TakenOutAgain(before, material, comment, id, after)
  {
    hide Holder;
    hide View;
    hide Marks;
    hide RemoveDisk;
    hide EnsureDisk;
    hide LegibleKey;
    hide Token;
    Unbind.MarkerRoundTrip(id, slug, KNOWN_TYPE, material, "");
    hide Unbind.MarkerComment;
    hide Unbind.MarkerId8;
    KnownType(KNOWN_TYPE);
    hide Contains;
    Unbind.UnbindUndoesBind(before, KNOWN_TYPE, material, id, slug);
    SameRemoval(after, id);
  }

  /** Over every connection in which an honest client brings a new ssh-ed25519 key: it is enrolled under
      the session's marker and the slug of its device, one line is added that parses to type, material
      and comment, the key is held under the comment reported, and unbinding by the id printed for that
      comment takes out exactly this line. */
  lemma OrdinaryKeyIsBound(cfg: SessionConfig, retired: bool, env: ConnEnv, now: nat, disk: Disk, c: Applicant,
                           a1: seq<Arrival>, a2: seq<Arrival>, id: string, material: string)
    requires Unbind.IsId(id) && cfg.markerId == "multiplex:bind:" + id
    requires View(disk).Some? && Holder(View(disk).value, material).None?
    requires forall k :: k in Marks(View(disk).value) ==> k.id != id
    requires Honest(cfg, c, retired) && Prompt(cfg, env, c, a1, a2, now)
    requires Token(material) && c.key == SshKey("ssh-ed25519", Some("ssh-ed25519" + " " + material))
    ensures var r := Exchange(cfg, retired, env, now, disk);
            && ResultOf(r).Enrolled?
            && var comment := ResultOf(r).comment;
               && MarkedFor(comment, id, c.request.device)
               && OneLineMore(disk, material, comment, r.disk)
               && Holder(View(r.disk).value, material) == Some(comment)
               && TakenOutAgain(disk, material, comment, id, r.disk)
  {
    hide Exchange;
    hide Honest;
    hide Prompt;
    hide Holder;
    hide View;
    hide Marks;
    hide Bodies;
    hide Enrolments;
    hide OfferValue;
    hide DoneOk;
    hide Fields;
    hide Slug;
    hide Token;
    hide Wrote;
    hide OneLineMore;
    hide TakenOutAgain;
    hide LegibleKey;
    hide Unbind.IsId;
    hide Guarded;
    hide OfferAfterProof;
    var r := Exchange(cfg, retired, env, now, disk);
    var comment := BindComment(cfg, c.request.device);
    ViewIsReadable(disk);
    KnownKeyFields(material);
    HonestClientIsEnrolled(cfg, retired, env, now, disk, c, a1, a2);
    ConnectionFacts(cfg, retired, env, now, disk);
    var e := Enrolment(KNOWN_TYPE, material, comment);
    assert Wanted(cfg, c) == e;
    assert Wrote(disk, e, ResultOf(r).comment, r.disk);
    WroteReports(disk, e, ResultOf(r).comment, r.disk);
    Unbind.IdShape(id);
    Unbind.MarkerCommentIsOneField(id, c.request.device);
    assert comment == Unbind.MarkerComment(id, Slug(c.request.device));
    EnrolmentAddsOneLine(disk, material, comment, r.disk);
    EnrolmentIsTakenOut(disk, material, id, Slug(c.request.device), comment, r.disk);
  }
}
