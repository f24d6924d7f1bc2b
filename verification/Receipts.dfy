/** That what the server reports is what the file holds, and when a key written can be found again. */
module Receipts {
  import opened Wrappers
  import opened Bytes
  import opened Text
  import opened Util
  import opened AuthKeys
  import opened Parsing
  import opened Editing
  import Unbind
  import opened Frame
  import opened Stream
  import opened Server
  import opened Conversation
  import opened HonestClient

  // -- where a stored key comes from --

  /** The session `mpx bind` sets up: a marker id of four random bytes. */
  ghost predicate ProperSession(cfg: SessionConfig) {
    exists id :: Unbind.IsId(id) && cfg.markerId == MARKER_PREFIX + id
  }

  /** The comment this session writes for some device. */
  ghost predicate Ours(cfg: SessionConfig, comment: string) {
    exists device :: comment == BindComment(cfg, device)
  }

  ghost predicate Proper(cfg: SessionConfig, e: Effect) {
    e.Stored? ==> PlainKey(e.keyType, e.material, e.comment) && Ours(cfg, e.comment)
  }

  ghost predicate AllProper(cfg: SessionConfig, log: seq<Effect>) {
    forall i :: 0 <= i < |log| ==> Proper(cfg, log[i])
  }

  lemma CommentIsProper(cfg: SessionConfig, device: string)
    requires ProperSession(cfg)
    ensures Join(Fields(BindComment(cfg, device))) == BindComment(cfg, device)
  {
    var id :| Unbind.IsId(id) && cfg.markerId == MARKER_PREFIX + id;
    Unbind.MarkerCommentIsOneField(id, device);
    assert BindComment(cfg, device) == Unbind.MarkerComment(id, Slug(device));
    hide Fields;
    hide Slug;
  }

  lemma FieldsAreProper(cfg: SessionConfig, canonical: string, device: string)
    requires ProperSession(cfg) && |Fields(canonical)| >= 2
    ensures PlainKey(Fields(canonical)[0], Fields(canonical)[1], BindComment(cfg, device))
    ensures Ours(cfg, BindComment(cfg, device))
  {
    CommentIsProper(cfg, device);
    hide ProperSession;
    hide BindComment;
    hide Fields;
    hide Join;
    hide Token;
  }

  lemma StoreIsProper(cfg: SessionConfig, ch: ChannelState, canonical: Option<string>, device: string, env: ConnEnv,
                      now: nat, disk: Disk)
    requires ProperSession(cfg)
    ensures AllProper(cfg, Store(cfg, ch, canonical, device, env, now, disk).log)
  {
    hide ProperSession;
    hide BindComment;
    hide EnsureDisk;
    hide SealS2C;
    hide DoneErr;
    hide DoneOk;
    hide StoreError;
    hide Fields;
    hide PlainKey;
    hide Ours;
    if canonical.Some? && |Fields(canonical.value)| >= 2 {
      FieldsAreProper(cfg, canonical.value, device);
    }
  }

  lemma ConfirmIsProper(cfg: SessionConfig, ch: ChannelState, canonical: Option<string>, device: string, env: ConnEnv,
                        now: nat, disk: Disk)
    requires ProperSession(cfg)
    ensures AllProper(cfg, Confirm(cfg, ch, canonical, device, env, now, disk).log)
  {
    hide ProperSession;
    hide Store;
    hide Proper;
    hide SealS2C;
    hide DoneErr;
    var t1 := now + env.checkLag;
    var t2 := t1 + env.answerTime;
    StoreIsProper(cfg, ch, canonical, device, env, t2, disk);
    var asked := [ClockRead(t1), Asked(device, env.answer)];
    RefuseIsProper(cfg, ch, "offer expired", Ignore, env, t1, disk, [ClockRead(t1)]);
    RefuseIsProper(cfg, ch, "declined on the host", Declined, env, t2, disk, asked);
    RefuseIsProper(cfg, ch, "offer expired", Ignore, env, t2, disk, asked + [ClockRead(t2)]);
    hide Refuse;
    NothingStored(cfg, asked + [ClockRead(t2)]);
    hide AllProper;
    ProperAppend(cfg, asked + [ClockRead(t2)], Store(cfg, ch, canonical, device, env, t2, disk).log);
  }

  lemma RefuseIsProper(cfg: SessionConfig, ch: ChannelState, message: string, result: ConnectionResult, env: ConnEnv,
                       now: nat, disk: Disk, log: seq<Effect>)
    requires forall i :: 0 <= i < |log| ==> !log[i].Stored?
    ensures AllProper(cfg, Refuse(ch, message, result, env, now, disk, log).log)
  {
    hide DoneErr;
    hide SealS2C;
    NothingStored(cfg, Refuse(ch, message, result, env, now, disk, log).log);
  }

  lemma EnrollIsProper(cfg: SessionConfig, chan: ChannelState, frame: Wire, env: ConnEnv, now: nat, disk: Disk)
    requires ProperSession(cfg)
    ensures AllProper(cfg, OnEnroll(cfg, chan, frame, env, now, disk).log)
  {
    if OpenEnroll(chan, frame).Ok? {
      var (request, ch) := OpenEnroll(chan, frame).value;
      hide OpenEnroll;
      var key := cfg.lib.key(Trim(request.pubkey));
      if key.Some? {
        ConfirmIsProper(cfg, ch, key.value.canonical, request.device, env, now, disk);
      }
      hide Confirm;
      hide Contains;
      hide Trim;
      hide SealS2C;
      hide DoneErr;
      hide PlainKey;
      hide Ours;
    }
  }

  lemma ProperAppend(cfg: SessionConfig, a: seq<Effect>, b: seq<Effect>)
    requires AllProper(cfg, a) && AllProper(cfg, b)
    ensures AllProper(cfg, a + b)
  {
    hide Proper;
  }

  lemma NothingStored(cfg: SessionConfig, log: seq<Effect>)
    requires forall i :: 0 <= i < |log| ==> !log[i].Stored?
    ensures AllProper(cfg, log)
  {
  }

  /** Every key a connection stores is made of plain tokens, under a comment of this session. */
  lemma ConnectionIsProper(cfg: SessionConfig, retired: bool, env: ConnEnv, now: nat, disk: Disk)
    requires ProperSession(cfg)
    ensures AllProper(cfg, Exchange(cfg, retired, env, now, disk).log)
  {
    hide ReadFrame;
    hide OnIntro;
    hide OnHello;
    hide OnEnroll;
    hide AllProper;
    hide ProperSession;
    var start := now + env.startLag;
    var preauth := PhaseDeadline(cfg, start, PREAUTH_TIMEOUT);
    var (intro, p1) := ReadFrame(Peer(env.arrivals, start), preauth);
    var log1 := [ClockRead(start), Heard(Intro, start, p1.now)];
    NothingStored(cfg, log1);
    if intro.Ok? && OnIntro(cfg, cfg.lib.wire(intro.value)).Greeted? {
      var greeted := OnIntro(cfg, cfg.lib.wire(intro.value));
      AfterIntroIsProper(cfg, retired, greeted.epub, greeted.mode, greeted.chan, env, p1, preauth, disk);
      var rest := AfterIntro(cfg, retired, greeted.epub, greeted.mode, greeted.chan, env, p1, preauth, disk);
      ProperAppend(cfg, log1, rest.log);
    }
    hide AfterIntro;
  }

  lemma AfterIntroIsProper(cfg: SessionConfig, retired: bool, epub: seq<byte>, mode: string, chan: ChannelState,
                           env: ConnEnv, p1: Peer, preauth: nat, disk: Disk)
    requires ProperSession(cfg)
    ensures AllProper(cfg, AfterIntro(cfg, retired, epub, mode, chan, env, p1, preauth, disk).log)
  {
    hide ReadFrame;
    hide OnHello;
    hide OnEnroll;
    hide AllProper;
    hide ProperSession;
    var (hello, p2) := ReadFrame(p1, preauth);
    var log := [Heard(Hello, p1.now, p2.now)];
    NothingStored(cfg, log);
    if hello.Ok? {
      var frame := cfg.lib.wire(hello.value);
      var reply := OnHello(cfg, retired, epub, mode, chan, frame, env, p2.now);
      HelloFacts(cfg, retired, epub, mode, chan, frame, env, p2.now);
      NothingStored(cfg, log + reply.log);
      hide HelloLog;
      if reply.phase.Offered? {
        var p := Peer(p2.pending, reply.now);
        var (enroll, p3) := ReadFrame(p, reply.phase.deadline);
        var heard := [Heard(Enroll, p.now, p3.now)];
        NothingStored(cfg, heard);
        if enroll.Ok? {
          EnrollIsProper(cfg, reply.phase.chan, cfg.lib.wire(enroll.value), env, p3.now, disk);
          ProperAppend(cfg, heard, OnEnroll(cfg, reply.phase.chan, cfg.lib.wire(enroll.value), env, p3.now, disk).log);
        }
        ProperAppend(cfg, log + reply.log, AfterHello(cfg, reply.phase.chan, reply.phase.deadline, env, p, disk).log);
      }
    }
  }

  // -- the receipt --

  /** Whether the key of an enrolment can be found under its comment afterwards: it was in the file
      already, or the line that is appended is legible. */
  ghost predicate Findable(before: Disk, e: Enrolment) {
    || (View(before).Some? && Holder(View(before).value, e.material).Some?)
    || LegibleKey(e.keyType, e.material, e.comment)
  }

  /** After a successful write the first line with that key carries the reported comment exactly when
      the key was there already or its line is legible. */
  lemma WrittenKeyIsHeld(before: Disk, e: Enrolment, comment: string, after: Disk)
    requires Wrote(before, e, comment, after) && PlainKey(e.keyType, e.material, e.comment)
    ensures View(before).Some? && View(after).Some?
    ensures Holder(View(after).value, e.material) == Some(comment) <==> Findable(before, e)
    ensures if Holder(View(before).value, e.material).Some? then after == before
            else View(after).value == View(before).value + [Classify(KeyText(e.keyType, e.material, e.comment))]
  {
    hide Lines;
    hide HolderOf;
    hide Holder;
    hide Classify;
    hide AppendLine;
    hide KeyText;
    hide PlainKey;
    hide LegibleKey;
    var content := ReadExisting(before).value;
    PlainIsOneLine(e.keyType, e.material, e.comment);
    EnsureRefines(content, e.keyType, e.material, e.comment, false);
    HolderOfLines(Lines(content), e.material);
    MissingLooksEmpty(before);
    if HolderOf(Lines(content), e.material).None? {
      HolderAfterAppend(Entries(content), e.keyType, e.material, e.comment);
    }
  }

  lemma MissingLooksEmpty(disk: Disk)
    ensures ReadExisting(disk).Ok? ==> View(disk) == Some(Entries(ReadExisting(disk).value))
  {
  }

  /** An appended key whose type holds no quote can be found again exactly when the scanner knows its
      type; with a quote, exactly when its line is legible. */
  lemma HeldExactlyWhenTypeIsKnown(before: Disk, e: Enrolment, after: Disk)
    requires Wrote(before, e, e.comment, after) && PlainKey(e.keyType, e.material, e.comment)
    requires View(before).Some? && Holder(View(before).value, e.material).None?
    ensures View(after).Some?
    ensures Holder(View(after).value, e.material) == Some(e.comment) <==> LegibleKey(e.keyType, e.material, e.comment)
    ensures '"' !in e.keyType ==> (LegibleKey(e.keyType, e.material, e.comment) <==> IsKeyType(e.keyType))
  {
    WrittenKeyIsHeld(before, e, e.comment, after);
    if '"' !in e.keyType {
      QuoteFreeKeys(e.keyType, e.material, e.comment);
    }
    hide View;
    hide Holder;
    hide PlainKey;
    hide LegibleKey;
    hide IsKeyType;
    hide Wrote;
  }

  lemma QuoteFreeKeys(keyType: string, material: string, comment: string)
    requires PlainKey(keyType, material, comment) && '"' !in keyType
    ensures LegibleKey(keyType, material, comment) <==> IsKeyType(keyType)
  {
    hide Trim;
    hide Legible;
    hide IsKeyType;
    hide KeyText;
    hide PrintKey;
    hide Fields;
    hide Join;
    var words := Fields(comment);
    var line := PrintKey(keyType, material, words);
    var end := if words == [] then " " else "";
    KeyTextIsPrinted(keyType, material, words);
    PrintKeyShape(keyType, material, words);
    PrintKeySplits(keyType, material, words);
    QuoteFreeTypes(keyType, PrintRest(material, words));
    TrimCore("", line, end);
    assert "" + line + end == line + end;
  }

  lemma EnrolmentIsLogged(log: seq<Effect>, e: Enrolment)
    requires e in Enrolments(log)
    ensures exists i :: 0 <= i < |log| && log[i].Stored? && log[i].keyType == e.keyType
                        && log[i].material == e.material && log[i].comment == e.comment
  {
    if EnrolmentOf(log[0]) == Some(e) {
    } else {
      EnrolmentIsLogged(log[1..], e);
      var i :| 0 <= i < |log[1..]| && log[1..][i].Stored? && log[1..][i].keyType == e.keyType
               && log[1..][i].material == e.material && log[1..][i].comment == e.comment;
      assert log[i + 1] == log[1..][i];
    }
  }

  /** A connection that enrols seals the offer and DONE ok with the comment it reports, and the file
      now holds the key under that comment (the session's own, or the one the key already had) exactly
      when the key was there already or its line is legible. */
  lemma ReceiptIsTrue(cfg: SessionConfig, retired: bool, env: ConnEnv, now: nat, disk: Disk)
    requires ProperSession(cfg)
    requires ResultOf(Exchange(cfg, retired, env, now, disk)).Enrolled?
    ensures var r := Exchange(cfg, retired, env, now, disk);
            var comment := ResultOf(r).comment;
            && Bodies(r.log) == [OfferValue(cfg.offer), DoneOk(comment)]
            && |Enrolments(r.log)| == 1 && View(r.disk).Some?
            && var e := Enrolments(r.log)[0];
               Holder(View(r.disk).value, e.material) == Some(comment) <==> Findable(disk, e)
  {
    var r := Exchange(cfg, retired, env, now, disk);
    ConnectionFacts(cfg, retired, env, now, disk);
    ConnectionIsProper(cfg, retired, env, now, disk);
    hide Exchange;
    hide ProperSession;
    hide Bodies;
    hide Enrolments;
    hide Wrote;
    hide DoneOk;
    hide OfferValue;
    hide PlainKey;
    hide Ours;
    hide Findable;
    hide Holder;
    var e := Enrolments(r.log)[0];
    LoggedIsProper(cfg, r.log, e);
    WrittenKeyIsHeld(disk, e, ResultOf(r).comment, r.disk);
  }

  lemma LoggedIsProper(cfg: SessionConfig, log: seq<Effect>, e: Enrolment)
    requires AllProper(cfg, log) && e in Enrolments(log)
    ensures PlainKey(e.keyType, e.material, e.comment) && Ours(cfg, e.comment)
  {
    hide PlainKey;
    hide Ours;
    EnrolmentIsLogged(log, e);
    var i :| 0 <= i < |log| && log[i].Stored? && log[i].keyType == e.keyType
             && log[i].material == e.material && log[i].comment == e.comment;
    assert Proper(cfg, log[i]);
  }

  // -- a receipt the file does not bear out --

  /** An honest client whose new key makes an illegible line gets its receipt all the same: the
      connection ends enrolled and DONE ok is sealed, but no line of the file is found to hold the key. */
  lemma EnrolledButNotHeld(cfg: SessionConfig, retired: bool, env: ConnEnv, now: nat, disk: Disk, c: Applicant,
                           a1: seq<Arrival>, a2: seq<Arrival>)
    requires ProperSession(cfg) && View(disk).Some?
    requires Honest(cfg, c, retired) && Prompt(cfg, env, c, a1, a2, now)
    requires var e := Wanted(cfg, c);
             && Holder(View(disk).value, e.material).None?
             && !LegibleKey(e.keyType, e.material, e.comment) && e.comment != e.material
    ensures var r := Exchange(cfg, retired, env, now, disk);
            && ResultOf(r).Enrolled?
            && Bodies(r.log) == [OfferValue(cfg.offer), DoneOk(ResultOf(r).comment)]
            && View(r.disk).Some? && |View(r.disk).value| == |View(disk).value| + 1
            && Holder(View(r.disk).value, Wanted(cfg, c).material) == None
  {
    hide Exchange;
    hide Honest;
    hide Prompt;
    hide ProperSession;
    hide Holder;
    hide LegibleKey;
    hide Bodies;
    hide Enrolments;
    hide OfferValue;
    hide DoneOk;
    hide PlainKey;
    hide Ours;
    hide Findable;
    hide Wanted;
    var r := Exchange(cfg, retired, env, now, disk);
    ViewIsReadable(disk);
    HonestClientIsEnrolled(cfg, retired, env, now, disk, c, a1, a2);
    ConnectionFacts(cfg, retired, env, now, disk);
    ConnectionIsProper(cfg, retired, env, now, disk);
    var e := Wanted(cfg, c);
    LoggedIsProper(cfg, r.log, e);
    WrittenKeyIsHeld(disk, e, ResultOf(r).comment, r.disk);
    OursIsToken(cfg, e.comment);
    HolderAfterAppend(View(disk).value, e.keyType, e.material, e.comment);
    hide Wrote;
    hide Classify;
  }

  lemma ViewIsReadable(disk: Disk)
    ensures View(disk).Some? <==> ReadExisting(disk).Ok?
  {
    hide Entries;
  }

  lemma OursIsToken(cfg: SessionConfig, comment: string)
    requires ProperSession(cfg) && Ours(cfg, comment)
    ensures Token(comment)
  {
    hide Slug;
    hide Fields;
    var device :| comment == BindComment(cfg, device);
    var id :| Unbind.IsId(id) && cfg.markerId == MARKER_PREFIX + id;
    Unbind.MarkerCommentIsOneField(id, device);
    assert comment == Unbind.MarkerComment(id, Slug(device));
  }
}
