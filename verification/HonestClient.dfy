/** An honest client with the token, or with the PIN while it is live, confirmed in time, is always
    enrolled. */
module HonestClient {
  import opened Wrappers
  import opened Numbers
  import opened Bytes
  import opened Text
  import opened AuthKeys
  import opened Frame
  import opened Stream
  import opened Framing
  import opened Server
  import opened Conversation

  /** The three frames of a client, and the key it offers. */
  datatype Applicant = Applicant(
    epub: seq<byte>,
    mode: string,
    intro: Value,
    hello: Value,
    enroll: Value,
    request: Request,
    key: SshKey,
    frame1: seq<byte>,
    frame2: seq<byte>,
    frame3: seq<byte>)

  /** INTRO as the protocol asks for it. */
  ghost predicate GoodIntro(cfg: SessionConfig, c: Applicant) {
    && cfg.lib.wire(c.frame1) == Clear(c.intro)
    && Version(c.intro) == 1
    && GetBytes(c.intro, "epub") == Some(c.epub) && |c.epub| == 32 && cfg.lib.contributory(c.epub)
    && GetText(c.intro, "mode") == Some(c.mode)
  }

  /** A HELLO body whose proof this session accepts now. */
  ghost predicate GoodProof(cfg: SessionConfig, c: Applicant, retired: bool) {
    var proof := GetBytes(c.hello, "proof");
    proof.Some? && Proves(cfg, retired, c.epub, c.mode, proof.value)
  }

  /** HELLO, first under the client's key. */
  ghost predicate GoodHello(cfg: SessionConfig, c: Applicant, retired: bool) {
    && cfg.lib.wire(c.frame2) == SealC2S(ChannelFor(cfg, c.epub), Encoded(c.hello)).0
    && GoodProof(cfg, c, retired)
  }

  /** An ENROLL body that asks for an ed25519 key. */
  ghost predicate Vetted(cfg: SessionConfig, c: Applicant) {
    && RequestIn(c.enroll) == Some(c.request)
    && cfg.lib.key(Trim(c.request.pubkey)) == Some(c.key)
    && Contains(c.key.algorithm, "ed25519")
    && c.key.canonical.Some? && |Fields(c.key.canonical.value)| >= 2
  }

  /** ENROLL, next under that key. */
  ghost predicate GoodEnroll(cfg: SessionConfig, c: Applicant) {
    && cfg.lib.wire(c.frame3)
         == SealC2S(SealC2S(ChannelFor(cfg, c.epub), Encoded(c.hello)).1, Encoded(c.enroll)).0
    && Vetted(cfg, c)
  }

  ghost predicate Honest(cfg: SessionConfig, c: Applicant, retired: bool) {
    && GoodIntro(cfg, c) && GoodHello(cfg, c, retired) && GoodEnroll(cfg, c)
    && |c.frame1| <= MAX_FRAME && |c.frame2| <= MAX_FRAME && |c.frame3| <= MAX_FRAME
  }

  /** When the last of the client's bytes has been waited for, counting everything in between. */
  function AllHeard(env: ConnEnv, a1: seq<Arrival>, a2: seq<Arrival>, now: nat): nat {
    now + env.startLag + TotalWait(a1) + env.proofLag + env.offerWrite.cost + TotalWait(a2)
  }

  /** The frames arrive in any chunks: the first two within their window, the third within its own,
      which starts before the offer is written, and everything up to the operator's yes before the
      deadline. Interruptions after the second frame belong to the wait for the third. */
  ghost predicate Prompt(cfg: SessionConfig, env: ConnEnv, c: Applicant, a1: seq<Arrival>, a2: seq<Arrival>, now: nat) {
    && env.arrivals == a1 + a2 && Clean(a1) && Clean(a2) && EndsInBytes(a1)
    && Flat(a1) == EncodeFrame(c.frame1) + EncodeFrame(c.frame2)
    && Flat(a2) == EncodeFrame(c.frame3)
    && TotalWait(a1) < 5000
    && env.offerWrite.cost + TotalWait(a2) < 120000
    && AllHeard(env, a1, a2, now) + env.checkLag + env.answerTime < cfg.deadline
    && env.offerWrite.ok && env.answer && !env.storeFault
  }

  /** The line that enrolling the client is to add. */
  function Wanted(cfg: SessionConfig, c: Applicant): Enrolment
    requires c.key.canonical.Some? && |Fields(c.key.canonical.value)| >= 2
  {
    Enrolment(Fields(c.key.canonical.value)[0], Fields(c.key.canonical.value)[1], BindComment(cfg, c.request.device))
  }

  lemma IntroAccepted(cfg: SessionConfig, c: Applicant)
    requires GoodIntro(cfg, c)
    ensures OnIntro(cfg, cfg.lib.wire(c.frame1)) == Greeted(c.epub, c.mode, ChannelFor(cfg, c.epub))
  {
    hide MapGet;
    hide Version;
    hide GetBytes;
    hide GetText;
  }

  lemma HelloAccepted(cfg: SessionConfig, retired: bool, c: Applicant, env: ConnEnv, now: nat)
    requires GoodHello(cfg, c, retired) && env.offerWrite.ok
    ensures var r := OnHello(cfg, retired, c.epub, c.mode, ChannelFor(cfg, c.epub), cfg.lib.wire(c.frame2), env, now);
            var at := now + env.proofLag;
            var advanced := SealC2S(ChannelFor(cfg, c.epub), Encoded(c.hello)).1;
            && r.now == at + env.offerWrite.cost
            && r.phase.Offered?
            && r.phase.deadline == Min(at + POSTAUTH_TIMEOUT, cfg.deadline)
            && r.phase.chan.c2s == advanced.c2s && r.phase.chan.seqC2S == advanced.seqC2S
  {
    hide GetBytes;
    hide OfferValue;
    hide Nonce;
    var chan, frame := ChannelFor(cfg, c.epub), cfg.lib.wire(c.frame2);
    assert OpenHello(chan, frame) == Ok((GetBytes(c.hello, "proof").value, SealC2S(chan, Encoded(c.hello)).1));
    hide OpenHello;
  }

  lemma StoreAccepted(cfg: SessionConfig, c: Applicant, ch: ChannelState, env: ConnEnv, now: nat, disk: Disk)
    requires c.key.canonical.Some? && |Fields(c.key.canonical.value)| >= 2 && !env.storeFault && ReadExisting(disk).Ok?
    ensures var r := Store(cfg, ch, c.key.canonical, c.request.device, env, now, disk);
            && r.result.Ok? && r.result.value.Enrolled?
            && r.result.value.device == c.request.device
            && r.result.value.acknowledged == env.doneWrite.ok
            && Enrolments(r.log) == [Wanted(cfg, c)]
  {
    hide EnsureDisk;
    hide Fields;
    hide BindComment;
    hide DoneOk;
    hide SealS2C;
    EnsureSucceeds(cfg, c, disk);
    var r := Store(cfg, ch, c.key.canonical, c.request.device, env, now, disk);
    assert r.log == [r.log[0], r.log[1]];
    GoodStore(r.log[0], r.log[1]);
    hide Enrolments;
    hide Bodies;
  }

  lemma ConfirmAccepted(cfg: SessionConfig, c: Applicant, ch: ChannelState, env: ConnEnv, now: nat, disk: Disk)
    requires c.key.canonical.Some? && |Fields(c.key.canonical.value)| >= 2 && !env.storeFault && ReadExisting(disk).Ok?
    requires now + env.checkLag + env.answerTime < cfg.deadline && env.answer
    ensures var r := Confirm(cfg, ch, c.key.canonical, c.request.device, env, now, disk);
            && r.result.Ok? && r.result.value.Enrolled?
            && r.result.value.device == c.request.device
            && r.result.value.acknowledged == env.doneWrite.ok
            && Enrolments(r.log) == [Wanted(cfg, c)]
  {
    hide Store;
    hide Wanted;
    hide Fields;
    hide Enrolments;
    hide Bodies;
    hide WrongPins;
    hide DoneErr;
    hide SealS2C;
    var t2 := now + env.checkLag + env.answerTime;
    StoreAccepted(cfg, c, ch, env, t2, disk);
    var asked := [ClockRead(now + env.checkLag), Asked(c.request.device, env.answer)] + [ClockRead(t2)];
    SilentPrefix(asked, Store(cfg, ch, c.key.canonical, c.request.device, env, t2, disk).log);
  }

  /** The next box on the channel, when it is a vetted ENROLL confirmed in time, is enrolled. */
  lemma EnrollAccepted(cfg: SessionConfig, c: Applicant, chan: ChannelState, wire: Wire, env: ConnEnv, now: nat,
                       disk: Disk)
    requires Vetted(cfg, c) && wire == Box(chan.c2s, Nonce(chan.seqC2S), Encoded(c.enroll))
    requires now + env.checkLag + env.answerTime < cfg.deadline && env.answer && !env.storeFault
    requires ReadExisting(disk).Ok?
    ensures c.key.canonical.Some? && |Fields(c.key.canonical.value)| >= 2
    ensures var r := OnEnroll(cfg, chan, wire, env, now, disk);
            && r.result.Ok? && r.result.value.Enrolled?
            && r.result.value.device == c.request.device
            && r.result.value.acknowledged == env.doneWrite.ok
            && Enrolments(r.log) == [Wanted(cfg, c)]
  {
    hide Nonce;
    hide Confirm;
    hide Wanted;
    hide Contains;
    hide Trim;
    hide GetText;
    hide Fields;
    hide Enrolments;
    hide DoneErr;
    hide SealS2C;
    OpensRequest(c, chan, wire);
    hide OpenEnroll;
    var ch := OpenEnroll(chan, wire).value.1;
    ConfirmAccepted(cfg, c, ch, env, now, disk);
  }

  lemma OpensRequest(c: Applicant, chan: ChannelState, frame: Wire)
    requires frame == Box(chan.c2s, Nonce(chan.seqC2S), Encoded(c.enroll))
    requires RequestIn(c.enroll) == Some(c.request)
    ensures OpenEnroll(chan, frame).Ok?
    ensures OpenEnroll(chan, frame).value.0 == c.request
  {
    hide Nonce;
    hide RequestIn;
  }

  lemma EnsureSucceeds(cfg: SessionConfig, c: Applicant, disk: Disk)
    requires ReadExisting(disk).Ok? && c.key.canonical.Some? && |Fields(c.key.canonical.value)| >= 2
    ensures var f := Fields(c.key.canonical.value);
            EnsureDisk(disk, f[0], f[1], BindComment(cfg, c.request.device), false).0.Ok?
  {
    hide HolderOf;
    hide AppendLine;
    hide Lines;
    hide Fields;
    hide BindComment;
    hide KeyText;
  }

  lemma NothingLeft(left: seq<Arrival>)
    requires Clean(left) && EndsInBytes(left) && Flat(left) == []
    ensures left == [] && TotalWait(left) == 0
    decreases |left|
  {
    if left != [] {
      FlatStep(left[0], left[1..]);
      assert left == [left[0]] + left[1..];
      NothingLeft(left[1..]);
    }
  }

  /** INTRO and HELLO read from any chunks that arrive in their window. */
  lemma FirstTwoFrames(a1: seq<Arrival>, a2: seq<Arrival>, start: nat, preauth: nat, c: Applicant)
    returns (now1: nat, mid: seq<Arrival>)
    requires Clean(a1) && EndsInBytes(a1) && start + TotalWait(a1) < preauth
    requires Flat(a1) == EncodeFrame(c.frame1) + EncodeFrame(c.frame2)
    requires |c.frame1| <= MAX_FRAME && |c.frame2| <= MAX_FRAME
    ensures ReadFrame(Peer(a1 + a2, start), preauth) == (Ok(c.frame1), Peer(mid + a2, now1))
    ensures ReadFrame(Peer(mid + a2, now1), preauth) == (Ok(c.frame2), Peer(a2, start + TotalWait(a1)))
  {
    hide ReadFrame;
    hide Flat;
    hide TotalWait;
    hide EncodeFrame;
    hide Clean;
    mid, now1 := ReadFrameServes(a1, a2, start, preauth, c.frame1, EncodeFrame(c.frame2));
    assert EncodeFrame(c.frame2) + [] == EncodeFrame(c.frame2);
    var left, now2 := ReadFrameServes(mid, a2, now1, preauth, c.frame2, []);
    NothingLeft(left);
    assert left + a2 == a2;
  }

  /** ENROLL read from what comes after the offer. */
  lemma ThirdFrame(a2: seq<Arrival>, now: nat, postauth: nat, frame: seq<byte>)
    returns (after: seq<Arrival>, now3: nat)
    requires Clean(a2) && Flat(a2) == EncodeFrame(frame) && |frame| <= MAX_FRAME
    requires now + TotalWait(a2) < postauth
    ensures ReadFrame(Peer(a2, now), postauth) == (Ok(frame), Peer(after, now3))
    ensures now <= now3 <= now + TotalWait(a2)
  {
    hide ReadFrame;
    hide Flat;
    hide TotalWait;
    hide EncodeFrame;
    hide Clean;
    assert EncodeFrame(frame) == EncodeFrame(frame) + [];
    after, now3 := ReadFrameServes(a2, [], now, postauth, frame, []);
    assert a2 + [] == a2 && after + [] == after;
    ReadFrameEndsBy(Peer(a2, now), postauth);
  }

  /** Only the last part of a connection's log enrols. */
  lemma EnrolmentsAtEnd(intro: seq<Effect>, heard: seq<Effect>, hello: seq<Effect>, heard2: seq<Effect>,
                        enroll: seq<Effect>)
    requires Enrolments(hello) == []
    requires forall i :: 0 <= i < |intro| ==> Silent(intro[i])
    requires forall i :: 0 <= i < |heard| ==> Silent(heard[i])
    requires forall i :: 0 <= i < |heard2| ==> Silent(heard2[i])
    ensures Enrolments(intro + ((heard + hello) + (heard2 + enroll))) == Enrolments(enroll)
  {
    hide Enrolments;
    hide Bodies;
    hide WrongPins;
    hide Silent;
    SilentPrefix(heard2, enroll);
    SilentPrefix(heard, hello);
    LogAppend(heard + hello, heard2 + enroll);
    SilentPrefix(intro, (heard + hello) + (heard2 + enroll));
    assert [] + Enrolments(enroll) == Enrolments(enroll);
  }

  /** Whatever came before on other connections, a prompt honest client that has the token, or the PIN
      while it is live, and that the operator confirms is enrolled under the device name it asked for,
      with the key it sent. */
  lemma HonestClientIsEnrolled(cfg: SessionConfig, retired: bool, env: ConnEnv, now: nat, disk: Disk, c: Applicant,
                               a1: seq<Arrival>, a2: seq<Arrival>)
    requires Honest(cfg, c, retired) && Prompt(cfg, env, c, a1, a2, now) && ReadExisting(disk).Ok?
    ensures c.key.canonical.Some? && |Fields(c.key.canonical.value)| >= 2
    ensures var r := Exchange(cfg, retired, env, now, disk);
            && ResultOf(r).Enrolled?
            && ResultOf(r).device == c.request.device
            && ResultOf(r).acknowledged == env.doneWrite.ok
            && Enrolments(r.log) == [Wanted(cfg, c)]
  {
    hide Nonce;
    hide Flat;
    hide TotalWait;
    hide Clean;
    hide ReadFrame;
    hide OnHello;
    hide OnEnroll;
    hide OnIntro;
    hide EncodeFrame;
    hide GoodIntro;
    hide GoodHello;
    hide ChannelFor;
    hide EndsInBytes;
    hide Enrolments;
    hide Bodies;
    hide WrongPins;
    hide OfferValue;
    hide Fields;
    hide Trim;
    hide Contains;
    hide RequestIn;
    hide Wanted;
    var start := now + env.startLag;
    var preauth := PhaseDeadline(cfg, start, PREAUTH_TIMEOUT);
    var now1, mid := FirstTwoFrames(a1, a2, start, preauth, c);
    var now2 := start + TotalWait(a1);
    IntroAccepted(cfg, c);
    HelloAccepted(cfg, retired, c, env, now2);
    var chan := ChannelFor(cfg, c.epub);
    var reply := OnHello(cfg, retired, c.epub, c.mode, chan, cfg.lib.wire(c.frame2), env, now2);
    HelloFacts(cfg, retired, c.epub, c.mode, chan, cfg.lib.wire(c.frame2), env, now2);
    var after, now3 := ThirdFrame(a2, reply.now, reply.phase.deadline, c.frame3);
    EnrollAccepted(cfg, c, reply.phase.chan, cfg.lib.wire(c.frame3), env, now3, disk);
    EnrolmentsAtEnd([ClockRead(start), Heard(Intro, start, now1)], [Heard(Hello, now1, now2)], reply.log,
                    [Heard(Enroll, reply.now, now3)],
                    OnEnroll(cfg, reply.phase.chan, cfg.lib.wire(c.frame3), env, now3, disk).log);
  }

  /** A client that comes in PIN mode without a PIN that counts: a wrong one, or any once retired. */
  ghost predicate PinRefusable(cfg: SessionConfig, c: Applicant, retired: bool) {
    && c.mode == "pin"
    && cfg.lib.wire(c.frame2) == SealC2S(ChannelFor(cfg, c.epub), Encoded(c.hello)).0
    && GetBytes(c.hello, "proof").Some? && !GoodProof(cfg, c, retired)
  }

  lemma PinHelloRefused(cfg: SessionConfig, retired: bool, c: Applicant, env: ConnEnv, now: nat)
    requires PinRefusable(cfg, c, retired)
    ensures var r := OnHello(cfg, retired, c.epub, c.mode, ChannelFor(cfg, c.epub), cfg.lib.wire(c.frame2), env, now);
            r.phase == Closed(Ok(if retired then Ignore else PinFailure)) && r.now == now + env.doneWrite.cost
  {
    hide GetBytes;
    hide DoneErr;
    hide Nonce;
    var chan, frame := ChannelFor(cfg, c.epub), cfg.lib.wire(c.frame2);
    assert OpenHello(chan, frame) == Ok((GetBytes(c.hello, "proof").value, SealC2S(chan, Encoded(c.hello)).1));
    hide OpenHello;
  }

  /** It is refused as soon as HELLO is in: a wrong PIN while it is live, and nothing to count after. */
  lemma PinIsRefused(cfg: SessionConfig, retired: bool, env: ConnEnv, now: nat, disk: Disk, c: Applicant,
                     a1: seq<Arrival>, a2: seq<Arrival>)
    requires GoodIntro(cfg, c) && PinRefusable(cfg, c, retired) && Prompt(cfg, env, c, a1, a2, now)
    requires |c.frame1| <= MAX_FRAME && |c.frame2| <= MAX_FRAME
    ensures var r := Exchange(cfg, retired, env, now, disk);
            && ResultOf(r) == (if retired then Ignore else PinFailure)
            && r.now == now + env.startLag + TotalWait(a1) + env.doneWrite.cost
            && r.disk == disk
  {
    hide Flat;
    hide TotalWait;
    hide Clean;
    hide ReadFrame;
    hide OnHello;
    hide OnIntro;
    hide EncodeFrame;
    hide GoodIntro;
    hide PinRefusable;
    hide EndsInBytes;
    hide ChannelFor;
    hide GetBytes;
    hide Proves;
    hide DoneErr;
    hide OfferValue;
    hide AfterHello;
    var start := now + env.startLag;
    var now1, mid := FirstTwoFrames(a1, a2, start, PhaseDeadline(cfg, start, PREAUTH_TIMEOUT), c);
    IntroAccepted(cfg, c);
    PinHelloRefused(cfg, retired, c, env, start + TotalWait(a1));
  }
}
