/** Agreement between an honest client and the server across a network that drops, replays,
    reorders, reflects and injects frames and rewrites the cleartext INTRO, but does not know the
    keys of the client's channel. */
module Agreement {
  import opened Wrappers
  import opened Bytes
  import opened Text
  import opened Util
  import opened AuthKeys
  import opened Editing
  import opened Frame
  import opened Server
  import opened Messages
  import opened Conversation
  import opened Receipts

  // -- the two ends --

  datatype ClientStage = Fresh | AwaitsOffer | AwaitsDone | HasReceipt(comment: string) | Stopped

  /** The client: its channel, what it sends, and what it has opened. */
  datatype Client = Client(
    epub: seq<byte>,
    chan: ChannelState,
    hello: Value,
    enroll: Value,
    stage: ClientStage,
    offer: Option<Value>)

  datatype ServerSide =
    | Idle
    | AwaitsHello(epub: seq<byte>, mode: string, chan: ChannelState)
    | AwaitsEnroll(epub: seq<byte>, chan: ChannelState)

  /** What the server knows of the one enrolment that ends its session. */
  datatype Fact = Fact(epub: seq<byte>, request: Request, stored: Enrolment, comment: string)

  /** Both ends, every box they have sealed so far, and the file. */
  datatype Net = Net(client: Client, server: ServerSide, air: set<Wire>, before: Disk, disk: Disk, fact: Option<Fact>)

  datatype Act =
    | ClientSendsHello
    | ClientHears(wire: Wire)
    | ServerAccepts(wire: Wire)
    | ServerHears(wire: Wire, retired: bool, env: ConnEnv, now: nat)
    | ServerDrops

  function StartNet(cfg: SessionConfig, epub: seq<byte>, hello: Value, enroll: Value, disk: Disk): Net {
    Net(Client(epub, ChannelFor(cfg, epub), hello, enroll, Fresh, None), Idle, {}, disk, disk, None)
  }

  function SealedBoxes(log: seq<Effect>): set<Wire> {
    set e | e in log && e.Sealed? :: e.box
  }

  /** The client takes the first thing it can open for the offer if it names a host, and answers it;
      the next for the receipt. What does not open is dropped. */
  function ClientStep(n: Net, wire: Wire): Net {
    var c := n.client;
    match OpenS2C(c.chan, wire)
    case (Err(_), _) => n
    case (Ok(plain), ch) =>
      var body := DecodePlain(plain);
      if c.stage.AwaitsOffer? then
        if body.Ok? && GetText(body.value, "name").Some? then
          var (box, ch') := SealC2S(ch, Encoded(c.enroll));
          n.(client := c.(chan := ch', stage := AwaitsDone, offer := Some(body.value)), air := n.air + {box})
        else n.(client := c.(chan := ch, stage := Stopped))
      else if c.stage.AwaitsDone? then
        if body.Ok? && MapGet(body.value, "ok") == Some(Bool(true)) && GetText(body.value, "comment").Some? then
          n.(client := c.(chan := ch, stage := HasReceipt(GetText(body.value, "comment").value)))
        else n.(client := c.(chan := ch, stage := Stopped))
      else n
  }

  /** The server's next frame, as module Server answers it; an enrolment ends its session. */
  function ServerStep(cfg: SessionConfig, n: Net, wire: Wire, retired: bool, env: ConnEnv, now: nat): Net {
    match n.server
    case Idle => n
    case AwaitsHello(epub, mode, chan) =>
      var r := OnHello(cfg, retired, epub, mode, chan, wire, env, now);
      n.(server := if r.phase.Offered? then AwaitsEnroll(epub, r.phase.chan) else Idle,
         air := n.air + SealedBoxes(r.log))
    case AwaitsEnroll(epub, chan) =>
      var r := OnEnroll(cfg, chan, wire, env, now, n.disk);
      var next := n.(server := Idle, air := n.air + SealedBoxes(r.log), disk := r.disk);
      if ResultOf(r).Enrolled? && OpenEnroll(chan, wire).Ok? && Enrolments(r.log) != [] then
        next.(fact := Some(Fact(epub, OpenEnroll(chan, wire).value.0, Enrolments(r.log)[0], ResultOf(r).comment)))
      else next
  }

  function NetStep(cfg: SessionConfig, n: Net, act: Act): Net {
    match act
    case ClientSendsHello =>
      if n.client.stage.Fresh? then
        var (box, ch) := SealC2S(n.client.chan, Encoded(n.client.hello));
        n.(client := n.client.(chan := ch, stage := AwaitsOffer), air := n.air + {box})
      else n
    case ClientHears(wire) => ClientStep(n, wire)
    case ServerAccepts(wire) =>
      if n.fact.Some? then n
      else
        (match OnIntro(cfg, wire)
         case Greeted(epub, mode, chan) => n.(server := AwaitsHello(epub, mode, chan))
         case Rejected(_) => n.(server := Idle))
    case ServerHears(wire, retired, env, now) =>
      if n.fact.Some? then n else ServerStep(cfg, n, wire, retired, env, now)
    case ServerDrops => n.(server := Idle)
  }

  /** The network can deliver anything but a box under the client's channel keys that no end sealed. */
  ghost predicate Deliverable(n: Net, wire: Wire) {
    wire.Box? && (wire.key == n.client.chan.c2s || wire.key == n.client.chan.s2c) ==> wire in n.air
  }

  ghost predicate Possible(n: Net, act: Act) {
    (act.ClientHears? || act.ServerAccepts? || act.ServerHears?) ==> Deliverable(n, act.wire)
  }

  ghost predicate PossibleRun(cfg: SessionConfig, n: Net, acts: seq<Act>)
    decreases |acts|
  {
    acts != [] ==> Possible(n, acts[0]) && PossibleRun(cfg, NetStep(cfg, n, acts[0]), acts[1..])
  }

  function NetRun(cfg: SessionConfig, n: Net, acts: seq<Act>): Net
    decreases |acts|
  {
    if acts == [] then n else NetRun(cfg, NetStep(cfg, n, acts[0]), acts[1..])
  }

  // -- what every step keeps --

  /** Boxes under the client's sending key: its HELLO first, and its ENROLL once it has the offer. */
  ghost predicate UpBox(cfg: SessionConfig, c: Client, w: Wire) {
    w.Box? && w.key == c.chan.c2s ==>
      || (w.nonce == Nonce(0) && w.plain == Encoded(c.hello) && !c.stage.Fresh?)
      || (w.nonce == Nonce(1) && w.plain == Encoded(c.enroll) && c.offer == Some(OfferValue(cfg.offer)))
  }

  /** The receipt of the enrolment that happened on the client's own key. */
  ghost predicate IsReceipt(c: Client, fact: Option<Fact>, body: Value) {
    fact.Some? && fact.value.epub == c.epub && body == DoneOk(fact.value.comment)
  }

  /** Boxes under the client's receiving key: the offer or a refusal first, a refusal or the receipt next. */
  ghost predicate DownBox(cfg: SessionConfig, c: Client, fact: Option<Fact>, w: Wire) {
    w.Box? && w.key == c.chan.s2c ==>
      && w.plain.Encoded?
      && (|| (w.nonce == Nonce(0) && (w.plain.value == OfferValue(cfg.offer) || IsDoneErr(w.plain.value)))
          || (w.nonce == Nonce(1) && (IsDoneErr(w.plain.value) || IsReceipt(c, fact, w.plain.value))))
  }

  ghost predicate ClientSound(cfg: SessionConfig, c: Client, fact: Option<Fact>) {
    && c.chan.c2s == ChannelFor(cfg, c.epub).c2s && c.chan.s2c == ChannelFor(cfg, c.epub).s2c
    && (c.offer.Some? ==> c.offer == Some(OfferValue(cfg.offer)))
    && match c.stage
       case Fresh => c.chan.seqC2S == 0 && c.chan.seqS2C == 0 && c.offer.None?
       case AwaitsOffer => c.chan.seqC2S == 1 && c.chan.seqS2C == 0 && c.offer.None?
       case AwaitsDone => c.chan.seqC2S == 2 && c.chan.seqS2C == 1 && c.offer.Some?
       case HasReceipt(comment) => c.offer.Some? && IsReceipt(c, fact, DoneOk(comment))
       case Stopped => true
  }

  ghost predicate ServerSound(cfg: SessionConfig, server: ServerSide) {
    match server
    case Idle => true
    case AwaitsHello(epub, _, chan) => chan == ChannelFor(cfg, epub)
    case AwaitsEnroll(epub, chan) => chan == ChannelFor(cfg, epub).(seqC2S := 1, seqS2C := 1)
  }

  /** The stored key is the one the request asked for, an ed25519 one, under the session's marker and the
      slug of the device that asked. */
  ghost predicate StoredFor(cfg: SessionConfig, request: Request, stored: Enrolment) {
    var key := cfg.lib.key(Trim(request.pubkey));
    && key.Some? && Contains(key.value.algorithm, "ed25519")
    && key.value.canonical.Some? && |Fields(key.value.canonical.value)| >= 2
    && stored.keyType == Fields(key.value.canonical.value)[0]
    && stored.material == Fields(key.value.canonical.value)[1]
    && stored.comment == cfg.markerId + ":" + Slug(request.device)
  }

  ghost predicate FactSound(cfg: SessionConfig, n: Net) {
    match n.fact
    case None => n.disk == n.before
    case Some(f) =>
      && Wrote(n.before, f.stored, f.comment, n.disk)
      && StoredFor(cfg, f.request, f.stored)
      && (f.epub == n.client.epub ==>
            n.client.offer == Some(OfferValue(cfg.offer)) && RequestIn(n.client.enroll) == Some(f.request))
  }

  ghost predicate Sound(cfg: SessionConfig, n: Net) {
    && ClientSound(cfg, n.client, n.fact)
    && ServerSound(cfg, n.server)
    && FactSound(cfg, n)
    && (forall w :: w in n.air ==> UpBox(cfg, n.client, w) && DownBox(cfg, n.client, n.fact, w))
  }

  // -- what the server seals --

  /** Every box of a log is under the channel's sending key and the given nonce. */
  ghost predicate BoxedAt(log: seq<Effect>, ch: ChannelState) {
    forall i :: 0 <= i < |log| && log[i].Sealed? ==> log[i].box == Box(ch.s2c, Nonce(ch.seqS2C), Encoded(log[i].body))
  }

  lemma HelloBoxes(cfg: SessionConfig, retired: bool, epub: seq<byte>, mode: string, chan: ChannelState, frame: Wire,
                   env: ConnEnv, now: nat)
    ensures var r := OnHello(cfg, retired, epub, mode, chan, frame, env, now);
            && BoxedAt(r.log, chan)
            && (r.phase.Offered? ==>
                  r.phase.chan == chan.(seqC2S := Next(chan.seqC2S), seqS2C := Next(chan.seqS2C)))
  {
    hide Nonce;
    hide Next;
    hide OfferValue;
    hide DoneErr;
    hide GetBytes;
    hide PhaseDeadline;
  }

  lemma OpenedEnroll(chan: ChannelState, frame: Wire)
    ensures OpenEnroll(chan, frame).Ok? ==>
              && OpenEnroll(chan, frame).value.1 == chan.(seqC2S := Next(chan.seqC2S))
              && frame.Box? && frame.key == chan.c2s && frame.nonce == Nonce(chan.seqC2S) && frame.plain.Encoded?
              && RequestIn(frame.plain.value) == Some(OpenEnroll(chan, frame).value.0)
  {
    hide Nonce;
    hide Next;
    hide RequestIn;
  }

  lemma StoreBoxes(cfg: SessionConfig, ch: ChannelState, canonical: Option<string>, device: string, env: ConnEnv,
                   now: nat, disk: Disk)
    ensures BoxedAt(Store(cfg, ch, canonical, device, env, now, disk).log, ch)
  {
    hide Nonce;
    hide Next;
    hide DoneErr;
    hide DoneOk;
    hide Fields;
    hide EnsureDisk;
    hide BindComment;
    hide StoreError;
  }

  lemma RefuseBoxes(ch: ChannelState, message: string, result: ConnectionResult, env: ConnEnv, now: nat, disk: Disk,
                    log: seq<Effect>)
    requires BoxedAt(log, ch)
    ensures BoxedAt(Refuse(ch, message, result, env, now, disk, log).log, ch)
  {
    hide Nonce;
    hide Next;
    hide DoneErr;
  }

  lemma ConfirmBoxes(cfg: SessionConfig, ch: ChannelState, canonical: Option<string>, device: string, env: ConnEnv,
                     now: nat, disk: Disk)
    ensures BoxedAt(Confirm(cfg, ch, canonical, device, env, now, disk).log, ch)
  {
    hide Store;
    var t1 := now + env.checkLag;
    var t2 := t1 + env.answerTime;
    var asked := [ClockRead(t1), Asked(device, env.answer)];
    RefuseBoxes(ch, "offer expired", Ignore, env, t1, disk, [ClockRead(t1)]);
    RefuseBoxes(ch, "declined on the host", Declined, env, t2, disk, asked);
    RefuseBoxes(ch, "offer expired", Ignore, env, t2, disk, asked + [ClockRead(t2)]);
    hide Refuse;
    StoreBoxes(cfg, ch, canonical, device, env, t2, disk);
  }

  lemma EnrollBoxes(cfg: SessionConfig, chan: ChannelState, frame: Wire, env: ConnEnv, now: nat, disk: Disk)
    ensures BoxedAt(OnEnroll(cfg, chan, frame, env, now, disk).log, chan)
  {
    hide Nonce;
    hide Next;
    hide OpenEnroll;
    hide Confirm;
    hide Contains;
    hide Trim;
    OpenedEnroll(chan, frame);
    if OpenEnroll(chan, frame).Ok? {
      var (request, ch) := OpenEnroll(chan, frame).value;
      RefuseBoxes(ch, "unparseable public key", Ignore, env, now, disk, []);
      RefuseBoxes(ch, "only ed25519 keys are accepted", Ignore, env, now, disk, []);
      hide Refuse;
      var key := cfg.lib.key(Trim(request.pubkey));
      if key.Some? {
        ConfirmBoxes(cfg, ch, key.value.canonical, request.device, env, now, disk);
      }
    }
  }

  /** A connection that enrols stored the key its ENROLL asked for. */
  lemma StoredRequest(cfg: SessionConfig, chan: ChannelState, frame: Wire, env: ConnEnv, now: nat, disk: Disk)
    requires ResultOf(OnEnroll(cfg, chan, frame, env, now, disk)).Enrolled?
    ensures var r := OnEnroll(cfg, chan, frame, env, now, disk);
            && OpenEnroll(chan, frame).Ok? && |Enrolments(r.log)| == 1
            && StoredFor(cfg, OpenEnroll(chan, frame).value.0, Enrolments(r.log)[0])
  {
    hide Nonce;
    hide Next;
    hide DoneErr;
    hide DoneOk;
    hide OpenEnroll;
    hide Contains;
    hide Trim;
    hide SealS2C;
    hide EnsureDisk;
    hide Slug;
    hide Fields;
    hide StoreError;
    var r := OnEnroll(cfg, chan, frame, env, now, disk);
    var (request, ch) := OpenEnroll(chan, frame).value;
    var t2 := now + env.checkLag + env.answerTime;
    var canonical := cfg.lib.key(Trim(request.pubkey)).value.canonical;
    var stored := Store(cfg, ch, canonical, request.device, env, t2, disk);
    var asked := [ClockRead(now + env.checkLag), Asked(request.device, env.answer)] + [ClockRead(t2)];
    assert r.log == asked + stored.log;
    SilentPrefix(asked, stored.log);
    assert stored.log == [stored.log[0], stored.log[1]];
    GoodStore(stored.log[0], stored.log[1]);
  }

  // -- each step keeps the invariant --

  lemma KeysApart(cfg: SessionConfig, x: seq<byte>, y: seq<byte>)
    ensures ChannelFor(cfg, x).c2s != ChannelFor(cfg, y).s2c
    ensures ChannelFor(cfg, x).c2s == ChannelFor(cfg, y).c2s <==> x == y
    ensures ChannelFor(cfg, x).s2c == ChannelFor(cfg, y).s2c <==> x == y
  {
  }

  lemma NoncesApart()
    ensures Nonce(0) != Nonce(1)
  {
    NonceInjective(0, 1);
  }

  lemma MessagesApart(offer: OfferRecord, value: Value)
    ensures GetText(OfferValue(offer), "name").Some?
    ensures IsDoneErr(value) ==> GetText(value, "name").None? && MapGet(value, "ok") == Some(Bool(false))
  {
    assert MapGet(OfferValue(offer), "name") == Some(Text(offer.name));
    if IsDoneErr(value) {
      var m :| value == DoneErr(m);
      var es := value.entries;
      assert es[1..] == [es[1]] && es[1..][1..] == [];
      assert FindEntry(es, "name") == FindEntry(es[1..], "name") == FindEntry(es[1..][1..], "name") == None;
    }
  }

  lemma ReceiptReads(comment: string)
    ensures GetText(DoneOk(comment), "comment") == Some(comment)
  {
    var es := DoneOk(comment).entries;
    assert FindEntry(es, "comment") == FindEntry(es[1..], "comment");
  }

  lemma ClientStepKeeps(cfg: SessionConfig, n: Net, wire: Wire)
    requires Sound(cfg, n) && Deliverable(n, wire)
    ensures Sound(cfg, ClientStep(n, wire))
  {
    hide Nonce;
    hide OfferValue;
    hide DoneOk;
    hide GetText;
    hide MapGet;
    hide IsDoneErr;
    hide Wrote;
    hide StoredFor;
    hide RequestIn;
    hide ServerSound;
    var c := n.client;
    if OpenS2C(c.chan, wire).0.Ok? {
      assert DownBox(cfg, c, n.fact, wire);
      NoncesApart();
      KeysApart(cfg, c.epub, c.epub);
      MessagesApart(cfg.offer, wire.plain.value);
      if c.stage.AwaitsDone? && IsReceipt(c, n.fact, wire.plain.value) {
        ReceiptReads(n.fact.value.comment);
      }
    }
  }

  lemma ClientHelloKeeps(cfg: SessionConfig, n: Net)
    requires Sound(cfg, n)
    ensures Sound(cfg, NetStep(cfg, n, ClientSendsHello))
  {
    hide Nonce;
    hide OfferValue;
    hide DoneOk;
    hide IsDoneErr;
    hide Wrote;
    hide StoredFor;
    hide RequestIn;
    hide ServerSound;
    KeysApart(cfg, n.client.epub, n.client.epub);
  }

  lemma AcceptKeeps(cfg: SessionConfig, n: Net, wire: Wire)
    requires Sound(cfg, n)
    ensures Sound(cfg, NetStep(cfg, n, ServerAccepts(wire)))
  {
    hide UpBox;
    hide DownBox;
    hide ClientSound;
    hide Wrote;
    hide StoredFor;
    hide RequestIn;
    hide OfferValue;
    hide Version;
    hide GetBytes;
    hide GetText;
  }

  /** What the server seals for a HELLO may travel: the offer or a refusal, under nonce 0. */
  lemma HelloSealsDown(cfg: SessionConfig, n: Net, retired: bool, wire: Wire, env: ConnEnv, now: nat)
    requires ClientSound(cfg, n.client, n.fact) && ServerSound(cfg, n.server) && n.server.AwaitsHello?
    ensures var r := OnHello(cfg, retired, n.server.epub, n.server.mode, n.server.chan, wire, env, now);
            forall w :: w in SealedBoxes(r.log) ==> UpBox(cfg, n.client, w) && DownBox(cfg, n.client, n.fact, w)
  {
    hide Nonce;
    hide OfferValue;
    hide OnHello;
    hide IsDoneErr;
    hide IsReceipt;
    hide Bodies;
    var r := OnHello(cfg, retired, n.server.epub, n.server.mode, n.server.chan, wire, env, now);
    HelloBoxes(cfg, retired, n.server.epub, n.server.mode, n.server.chan, wire, env, now);
    HelloFacts(cfg, retired, n.server.epub, n.server.mode, n.server.chan, wire, env, now);
    KeysApart(cfg, n.client.epub, n.server.epub);
    forall w | w in SealedBoxes(r.log)
      ensures UpBox(cfg, n.client, w) && DownBox(cfg, n.client, n.fact, w)
    {
      var e :| e in r.log && e.Sealed? && e.box == w;
      var i :| 0 <= i < |r.log| && r.log[i] == e;
      BodyIsListed(r.log, i);
    }
  }

  /** What the server seals for an ENROLL may travel: a refusal, or the receipt of that enrolment. */
  lemma EnrollSealsDown(cfg: SessionConfig, n: Net, wire: Wire, env: ConnEnv, now: nat, fact: Option<Fact>)
    requires ClientSound(cfg, n.client, n.fact) && ServerSound(cfg, n.server) && n.server.AwaitsEnroll?
    requires var r := OnEnroll(cfg, n.server.chan, wire, env, now, n.disk);
             ResultOf(r).Enrolled? ==>
               fact.Some? && fact.value.epub == n.server.epub && fact.value.comment == ResultOf(r).comment
    ensures var r := OnEnroll(cfg, n.server.chan, wire, env, now, n.disk);
            forall w :: w in SealedBoxes(r.log) ==> UpBox(cfg, n.client, w) && DownBox(cfg, n.client, fact, w)
  {
    hide Nonce;
    hide OfferValue;
    hide OnEnroll;
    hide IsDoneErr;
    hide Bodies;
    hide Enrolments;
    hide DoneOk;
    hide Wrote;
    hide EnrollLog;
    var r := OnEnroll(cfg, n.server.chan, wire, env, now, n.disk);
    EnrollBoxes(cfg, n.server.chan, wire, env, now, n.disk);
    EnrollFacts(cfg, n.server.chan, wire, env, now, n.disk);
    KeysApart(cfg, n.client.epub, n.server.epub);
    forall w | w in SealedBoxes(r.log)
      ensures UpBox(cfg, n.client, w) && DownBox(cfg, n.client, fact, w)
    {
      var e :| e in r.log && e.Sealed? && e.box == w;
      var i :| 0 <= i < |r.log| && r.log[i] == e;
      BodyIsListed(r.log, i);
    }
  }

  lemma HelloKeeps(cfg: SessionConfig, n: Net, wire: Wire, retired: bool, env: ConnEnv, now: nat)
    requires Sound(cfg, n) && n.server.AwaitsHello?
    ensures Sound(cfg, ServerStep(cfg, n, wire, retired, env, now))
  {
    HelloSealsDown(cfg, n, retired, wire, env, now);
    HelloBoxes(cfg, retired, n.server.epub, n.server.mode, n.server.chan, wire, env, now);
    hide UpBox;
    hide DownBox;
    hide ClientSound;
    hide Wrote;
    hide StoredFor;
    hide RequestIn;
    hide OfferValue;
    hide OnHello;
    hide SealedBoxes;
  }

  /** With no enrolment yet, one that happens now is on the file and on the client's own request. */
  lemma FactArises(cfg: SessionConfig, n: Net, wire: Wire, env: ConnEnv, now: nat)
    requires Sound(cfg, n) && n.fact.None? && n.server.AwaitsEnroll? && Deliverable(n, wire)
    requires ResultOf(OnEnroll(cfg, n.server.chan, wire, env, now, n.disk)).Enrolled?
    ensures var r := OnEnroll(cfg, n.server.chan, wire, env, now, n.disk);
            && OpenEnroll(n.server.chan, wire).Ok? && Enrolments(r.log) != []
            && Wrote(n.before, Enrolments(r.log)[0], ResultOf(r).comment, r.disk)
            && StoredFor(cfg, OpenEnroll(n.server.chan, wire).value.0, Enrolments(r.log)[0])
            && (n.server.epub == n.client.epub ==>
                  && n.client.offer == Some(OfferValue(cfg.offer))
                  && RequestIn(n.client.enroll) == Some(OpenEnroll(n.server.chan, wire).value.0))
  {
    hide OnEnroll;
    hide OpenEnroll;
    hide StoredFor;
    hide Wrote;
    hide RequestIn;
    hide Nonce;
    hide OfferValue;
    hide Enrolments;
    hide Bodies;
    hide EnrollLog;
    hide DownBox;
    EnrollFacts(cfg, n.server.chan, wire, env, now, n.disk);
    StoredRequest(cfg, n.server.chan, wire, env, now, n.disk);
    OpenedEnroll(n.server.chan, wire);
    KeysApart(cfg, n.server.epub, n.client.epub);
    NoncesApart();
  }

  lemma EnrollChangesOnlyByEnrolling(cfg: SessionConfig, chan: ChannelState, wire: Wire, env: ConnEnv, now: nat,
                                     disk: Disk)
    ensures var r := OnEnroll(cfg, chan, wire, env, now, disk);
            !ResultOf(r).Enrolled? ==> r.disk == disk
  {
    hide OnEnroll;
    hide EnrollLog;
    hide Bodies;
    hide Enrolments;
    EnrollFacts(cfg, chan, wire, env, now, disk);
  }

  lemma OlderBoxes(cfg: SessionConfig, c: Client, fact: Option<Fact>, w: Wire)
    requires DownBox(cfg, c, None, w)
    ensures DownBox(cfg, c, fact, w)
  {
    hide Nonce;
    hide OfferValue;
    hide IsDoneErr;
  }

  lemma EnrollKeeps(cfg: SessionConfig, n: Net, wire: Wire, env: ConnEnv, now: nat)
    requires Sound(cfg, n) && n.fact.None? && n.server.AwaitsEnroll? && Deliverable(n, wire)
    ensures Sound(cfg, ServerStep(cfg, n, wire, false, env, now))
  {
    hide OnEnroll;
    hide OpenEnroll;
    hide StoredFor;
    hide Wrote;
    hide RequestIn;
    hide Nonce;
    hide OfferValue;
    hide Enrolments;
    hide UpBox;
    hide DownBox;
    hide SealedBoxes;
    hide DoneOk;
    var r := OnEnroll(cfg, n.server.chan, wire, env, now, n.disk);
    var next := ServerStep(cfg, n, wire, false, env, now);
    EnrollChangesOnlyByEnrolling(cfg, n.server.chan, wire, env, now, n.disk);
    if ResultOf(r).Enrolled? {
      FactArises(cfg, n, wire, env, now);
    }
    EnrollSealsDown(cfg, n, wire, env, now, next.fact);
    forall w | w in n.air
      ensures DownBox(cfg, n.client, next.fact, w)
    {
      OlderBoxes(cfg, n.client, next.fact, w);
    }
  }

  lemma StepKeeps(cfg: SessionConfig, n: Net, act: Act)
    requires Sound(cfg, n) && Possible(n, act)
    ensures Sound(cfg, NetStep(cfg, n, act))
  {
    hide Sound;
    match act
    case ClientSendsHello => ClientHelloKeeps(cfg, n);
    case ClientHears(wire) => ClientStepKeeps(cfg, n, wire);
    case ServerAccepts(wire) => AcceptKeeps(cfg, n, wire);
    case ServerDrops => DropKeeps(cfg, n);
    case ServerHears(wire, retired, env, now) =>
      if n.fact.None? && n.server.AwaitsHello? {
        HelloKeeps(cfg, n, wire, retired, env, now);
      } else if n.fact.None? && n.server.AwaitsEnroll? {
        EnrollKeeps(cfg, n, wire, env, now);
      }
  }

  lemma DropKeeps(cfg: SessionConfig, n: Net)
    requires Sound(cfg, n)
    ensures Sound(cfg, n.(server := Idle))
  {
    hide UpBox;
    hide DownBox;
    hide ClientSound;
    hide Wrote;
    hide StoredFor;
    hide RequestIn;
    hide OfferValue;
  }

  lemma {:induction false} RunKeeps(cfg: SessionConfig, n: Net, acts: seq<Act>)
    requires Sound(cfg, n) && PossibleRun(cfg, n, acts)
    ensures Sound(cfg, NetRun(cfg, n, acts))
    decreases |acts|
  {
    if acts != [] {
      hide Sound;
      hide NetStep;
      hide Possible;
      StepKeeps(cfg, n, acts[0]);
      RunKeeps(cfg, NetStep(cfg, n, acts[0]), acts[1..]);
    }
  }

  lemma StartIsSound(cfg: SessionConfig, epub: seq<byte>, hello: Value, enroll: Value, disk: Disk)
    ensures Sound(cfg, StartNet(cfg, epub, hello, enroll, disk))
  {
  }

  lemma {:induction false} ClientStaysItself(cfg: SessionConfig, n: Net, acts: seq<Act>)
    ensures var c := NetRun(cfg, n, acts).client;
            c.epub == n.client.epub && c.hello == n.client.hello && c.enroll == n.client.enroll
    ensures NetRun(cfg, n, acts).before == n.before
    decreases |acts|
  {
    if acts != [] {
      ClientStaysItself(cfg, NetStep(cfg, n, acts[0]), acts[1..]);
      OneStepSameClient(cfg, n, acts[0]);
      hide NetStep;
    }
  }

  lemma OneStepSameClient(cfg: SessionConfig, n: Net, act: Act)
    ensures var c := NetStep(cfg, n, act).client;
            c.epub == n.client.epub && c.hello == n.client.hello && c.enroll == n.client.enroll
    ensures NetStep(cfg, n, act).before == n.before
  {
    hide OnHello;
    hide OnEnroll;
    hide OnIntro;
    hide OpenS2C;
    hide GetText;
    hide MapGet;
    hide OpenEnroll;
    hide Enrolments;
  }

  // -- agreement --

  /** If the server enrols on the client's channel, then the client opened exactly the configured
      offer and asked for exactly that key and device, and that key is what was stored. */
  lemma ServerAgreesWithClient(cfg: SessionConfig, epub: seq<byte>, hello: Value, enroll: Value, disk: Disk,
                               acts: seq<Act>)
    requires PossibleRun(cfg, StartNet(cfg, epub, hello, enroll, disk), acts)
    ensures var n := NetRun(cfg, StartNet(cfg, epub, hello, enroll, disk), acts);
            n.fact.Some? && n.fact.value.epub == epub ==>
              && n.client.offer == Some(OfferValue(cfg.offer))
              && ReadOffer(n.client.offer.value) == Some(cfg.offer)
              && RequestIn(enroll) == Some(n.fact.value.request)
              && StoredFor(cfg, n.fact.value.request, n.fact.value.stored)
              && Wrote(disk, n.fact.value.stored, n.fact.value.comment, n.disk)
  {
    OfferReads(cfg.offer);
    hide ReadOffer;
    StartIsSound(cfg, epub, hello, enroll, disk);
    RunKeeps(cfg, StartNet(cfg, epub, hello, enroll, disk), acts);
    ClientStaysItself(cfg, StartNet(cfg, epub, hello, enroll, disk), acts);
    hide NetRun;
    hide StoredFor;
    hide Wrote;
    hide RequestIn;
    hide OfferValue;
    hide UpBox;
    hide DownBox;
    hide ClientSound;
    hide ServerSound;
  }

  /** A client that opens DONE ok shares a run in which the server enrolled that client's own key,
      after that client had the configured offer, and the file now holds the key under the comment
      the client was given exactly when it held it before or the line written is legible. */
  lemma ClientAgreesWithServer(cfg: SessionConfig, epub: seq<byte>, hello: Value, enroll: Value, disk: Disk,
                               acts: seq<Act>)
    requires PossibleRun(cfg, StartNet(cfg, epub, hello, enroll, disk), acts)
    ensures var n := NetRun(cfg, StartNet(cfg, epub, hello, enroll, disk), acts);
            n.client.stage.HasReceipt? ==>
              && n.fact.Some? && n.fact.value.epub == epub
              && n.fact.value.comment == n.client.stage.comment
              && n.client.offer == Some(OfferValue(cfg.offer))
              && ReadOffer(n.client.offer.value) == Some(cfg.offer)
              && RequestIn(enroll) == Some(n.fact.value.request)
              && StoredFor(cfg, n.fact.value.request, n.fact.value.stored)
              && (ProperSession(cfg) ==>
                    && View(n.disk).Some?
                    && var e := n.fact.value.stored;
                       Holder(View(n.disk).value, e.material) == Some(n.client.stage.comment) <==> Findable(disk, e))
  {
    OfferReads(cfg.offer);
    hide ReadOffer;
    var n := NetRun(cfg, StartNet(cfg, epub, hello, enroll, disk), acts);
    StartIsSound(cfg, epub, hello, enroll, disk);
    RunKeeps(cfg, StartNet(cfg, epub, hello, enroll, disk), acts);
    ClientStaysItself(cfg, StartNet(cfg, epub, hello, enroll, disk), acts);
    hide NetRun;
    hide Wrote;
    hide RequestIn;
    hide OfferValue;
    hide UpBox;
    hide DownBox;
    hide ServerSound;
    hide Holder;
    hide Findable;
    if n.client.stage.HasReceipt? {
      SameReceipt(n.fact.value.comment, n.client.stage.comment);
      if ProperSession(cfg) {
        StoredIsPlain(cfg, n.fact.value.request, n.fact.value.stored);
        WrittenKeyIsHeld(n.before, n.fact.value.stored, n.fact.value.comment, n.disk);
      }
    }
  }

  lemma SameReceipt(x: string, y: string)
    ensures DoneOk(x) == DoneOk(y) ==> x == y
  {
    ReceiptReads(x);
    ReceiptReads(y);
    hide DoneOk;
  }

  lemma StoredIsPlain(cfg: SessionConfig, request: Request, stored: Enrolment)
    requires ProperSession(cfg) && StoredFor(cfg, request, stored)
    ensures PlainKey(stored.keyType, stored.material, stored.comment)
  {
    FieldsAreProper(cfg, cfg.lib.key(Trim(request.pubkey)).value.canonical.value, request.device);
    hide ProperSession;
    hide BindComment;
    hide Trim;
    hide PlainKey;
  }
}
