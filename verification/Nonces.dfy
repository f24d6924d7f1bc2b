/** Which boxes can share a key and a nonce once INTRO can be replayed: the server derives a client's
    channel anew, counters at zero, for each connection that greets with that client's key. */
module Nonces {
  import opened Wrappers
  import opened Bytes
  import opened AuthKeys
  import opened Frame
  import opened Server
  import opened Conversation
  import opened HonestClient
  import opened Agreement
  import opened Completion

  // -- greetings --

  /** The act brings the server an INTRO with this key. */
  predicate Greets(cfg: SessionConfig, act: Act, x: seq<byte>) {
    act.ServerAccepts? && OnIntro(cfg, act.wire).Greeted? && OnIntro(cfg, act.wire).epub == x
  }

  function Greetings(cfg: SessionConfig, acts: seq<Act>, x: seq<byte>): nat {
    if acts == [] then 0 else (if Greets(cfg, acts[0], x) then 1 else 0) + Greetings(cfg, acts[1..], x)
  }

  /** Under a channel's keys, a nonce names one box. */
  ghost predicate NoncesName(cfg: SessionConfig, air: set<Wire>, x: seq<byte>) {
    forall v, w :: v in air && w in air && OnChannel(cfg, v, x) && SameSlot(v, w) ==> v == w
  }

  predicate OnChannel(cfg: SessionConfig, w: Wire, x: seq<byte>) {
    w.Box? && (w.key == ChannelFor(cfg, x).c2s || w.key == ChannelFor(cfg, x).s2c)
  }

  predicate SameSlot(v: Wire, w: Wire) {
    v.Box? && w.Box? && v.key == w.key && v.nonce == w.nonce
  }

  // -- greeted at most once --

  ghost predicate Down(cfg: SessionConfig, w: Wire, x: seq<byte>) {
    w.Box? && w.key == ChannelFor(cfg, x).s2c
  }

  ghost predicate NoneDown(cfg: SessionConfig, air: set<Wire>, x: seq<byte>) {
    forall w :: w in air ==> !Down(cfg, w, x)
  }

  /** The server sends nothing under a client's own key. */
  ghost predicate NoneUp(cfg: SessionConfig, air: set<Wire>, x: seq<byte>) {
    forall w :: w in air && w.Box? ==> w.key != ChannelFor(cfg, x).c2s
  }

  ghost predicate OnlyFirstDown(cfg: SessionConfig, air: set<Wire>, x: seq<byte>) {
    forall w :: w in air && Down(cfg, w, x) ==> w.nonce == Nonce(0)
  }

  ghost predicate OneDownEach(cfg: SessionConfig, air: set<Wire>, x: seq<byte>) {
    forall v, w :: v in air && w in air && Down(cfg, v, x) && SameSlot(v, w) ==> v == w
  }

  ghost predicate ServesKey(server: ServerSide, x: seq<byte>) {
    !server.Idle? && server.epub == x
  }

  /** How far the one conversation on a key has come, and what it has put in the air. */
  ghost predicate Once(cfg: SessionConfig, n: Net, x: seq<byte>, greeted: nat) {
    && OneDownEach(cfg, n.air, x)
    && (x != n.client.epub ==> NoneUp(cfg, n.air, x))
    && (greeted == 0 ==> NoneDown(cfg, n.air, x) && !ServesKey(n.server, x))
    && (ServesKey(n.server, x) && n.server.AwaitsHello? ==> NoneDown(cfg, n.air, x))
    && (ServesKey(n.server, x) && n.server.AwaitsEnroll? ==> OnlyFirstDown(cfg, n.air, x))
  }

  /** One reply adds at most one box, under the given number of its own channel. */
  ghost predicate Replies(cfg: SessionConfig, boxes: set<Wire>, y: seq<byte>, number: u64) {
    && (forall w :: w in boxes ==> Down(cfg, w, y) && w.nonce == Nonce(number))
    && (forall v, w :: v in boxes && w in boxes ==> v == w)
  }

  lemma RepliesOnce(cfg: SessionConfig, log: seq<Effect>, y: seq<byte>, number: u64, ch: ChannelState)
    requires BoxedAt(log, ch) && ch.s2c == ChannelFor(cfg, y).s2c && ch.seqS2C == number && |Bodies(log)| <= 1
    ensures Replies(cfg, SealedBoxes(log), y, number)
  {
    hide Nonce;
    hide Bodies;
    forall w | w in SealedBoxes(log)
      ensures Bodies(log) != [] && w == Box(ch.s2c, Nonce(number), Encoded(Bodies(log)[0]))
    {
      var e :| e in log && e.Sealed? && e.box == w;
      var i :| 0 <= i < |log| && log[i] == e;
      BodyIsListed(log, i);
    }
  }

  lemma HelloRepliesOnce(cfg: SessionConfig, retired: bool, y: seq<byte>, mode: string, frame: Wire, env: ConnEnv,
                         now: nat)
    ensures Replies(cfg, SealedBoxes(OnHello(cfg, retired, y, mode, ChannelFor(cfg, y), frame, env, now).log), y, 0)
  {
    hide OnHello;
    hide Bodies;
    hide BoxedAt;
    hide Enrolments;
    hide WrongPins;
    hide OfferValue;
    hide IsDoneErr;
    var chan := ChannelFor(cfg, y);
    HelloBoxes(cfg, retired, y, mode, chan, frame, env, now);
    HelloFacts(cfg, retired, y, mode, chan, frame, env, now);
    RepliesOnce(cfg, OnHello(cfg, retired, y, mode, chan, frame, env, now).log, y, 0, chan);
    hide SealedBoxes;
    hide Replies;
  }

  lemma EnrollRepliesOnce(cfg: SessionConfig, y: seq<byte>, chan: ChannelState, frame: Wire, env: ConnEnv, now: nat,
                          disk: Disk)
    requires chan == ChannelFor(cfg, y).(seqC2S := 1, seqS2C := 1)
    ensures Replies(cfg, SealedBoxes(OnEnroll(cfg, chan, frame, env, now, disk).log), y, 1)
  {
    hide OnEnroll;
    hide Bodies;
    hide BoxedAt;
    hide Enrolments;
    hide EnrollLog;
    hide Wrote;
    hide DoneOk;
    hide IsDoneErr;
    EnrollBoxes(cfg, chan, frame, env, now, disk);
    EnrollFacts(cfg, chan, frame, env, now, disk);
    RepliesOnce(cfg, OnEnroll(cfg, chan, frame, env, now, disk).log, y, 1, chan);
    hide SealedBoxes;
    hide Replies;
  }

  lemma AirAfterReply(cfg: SessionConfig, air: set<Wire>, boxes: set<Wire>, x: seq<byte>, y: seq<byte>, number: u64)
    requires OneDownEach(cfg, air, x) && Replies(cfg, boxes, y, number)
    requires x == y ==> forall w :: w in air && Down(cfg, w, x) ==> w.nonce != Nonce(number)
    ensures OneDownEach(cfg, air + boxes, x)
    ensures x != y && NoneDown(cfg, air, x) ==> NoneDown(cfg, air + boxes, x)
    ensures NoneUp(cfg, air, x) ==> NoneUp(cfg, air + boxes, x)
    ensures number == 0 && NoneDown(cfg, air, x) ==> OnlyFirstDown(cfg, air + boxes, x)
  {
    hide Nonce;
    KeysApart(cfg, x, y);
  }

  lemma HelloKeepsOnce(cfg: SessionConfig, n: Net, wire: Wire, retired: bool, env: ConnEnv, now: nat, x: seq<byte>,
                       greeted: nat)
    requires Once(cfg, n, x, greeted) && ServerSound(cfg, n.server) && n.server.AwaitsHello?
    ensures Once(cfg, ServerStep(cfg, n, wire, retired, env, now), x, greeted)
  {
    hide OnHello;
    hide SealedBoxes;
    hide Nonce;
    HelloRepliesOnce(cfg, retired, n.server.epub, n.server.mode, wire, env, now);
    var boxes := SealedBoxes(OnHello(cfg, retired, n.server.epub, n.server.mode, n.server.chan, wire, env, now).log);
    AirAfterReply(cfg, n.air, boxes, x, n.server.epub, 0);
    hide Replies;
    hide OneDownEach;
    hide NoneUp;
    hide Down;
  }

  lemma EnrollKeepsOnce(cfg: SessionConfig, n: Net, wire: Wire, retired: bool, env: ConnEnv, now: nat, x: seq<byte>,
                        greeted: nat)
    requires Once(cfg, n, x, greeted) && ServerSound(cfg, n.server) && n.server.AwaitsEnroll?
    ensures Once(cfg, ServerStep(cfg, n, wire, retired, env, now), x, greeted)
  {
    hide OnEnroll;
    hide OpenEnroll;
    hide Enrolments;
    hide SealedBoxes;
    hide Nonce;
    EnrollRepliesOnce(cfg, n.server.epub, n.server.chan, wire, env, now, n.disk);
    var boxes := SealedBoxes(OnEnroll(cfg, n.server.chan, wire, env, now, n.disk).log);
    NoncesApart();
    AirAfterReply(cfg, n.air, boxes, x, n.server.epub, 1);
    hide Replies;
    hide OneDownEach;
    hide NoneUp;
    hide Down;
  }

  lemma ClientKeepsOnce(cfg: SessionConfig, n: Net, act: Act, x: seq<byte>, greeted: nat)
    requires Once(cfg, n, x, greeted) && Sound(cfg, n) && (act.ClientSendsHello? || act.ClientHears?)
    ensures Once(cfg, NetStep(cfg, n, act), x, greeted)
  {
    hide Nonce;
    hide GetText;
    hide MapGet;
    hide UpBox;
    hide DownBox;
    hide FactSound;
    hide ServerSound;
    hide OfferValue;
    hide DoneOk;
    KeysApart(cfg, n.client.epub, x);
    var t := NetStep(cfg, n, act);
    assert t.server == n.server;
    assert forall w :: w in t.air && w !in n.air ==> w.Box? && w.key == n.client.chan.c2s;
    assert forall w :: w in t.air && w !in n.air ==> !Down(cfg, w, x);
  }

  lemma StepKeepsOnce(cfg: SessionConfig, n: Net, act: Act, x: seq<byte>, greeted: nat)
    requires Once(cfg, n, x, greeted) && Sound(cfg, n) && (Greets(cfg, act, x) ==> greeted == 0)
    ensures Once(cfg, NetStep(cfg, n, act), x, greeted + if Greets(cfg, act, x) then 1 else 0)
  {
    hide OnIntro;
    hide Nonce;
    match act
    case ClientSendsHello => ClientKeepsOnce(cfg, n, act, x, greeted);
    case ClientHears(_) => ClientKeepsOnce(cfg, n, act, x, greeted);
    case ServerAccepts(_) =>
    case ServerDrops =>
    case ServerHears(wire, retired, env, now) =>
      hide Once;
      if n.fact.None? && n.server.AwaitsHello? {
        HelloKeepsOnce(cfg, n, wire, retired, env, now, x, greeted);
      } else if n.fact.None? && n.server.AwaitsEnroll? {
        EnrollKeepsOnce(cfg, n, wire, retired, env, now, x, greeted);
      }
  }

  lemma {:induction false} RunKeepsOnce(cfg: SessionConfig, n: Net, acts: seq<Act>, x: seq<byte>, greeted: nat)
    requires Once(cfg, n, x, greeted) && Sound(cfg, n) && PossibleRun(cfg, n, acts)
    requires greeted + Greetings(cfg, acts, x) <= 1
    ensures Once(cfg, NetRun(cfg, n, acts), x, greeted + Greetings(cfg, acts, x))
    decreases |acts|
  {
    hide Once;
    hide Sound;
    hide NetStep;
    hide Possible;
    hide Greets;
    if acts != [] {
      var next := greeted + if Greets(cfg, acts[0], x) then 1 else 0;
      StepKeepsOnce(cfg, n, acts[0], x, greeted);
      StepKeeps(cfg, n, acts[0]);
      RunKeepsOnce(cfg, NetStep(cfg, n, acts[0]), acts[1..], x, next);
    }
  }

  /** In every run in which a key is greeted at most once, no two boxes on its channel share a nonce. */
  lemma NoncesNameWhenGreetedOnce(cfg: SessionConfig, epub: seq<byte>, hello: Value, enroll: Value, disk: Disk,
                                  acts: seq<Act>, x: seq<byte>)
    requires PossibleRun(cfg, StartNet(cfg, epub, hello, enroll, disk), acts)
    requires Greetings(cfg, acts, x) <= 1
    ensures NoncesName(cfg, NetRun(cfg, StartNet(cfg, epub, hello, enroll, disk), acts).air, x)
  {
    var start := StartNet(cfg, epub, hello, enroll, disk);
    var n := NetRun(cfg, start, acts);
    StartIsSound(cfg, epub, hello, enroll, disk);
    RunKeeps(cfg, start, acts);
    RunKeepsOnce(cfg, start, acts, x, 0);
    hide NetRun;
    UpBoxesNamed(cfg, n, x);
  }

  lemma UpBoxesNamed(cfg: SessionConfig, n: Net, x: seq<byte>)
    requires Sound(cfg, n) && OneDownEach(cfg, n.air, x) && (x != n.client.epub ==> NoneUp(cfg, n.air, x))
    ensures NoncesName(cfg, n.air, x)
  {
    hide Nonce;
    hide DownBox;
    hide FactSound;
    hide ServerSound;
    hide OfferValue;
    NoncesApart();
    KeysApart(cfg, n.client.epub, x);
    forall v, w | v in n.air && w in n.air && OnChannel(cfg, v, x) && SameSlot(v, w)
      ensures v == w
    {
      if !Down(cfg, v, x) {
        assert UpBox(cfg, n.client, v) && UpBox(cfg, n.client, w);
      }
    }
  }

  // -- greeted twice --

  /** The two cleartext introductions of one key: as its client sent it, and with the mode rewritten. */
  ghost predicate Rewritten(cfg: SessionConfig, c: Applicant, intro: Wire, rewritten: Wire) {
    && OnIntro(cfg, intro) == Greeted(c.epub, "token", ChannelFor(cfg, c.epub))
    && OnIntro(cfg, rewritten) == Greeted(c.epub, "pin", ChannelFor(cfg, c.epub))
  }

  /** The client's token is no PIN proof, or the PIN is retired anyway. */
  predicate TokenIsNoPin(cfg: SessionConfig, c: Applicant, retired: bool) {
    retired || cfg.token != cfg.lib.pinProof(cfg.pin, c.epub, cfg.spub)
  }

  function Refusal(retired: bool): Value {
    DoneErr(if retired then "pin retired for this offer" else "wrong pin")
  }

  lemma RefusalGoesOut(cfg: SessionConfig, n: Net, c: Applicant, retired: bool, env: ConnEnv, now: nat)
    requires n.fact.None? && n.server == AwaitsHello(c.epub, "pin", ChannelFor(cfg, c.epub))
    requires GetBytes(c.hello, "proof") == Some(cfg.token) && TokenIsNoPin(cfg, c, retired)
    ensures var t := NetStep(cfg, n, ServerHears(UpWire(cfg, c, 0, c.hello), retired, env, now));
            n.air <= t.air && DownWire(cfg, c, 0, Refusal(retired)) in t.air
  {
    hide Nonce;
    hide DoneErr;
    hide GetBytes;
    hide SendOffer;
    var chan, wire := ChannelFor(cfg, c.epub), UpWire(cfg, c, 0, c.hello);
    assert OpenHello(chan, wire) == Ok((cfg.token, chan.(seqC2S := 1)));
    hide OpenHello;
    var r := OnHello(cfg, retired, c.epub, "pin", chan, wire, env, now);
    var last := r.log[|r.log| - 1];
    assert last in r.log && last.Sealed? && last.box == DownWire(cfg, c, 0, Refusal(retired));
  }

  lemma GreetedAgain(cfg: SessionConfig, n: Net, wire: Wire, c: Applicant, mode: string)
    requires OnIntro(cfg, wire) == Greeted(c.epub, mode, ChannelFor(cfg, c.epub)) && n.fact.None?
    ensures NetStep(cfg, n, ServerAccepts(wire)) == n.(server := AwaitsHello(c.epub, mode, ChannelFor(cfg, c.epub)))
    ensures wire.Clear? && Possible(n, ServerAccepts(wire)) && Greets(cfg, ServerAccepts(wire), c.epub)
  {
    hide GetBytes;
    hide GetText;
    hide Version;
    assert wire.Clear?;
    hide OnIntro;
  }

  /** One HELLO, delivered after each of two greetings of its key, is answered twice under one key and
      nonce: with the offer, and with a refusal. */
  lemma ReplayedHelloReusesANonce(cfg: SessionConfig, c: Applicant, disk: Disk, intro: Wire, rewritten: Wire,
                                  retired: bool, env: ConnEnv, now: nat)
    returns (acts: seq<Act>)
    requires Rewritten(cfg, c, intro, rewritten) && TokenIsNoPin(cfg, c, retired)
    requires c.mode == "token" && GetBytes(c.hello, "proof") == Some(cfg.token) && env.offerWrite.ok
    ensures PossibleRun(cfg, StartNet(cfg, c.epub, c.hello, c.enroll, disk), acts)
    ensures Greetings(cfg, acts, c.epub) == 2
    ensures var air := NetRun(cfg, StartNet(cfg, c.epub, c.hello, c.enroll, disk), acts).air;
            && DownWire(cfg, c, 0, OfferValue(cfg.offer)) in air && DownWire(cfg, c, 0, Refusal(retired)) in air
            && !NoncesName(cfg, air, c.epub)
  {
    hide Nonce;
    hide OnIntro;
    hide ServerStep;
    hide ClientStep;
    hide GetBytes;
    hide OfferValue;
    hide TokenIsNoPin;
    hide Refusal;
    var hears := ServerHears(UpWire(cfg, c, 0, c.hello), retired, env, now);
    var n0 := StartNet(cfg, c.epub, c.hello, c.enroll, disk);
    var n1 := NetStep(cfg, n0, ClientSendsHello);
    assert UpWire(cfg, c, 0, c.hello) in n1.air && n1.fact.None? && Possible(n0, ClientSendsHello);
    hide NetStep;
    hide StartNet;
    GreetedAgain(cfg, n1, intro, c, "token");
    var n2 := NetStep(cfg, n1, ServerAccepts(intro));
    OfferGoesOut(cfg, n2, c, retired, env, now);
    var n3 := NetStep(cfg, n2, hears);
    assert n2.air <= n3.air by { AirGrows(cfg, n2, hears); }
    GreetedAgain(cfg, n3, rewritten, c, "pin");
    var n4 := NetStep(cfg, n3, ServerAccepts(rewritten));
    RefusalGoesOut(cfg, n4, c, retired, env, now);
    var n5 := NetStep(cfg, n4, hears);
    acts := [ServerAccepts(rewritten)] + ([hears] + []);
    ConsRun(cfg, n4, hears, []);
    ConsRun(cfg, n3, ServerAccepts(rewritten), [hears] + []);
    ConsRun(cfg, n2, hears, acts);
    ConsRun(cfg, n1, ServerAccepts(intro), [hears] + acts);
    ConsRun(cfg, n0, ClientSendsHello, [ServerAccepts(intro)] + ([hears] + acts));
    CountFive(cfg, intro, rewritten, hears, c.epub);
    acts := [ClientSendsHello] + ([ServerAccepts(intro)] + ([hears] + acts));
    OfferIsNoRefusal(cfg, retired);
    assert SameSlot(DownWire(cfg, c, 0, OfferValue(cfg.offer)), DownWire(cfg, c, 0, Refusal(retired)));
  }

  lemma AirGrows(cfg: SessionConfig, n: Net, act: Act)
    ensures n.air <= NetStep(cfg, n, act).air
  {
    hide OnHello;
    hide OnEnroll;
    hide OnIntro;
    hide OpenEnroll;
    hide Enrolments;
    hide SealedBoxes;
    hide GetText;
    hide MapGet;
  }

  lemma OfferIsNoRefusal(cfg: SessionConfig, retired: bool)
    ensures OfferValue(cfg.offer) != Refusal(retired)
  {
    assert IsDoneErr(Refusal(retired));
    MessagesApart(cfg.offer, Refusal(retired));
    hide OfferValue;
  }

  lemma CountFive(cfg: SessionConfig, intro: Wire, rewritten: Wire, hears: Act, x: seq<byte>)
    requires Greets(cfg, ServerAccepts(intro), x) && Greets(cfg, ServerAccepts(rewritten), x) && hears.ServerHears?
    ensures var again := [ServerAccepts(rewritten)] + ([hears] + []);
            Greetings(cfg, [ClientSendsHello] + ([ServerAccepts(intro)] + ([hears] + again)), x) == 2
  {
    hide OnIntro;
    var none: seq<Act> := [];
    var again := [ServerAccepts(rewritten)] + ([hears] + none);
    GreetingsStep(cfg, hears, none, x);
    GreetingsStep(cfg, ServerAccepts(rewritten), [hears] + none, x);
    GreetingsStep(cfg, hears, again, x);
    GreetingsStep(cfg, ServerAccepts(intro), [hears] + again, x);
    GreetingsStep(cfg, ClientSendsHello, [ServerAccepts(intro)] + ([hears] + again), x);
  }

  lemma GreetingsStep(cfg: SessionConfig, act: Act, rest: seq<Act>, x: seq<byte>)
    ensures Greetings(cfg, [act] + rest, x) == (if Greets(cfg, act, x) then 1 else 0) + Greetings(cfg, rest, x)
  {
    assert ([act] + rest)[1..] == rest;
  }

  /** Every run with at most that many greetings of the key keeps its nonces apart. */
  ghost predicate SafeUpTo(cfg: SessionConfig, start: Net, x: seq<byte>, limit: nat) {
    forall acts :: PossibleRun(cfg, start, acts) && Greetings(cfg, acts, x) <= limit ==>
      NoncesName(cfg, NetRun(cfg, start, acts).air, x)
  }

  /** One greeting of a client's key is exactly what the nonces of its channel bear. */
  lemma OneGreetingIsTheLimit(cfg: SessionConfig, c: Applicant, disk: Disk, intro: Wire, rewritten: Wire, retired: bool,
                              env: ConnEnv, now: nat, limit: nat)
    requires Rewritten(cfg, c, intro, rewritten) && TokenIsNoPin(cfg, c, retired)
    requires c.mode == "token" && GetBytes(c.hello, "proof") == Some(cfg.token) && env.offerWrite.ok
    ensures SafeUpTo(cfg, StartNet(cfg, c.epub, c.hello, c.enroll, disk), c.epub, limit) <==> limit <= 1
  {
    hide PossibleRun;
    hide NetRun;
    hide Greetings;
    hide NoncesName;
    hide StartNet;
    hide Rewritten;
    hide TokenIsNoPin;
    var start := StartNet(cfg, c.epub, c.hello, c.enroll, disk);
    var acts := ReplayedHelloReusesANonce(cfg, c, disk, intro, rewritten, retired, env, now);
    if limit <= 1 {
      forall acts | PossibleRun(cfg, start, acts) && Greetings(cfg, acts, c.epub) <= limit
        ensures NoncesName(cfg, NetRun(cfg, start, acts).air, c.epub)
      {
        NoncesNameWhenGreetedOnce(cfg, c.epub, c.hello, c.enroll, disk, acts, c.epub);
      }
    }
  }
}
