/** The accept loop of module Server is the server of the agreement theorems: whatever frames the
    network delivers to it, its connections are that server's acts, so agreement holds of the loop. */
module LoopAgreement {
  import opened Wrappers
  import opened Bytes
  import opened Seqs
  import opened AuthKeys
  import opened Editing
  import opened Frame
  import opened Stream
  import opened Server
  import opened Messages
  import opened Conversation
  import opened Receipts
  import opened SessionSafety
  import opened Agreement

  // -- the server's side of a run --

  /** What the server's acts see and change, the boxes it puts in the air aside. */
  datatype Side = Side(server: ServerSide, disk: Disk, fact: Option<Fact>)

  function SideOf(n: Net): Side {
    Side(n.server, n.disk, n.fact)
  }

  predicate OfServer(act: Act) {
    act.ServerAccepts? || act.ServerHears? || act.ServerDrops?
  }

  /** A net with that server's side, and a client that plays no part. */
  function Around(cfg: SessionConfig, v: Side): Net {
    StartNet(cfg, [], Opaque, Opaque, Missing).(server := v.server, disk := v.disk, fact := v.fact)
  }

  function SideStep(cfg: SessionConfig, v: Side, act: Act): Side {
    SideOf(NetStep(cfg, Around(cfg, v), act))
  }

  function SideRun(cfg: SessionConfig, v: Side, acts: seq<Act>): Side
    decreases |acts|
  {
    if acts == [] then v else SideRun(cfg, SideStep(cfg, v, acts[0]), acts[1..])
  }

  lemma SideOfStep(cfg: SessionConfig, n: Net, act: Act)
    ensures SideOf(NetStep(cfg, n, act)) == if OfServer(act) then SideStep(cfg, SideOf(n), act) else SideOf(n)
  {
    hide OnIntro;
    hide OnHello;
    hide OnEnroll;
    hide OpenEnroll;
    hide Enrolments;
    hide SealedBoxes;
    hide OpenS2C;
    hide GetText;
    hide MapGet;
  }

  /** The server's side of a run is the run of the server's own acts. */
  lemma {:induction false} SideOfRun(cfg: SessionConfig, n: Net, acts: seq<Act>)
    ensures SideOf(NetRun(cfg, n, acts)) == SideRun(cfg, SideOf(n), Filter(OfServer, acts))
    decreases |acts|
  {
    hide NetStep;
    hide SideStep;
    hide OfServer;
    if acts != [] {
      SideOfStep(cfg, n, acts[0]);
      SideOfRun(cfg, NetStep(cfg, n, acts[0]), acts[1..]);
      assert acts == [acts[0]] + acts[1..];
      FilterStep(OfServer, acts[0], acts[1..]);
      if OfServer(acts[0]) {
        var rest := Filter(OfServer, acts[1..]);
        assert ([acts[0]] + rest)[0] == acts[0] && ([acts[0]] + rest)[1..] == rest;
      }
    }
  }

  lemma {:induction false} SideRunAppend(cfg: SessionConfig, v: Side, a: seq<Act>, b: seq<Act>)
    ensures SideRun(cfg, v, a + b) == SideRun(cfg, SideRun(cfg, v, a), b)
    decreases |a|
  {
    hide SideStep;
    if a == [] {
      assert a + b == b;
    } else {
      assert (a + b)[0] == a[0] && (a + b)[1..] == a[1..] + b;
      SideRunAppend(cfg, SideStep(cfg, v, a[0]), a[1..], b);
    }
  }

  // -- one connection --

  /** The acts of one connection: a frame at a time, until one is missing or ends it. */
  function ConnectionActs(cfg: SessionConfig, retired: bool, env: ConnEnv, now: nat): seq<Act> {
    var start := now + env.startLag;
    var preauth := PhaseDeadline(cfg, start, PREAUTH_TIMEOUT);
    match ReadFrame(Peer(env.arrivals, start), preauth)
    case (Err(_), _) => [ServerDrops]
    case (Ok(bytes), p1) =>
      var intro := cfg.lib.wire(bytes);
      match OnIntro(cfg, intro)
      case Rejected(_) => [ServerAccepts(intro)]
      case Greeted(epub, mode, chan) =>
        [ServerAccepts(intro)] + HelloActs(cfg, retired, epub, mode, chan, env, p1, preauth)
  }

  function HelloActs(cfg: SessionConfig, retired: bool, epub: seq<byte>, mode: string, chan: ChannelState, env: ConnEnv,
                     p1: Peer, preauth: nat): seq<Act>
  {
    match ReadFrame(p1, preauth)
    case (Err(_), _) => [ServerDrops]
    case (Ok(bytes), p2) =>
      var wire := cfg.lib.wire(bytes);
      var reply := OnHello(cfg, retired, epub, mode, chan, wire, env, p2.now);
      match reply.phase
      case Closed(_) => [ServerHears(wire, retired, env, p2.now)]
      case Offered(_, postauth) =>
        [ServerHears(wire, retired, env, p2.now)] + EnrollActs(cfg, retired, env, Peer(p2.pending, reply.now), postauth)
  }

  function EnrollActs(cfg: SessionConfig, retired: bool, env: ConnEnv, p: Peer, postauth: nat): seq<Act> {
    match ReadFrame(p, postauth)
    case (Err(_), _) => [ServerDrops]
    case (Ok(bytes), p3) => [ServerHears(cfg.lib.wire(bytes), retired, env, p3.now)]
  }

  /** The side after a connection: its file, and what it enrolled. */
  ghost predicate Served(v: Side, r: EnrollReply) {
    && v.server.Idle? && v.disk == r.disk
    && (v.fact.Some? <==> ResultOf(r).Enrolled?)
    && (v.fact.Some? ==>
          v.fact.value.comment == ResultOf(r).comment && Enrolments(r.log) == [v.fact.value.stored])
  }

  lemma SideRunOne(cfg: SessionConfig, v: Side, act: Act, rest: seq<Act>)
    ensures SideRun(cfg, v, [act] + rest) == SideRun(cfg, SideStep(cfg, v, act), rest)
    ensures SideRun(cfg, v, [act]) == SideStep(cfg, v, act)
  {
    hide SideStep;
    assert ([act] + rest)[1..] == rest;
  }

  lemma DropServes(cfg: SessionConfig, v: Side, r: EnrollReply)
    requires v.fact.None? && v.disk == r.disk && !ResultOf(r).Enrolled?
    ensures Served(SideRun(cfg, v, [ServerDrops]), r)
  {
    SideRunOne(cfg, v, ServerDrops, []);
    hide Enrolments;
  }

  lemma EnrollServes(cfg: SessionConfig, epub: seq<byte>, ch: ChannelState, retired: bool, wire: Wire, env: ConnEnv,
                     now: nat, disk: Disk)
    ensures Served(SideRun(cfg, Side(AwaitsEnroll(epub, ch), disk, None), [ServerHears(wire, retired, env, now)]),
                   OnEnroll(cfg, ch, wire, env, now, disk))
  {
    hide OnEnroll;
    hide OpenEnroll;
    hide Enrolments;
    hide SealedBoxes;
    hide StoredFor;
    hide Bodies;
    hide EnrollLog;
    hide Wrote;
    SideRunOne(cfg, Side(AwaitsEnroll(epub, ch), disk, None), ServerHears(wire, retired, env, now), []);
    EnrollFacts(cfg, ch, wire, env, now, disk);
    if ResultOf(OnEnroll(cfg, ch, wire, env, now, disk)).Enrolled? {
      StoredRequest(cfg, ch, wire, env, now, disk);
    }
  }

  /** A silent beginning changes nothing that counts. */
  lemma ServedAfter(v: Side, log: seq<Effect>, r: EnrollReply)
    requires Served(v, r) && Enrolments(log) == []
    ensures Served(v, After(log, r))
  {
    LogAppend(log, r.log);
    assert [] + Enrolments(r.log) == Enrolments(r.log);
    hide Enrolments;
    hide Bodies;
    hide WrongPins;
  }

  lemma AfterHelloServes(cfg: SessionConfig, epub: seq<byte>, ch: ChannelState, retired: bool, env: ConnEnv, p: Peer,
                         postauth: nat, disk: Disk)
    ensures Served(SideRun(cfg, Side(AwaitsEnroll(epub, ch), disk, None), EnrollActs(cfg, retired, env, p, postauth)),
                   AfterHello(cfg, ch, postauth, env, p, disk))
  {
    hide ReadFrame;
    hide SideRun;
    hide Served;
    hide OnEnroll;
    hide Enrolments;
    hide WrongPins;
    hide Bodies;
    var (enroll, p3) := ReadFrame(p, postauth);
    var heard := [Heard(Enroll, p.now, p3.now)];
    SilentLog(heard);
    match enroll
    case Err(e) =>
      DropServes(cfg, Side(AwaitsEnroll(epub, ch), disk, None), EnrollReply(Err(e), p3.now, disk, heard));
    case Ok(bytes) =>
      EnrollServes(cfg, epub, ch, retired, cfg.lib.wire(bytes), env, p3.now, disk);
      ServedAfter(SideRun(cfg, Side(AwaitsEnroll(epub, ch), disk, None), EnrollActs(cfg, retired, env, p, postauth)),
                  heard, OnEnroll(cfg, ch, cfg.lib.wire(bytes), env, p3.now, disk));
  }

  lemma HelloMoves(cfg: SessionConfig, epub: seq<byte>, mode: string, chan: ChannelState, retired: bool, wire: Wire,
                   env: ConnEnv, now: nat, disk: Disk)
    ensures var r := OnHello(cfg, retired, epub, mode, chan, wire, env, now);
            SideStep(cfg, Side(AwaitsHello(epub, mode, chan), disk, None), ServerHears(wire, retired, env, now))
              == Side(if r.phase.Offered? then AwaitsEnroll(epub, r.phase.chan) else Idle, disk, None)
  {
    hide OnHello;
    hide SealedBoxes;
  }

  lemma AfterIntroServes(cfg: SessionConfig, retired: bool, epub: seq<byte>, mode: string, chan: ChannelState,
                         env: ConnEnv, p1: Peer, preauth: nat, disk: Disk)
    ensures Served(SideRun(cfg, Side(AwaitsHello(epub, mode, chan), disk, None),
                           HelloActs(cfg, retired, epub, mode, chan, env, p1, preauth)),
                   AfterIntro(cfg, retired, epub, mode, chan, env, p1, preauth, disk))
  {
    hide ReadFrame;
    hide SideRun;
    hide SideStep;
    hide Served;
    hide OnHello;
    hide AfterHello;
    hide EnrollActs;
    hide Enrolments;
    hide WrongPins;
    hide Bodies;
    hide OfferValue;
    hide Silent;
    var v := Side(AwaitsHello(epub, mode, chan), disk, None);
    var (hello, p2) := ReadFrame(p1, preauth);
    var heard := [Heard(Hello, p1.now, p2.now)];
    HeardIsSilent(Hello, p1.now, p2.now);
    match hello
    case Err(e) =>
      DropServes(cfg, v, EnrollReply(Err(e), p2.now, disk, heard));
    case Ok(bytes) =>
      var wire := cfg.lib.wire(bytes);
      var act := ServerHears(wire, retired, env, p2.now);
      var reply := OnHello(cfg, retired, epub, mode, chan, wire, env, p2.now);
      HelloMoves(cfg, epub, mode, chan, retired, wire, env, p2.now, disk);
      HelloFacts(cfg, retired, epub, mode, chan, wire, env, p2.now);
      LogAppend(heard, reply.log);
      var none: seq<Enrolment> := [];
      assert none + none == none;
      match reply.phase {
        case Closed(result) =>
          SideRunOne(cfg, v, act, []);
          ClosedServes(v.(server := Idle), EnrollReply(result, reply.now, disk, heard + reply.log));
        case Offered(ch, postauth) =>
          var p := Peer(p2.pending, reply.now);
          SideRunOne(cfg, v, act, EnrollActs(cfg, retired, env, p, postauth));
          AfterHelloServes(cfg, epub, ch, retired, env, p, postauth, disk);
          ServedAfter(SideRun(cfg, v, [act] + EnrollActs(cfg, retired, env, p, postauth)), heard + reply.log,
                      AfterHello(cfg, ch, postauth, env, p, disk));
      }
  }

  lemma HeardIsSilent(stage: Stage, from: nat, at: nat)
    ensures Enrolments([Heard(stage, from, at)]) == []
    ensures forall start :: Enrolments([ClockRead(start), Heard(stage, from, at)]) == []
  {
    SilentLog([Heard(stage, from, at)]);
    forall start
      ensures Enrolments([ClockRead(start), Heard(stage, from, at)]) == []
    {
      SilentLog([ClockRead(start), Heard(stage, from, at)]);
    }
  }

  lemma ClosedServes(v: Side, r: EnrollReply)
    requires v.server.Idle? && v.fact.None? && v.disk == r.disk && !ResultOf(r).Enrolled?
    ensures Served(v, r)
  {
  }

  /** A connection of the accept loop, frame by frame as the network delivers it, is a run of the
      agreement's server: the same file, and the same enrolment if any. */
  lemma ExchangeIsARun(cfg: SessionConfig, retired: bool, env: ConnEnv, now: nat, disk: Disk)
    ensures Served(SideRun(cfg, Side(Idle, disk, None), ConnectionActs(cfg, retired, env, now)),
                   Exchange(cfg, retired, env, now, disk))
  {
    hide ReadFrame;
    hide SideRun;
    hide Served;
    hide AfterIntro;
    hide HelloActs;
    hide Enrolments;
    hide WrongPins;
    hide Bodies;
    hide OnIntro;
    var v := Side(Idle, disk, None);
    var start := now + env.startLag;
    var preauth := PhaseDeadline(cfg, start, PREAUTH_TIMEOUT);
    var (intro, p1) := ReadFrame(Peer(env.arrivals, start), preauth);
    var log := [ClockRead(start), Heard(Intro, start, p1.now)];
    HeardIsSilent(Intro, start, p1.now);
    match intro
    case Err(e) => DropServes(cfg, v, EnrollReply(Err(e), p1.now, disk, log));
    case Ok(bytes) =>
      var wire := cfg.lib.wire(bytes);
      IntroResults(cfg, wire);
      IntroMoves(cfg, v, wire);
      hide SideStep;
      match OnIntro(cfg, wire) {
        case Rejected(result) =>
          SideRunOne(cfg, v, ServerAccepts(wire), []);
          ClosedServes(v, EnrollReply(result, p1.now, disk, log));
        case Greeted(epub, mode, chan) =>
          var acts := HelloActs(cfg, retired, epub, mode, chan, env, p1, preauth);
          SideRunOne(cfg, v, ServerAccepts(wire), acts);
          AfterIntroServes(cfg, retired, epub, mode, chan, env, p1, preauth, disk);
          ServedAfter(SideRun(cfg, v, [ServerAccepts(wire)] + acts), log,
                      AfterIntro(cfg, retired, epub, mode, chan, env, p1, preauth, disk));
      }
  }

  lemma IntroMoves(cfg: SessionConfig, v: Side, wire: Wire)
    requires v.fact.None?
    ensures var r := OnIntro(cfg, wire);
            SideStep(cfg, v, ServerAccepts(wire))
              == v.(server := if r.Greeted? then AwaitsHello(r.epub, r.mode, r.chan) else Idle)
  {
    hide OnIntro;
  }

  // -- the loop --

  /** The acts of the accept loop, connection after connection, until its session ends. */
  function LoopActs(cfg: SessionConfig, cancelAt: Option<nat>, s: Session, its: seq<Iteration>): seq<Act>
    decreases |its|
  {
    if s.outcome.Some? || its == [] then []
    else
      (if Serves(cfg, cancelAt, s, its[0])
       then ConnectionActs(cfg, s.pinRetired, its[0].accept.env, s.now + its[0].lag) else [])
      + LoopActs(cfg, cancelAt, Server.Step(cfg, cancelAt, s, its[0]), its[1..])
  }

  /** The server's side agrees with the session: the same file, and an enrolment exactly when it is bound. */
  ghost predicate Matches(v: Side, s: Session) {
    && v.server.Idle? && v.disk == s.disk
    && (v.fact.Some? <==> s.outcome.Some? && s.outcome.value.Bound?)
    && (v.fact.Some? ==> v.fact.value.comment == s.outcome.value.comment)
  }

  lemma StepMatches(cfg: SessionConfig, cancelAt: Option<nat>, s: Session, it: Iteration)
    requires s.outcome.None?
    ensures Serves(cfg, cancelAt, s, it) ==>
              Matches(SideRun(cfg, Side(Idle, s.disk, None),
                              ConnectionActs(cfg, s.pinRetired, it.accept.env, s.now + it.lag)),
                      Server.Step(cfg, cancelAt, s, it))
    ensures !Serves(cfg, cancelAt, s, it) ==> Matches(Side(Idle, s.disk, None), Server.Step(cfg, cancelAt, s, it))
  {
    hide Exchange;
    hide ConnectionActs;
    hide SideRun;
    hide Server.Step;
    hide Enrolments;
    if Serves(cfg, cancelAt, s, it) {
      ServedStep(cfg, cancelAt, s, it);
      ExchangeIsARun(cfg, s.pinRetired, it.accept.env, s.now + it.lag, s.disk);
    } else {
      UnservedStep(cfg, cancelAt, s, it);
    }
  }

  lemma {:induction false} LoopIsARun(cfg: SessionConfig, cancelAt: Option<nat>, v: Side, s: Session,
                                      its: seq<Iteration>)
    requires Matches(v, s)
    ensures Matches(SideRun(cfg, v, LoopActs(cfg, cancelAt, s, its)), RunFrom(cfg, cancelAt, s, its))
    decreases |its|
  {
    hide Exchange;
    hide Server.Step;
    hide ConnectionActs;
    hide Serves;
    if s.outcome.None? && its != [] {
      var next := Server.Step(cfg, cancelAt, s, its[0]);
      var later := LoopActs(cfg, cancelAt, next, its[1..]);
      assert v == Side(Idle, s.disk, None);
      StepMatches(cfg, cancelAt, s, its[0]);
      if Serves(cfg, cancelAt, s, its[0]) {
        ServedConnects(cfg, cancelAt, s, its[0]);
        var acts := ConnectionActs(cfg, s.pinRetired, its[0].accept.env, s.now + its[0].lag);
        SideRunAppend(cfg, v, acts, later);
        hide SideRun;
        LoopIsARun(cfg, cancelAt, SideRun(cfg, v, acts), next, its[1..]);
      } else {
        assert [] + later == later;
        hide SideRun;
        LoopIsARun(cfg, cancelAt, v, next, its[1..]);
      }
    }
  }

  // -- agreement of the loop --

  /** A run of the network whose server is the accept loop: the client moves and the network delivers
      in between as they like. */
  ghost predicate LoopRun(cfg: SessionConfig, n: Net, acts: seq<Act>, cancelAt: Option<nat>, now: nat,
                          its: seq<Iteration>) {
    PossibleRun(cfg, n, acts) && Filter(OfServer, acts) == LoopActs(cfg, cancelAt, Start(now, n.disk), its)
  }

  lemma LoopSide(cfg: SessionConfig, epub: seq<byte>, hello: Value, enroll: Value, disk: Disk, acts: seq<Act>,
                 cancelAt: Option<nat>, now: nat, its: seq<Iteration>)
    requires LoopRun(cfg, StartNet(cfg, epub, hello, enroll, disk), acts, cancelAt, now, its)
    ensures Matches(SideOf(NetRun(cfg, StartNet(cfg, epub, hello, enroll, disk), acts)),
                    RunFrom(cfg, cancelAt, Start(now, disk), its))
  {
    var n0 := StartNet(cfg, epub, hello, enroll, disk);
    assert SideOf(n0) == Side(Idle, disk, None) && n0.disk == disk;
    assert Matches(SideOf(n0), Start(now, disk));
    hide StartNet;
    hide Matches;
    hide NetRun;
    hide SideRun;
    hide LoopActs;
    hide RunFrom;
    hide PossibleRun;
    SideOfRun(cfg, n0, acts);
    LoopIsARun(cfg, cancelAt, SideOf(n0), Start(now, disk), its);
  }

  /** A client that opens DONE ok has the accept loop's word for it: the session ended bound, under that
      comment, with the client's own request, and its file holds the key under the comment exactly when
      it held it before or the line written is legible. */
  lemma ClientAgreesWithLoop(cfg: SessionConfig, epub: seq<byte>, hello: Value, enroll: Value, disk: Disk,
                             acts: seq<Act>, cancelAt: Option<nat>, now: nat, its: seq<Iteration>)
    requires LoopRun(cfg, StartNet(cfg, epub, hello, enroll, disk), acts, cancelAt, now, its)
    ensures var n := NetRun(cfg, StartNet(cfg, epub, hello, enroll, disk), acts);
            var s := RunFrom(cfg, cancelAt, Start(now, disk), its);
            n.client.stage.HasReceipt? ==>
              && s.outcome.Some? && s.outcome.value.Bound? && s.outcome.value.comment == n.client.stage.comment
              && n.client.offer.Some? && ReadOffer(n.client.offer.value) == Some(cfg.offer)
              && n.fact.Some? && RequestIn(enroll) == Some(n.fact.value.request)
              && StoredFor(cfg, n.fact.value.request, n.fact.value.stored)
              && (ProperSession(cfg) ==>
                    && View(s.disk).Some?
                    && var e := n.fact.value.stored;
                       Holder(View(s.disk).value, e.material) == Some(s.outcome.value.comment) <==> Findable(disk, e))
  {
    hide NetRun;
    hide StartNet;
    hide RunFrom;
    hide PossibleRun;
    hide LoopActs;
    hide StoredFor;
    hide RequestIn;
    hide ProperSession;
    hide Findable;
    hide View;
    hide Holder;
    hide OfferValue;
    hide ReadOffer;
    LoopSide(cfg, epub, hello, enroll, disk, acts, cancelAt, now, its);
    ClientAgreesWithServer(cfg, epub, hello, enroll, disk, acts);
  }

  /** When the accept loop binds on the client's channel, the client had opened exactly the configured
      offer, and its own request is what the file received under the outcome's comment. */
  lemma LoopAgreesWithClient(cfg: SessionConfig, epub: seq<byte>, hello: Value, enroll: Value, disk: Disk,
                             acts: seq<Act>, cancelAt: Option<nat>, now: nat, its: seq<Iteration>)
    requires LoopRun(cfg, StartNet(cfg, epub, hello, enroll, disk), acts, cancelAt, now, its)
    ensures var n := NetRun(cfg, StartNet(cfg, epub, hello, enroll, disk), acts);
            var s := RunFrom(cfg, cancelAt, Start(now, disk), its);
            s.outcome.Some? && s.outcome.value.Bound? ==>
              && n.fact.Some?
              && (n.fact.value.epub == epub ==>
                    && n.client.offer == Some(OfferValue(cfg.offer))
                    && ReadOffer(n.client.offer.value) == Some(cfg.offer)
                    && RequestIn(enroll) == Some(n.fact.value.request)
                    && StoredFor(cfg, n.fact.value.request, n.fact.value.stored)
                    && Wrote(disk, n.fact.value.stored, s.outcome.value.comment, s.disk))
  {
    hide NetRun;
    hide StartNet;
    hide RunFrom;
    hide PossibleRun;
    hide LoopActs;
    hide StoredFor;
    hide RequestIn;
    hide Wrote;
    hide OfferValue;
    hide ReadOffer;
    LoopSide(cfg, epub, hello, enroll, disk, acts, cancelAt, now, its);
    ServerAgreesWithClient(cfg, epub, hello, enroll, disk, acts);
  }
}
