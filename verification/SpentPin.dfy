/** What wrong PINs change for the other connections of a run. Three of them retire the PIN, so they
    turn away exactly the clients that come with a PIN afterwards, and nobody else. */
module SpentPin {
  import opened Wrappers
  import opened Bytes
  import opened Seqs
  import opened Text
  import opened AuthKeys
  import opened Frame
  import opened Stream
  import opened Server
  import opened Conversation
  import opened PeerLimits
  import opened SessionSafety
  import opened HonestClient
  import opened KnownTypes
  import opened Scenario

  // -- the replies of a run --

  /** What a run answers to the connections it serves, in order. */
  function Replies(cfg: SessionConfig, cancelAt: Option<nat>, s: Session, its: seq<Iteration>): seq<EnrollReply>
    decreases |its|
  {
    if s.outcome.Some? || its == [] then []
    else
      (if Serves(cfg, cancelAt, s, its[0]) then [ReplyAt(cfg, s, its[0])] else [])
      + Replies(cfg, cancelAt, Server.Step(cfg, cancelAt, s, its[0]), its[1..])
  }

  predicate IsPinFailure(r: ConnectionResult) { r.PinFailure? }

  predicate NoPinFailure(r: EnrollReply) { !ResultOf(r).PinFailure? }

  /** After retirement no connection comes to the point where its PIN would have been compared. */
  ghost predicate Unmissed(cfg: SessionConfig, cancelAt: Option<nat>, s: Session, its: seq<Iteration>)
    decreases |its|
  {
    s.outcome.None? && its != [] ==>
      && (Serves(cfg, cancelAt, s, its[0]) && s.pinRetired ==> NoPinChecked(LiveReply(cfg, s, its[0]).log))
      && Unmissed(cfg, cancelAt, Server.Step(cfg, cancelAt, s, its[0]), its[1..])
  }

  /** The reply the same connection would get with the PIN live. */
  function LiveReply(cfg: SessionConfig, s: Session, it: Iteration): EnrollReply
    requires it.accept.Connection?
  {
    Exchange(cfg, false, it.accept.env, s.now + it.lag, s.disk)
  }

  lemma RepliesStep(cfg: SessionConfig, cancelAt: Option<nat>, s: Session, it: Iteration, rest: seq<Iteration>)
    requires s.outcome.None?
    ensures var later := Replies(cfg, cancelAt, Server.Step(cfg, cancelAt, s, it), rest);
            Replies(cfg, cancelAt, s, [it] + rest)
              == if Serves(cfg, cancelAt, s, it) then [ReplyAt(cfg, s, it)] + later else later
    ensures RunFrom(cfg, cancelAt, s, [it] + rest) == RunFrom(cfg, cancelAt, Server.Step(cfg, cancelAt, s, it), rest)
  {
    hide Exchange;
    hide Server.Step;
    assert ([it] + rest)[1..] == rest;
  }

  /** A connection that does not end in a wrong PIN does the same with the PIN live, when its reply is
      the same. */
  lemma KeptStep(cfg: SessionConfig, cancelAt: Option<nat>, s: Session, t: Session, it: Iteration, carry: nat)
    requires SameButPins(s, t, carry) && s.outcome.None?
    requires Serves(cfg, cancelAt, s, it) ==>
               !ResultOf(ReplyAt(cfg, s, it)).PinFailure? && ReplyAt(cfg, s, it) == LiveReply(cfg, s, it)
    ensures var kept := it.(lag := it.lag + carry);
            && SameButPins(Server.Step(cfg, cancelAt, s, it), Server.Step(cfg, cancelAt, t, kept), 0)
  {
    hide Exchange;
    var kept := it.(lag := it.lag + carry);
    if Serves(cfg, cancelAt, s, it) {
      ServedStep(cfg, cancelAt, s, it);
      ServedStep(cfg, cancelAt, t, kept);
      hide Server.Step;
    }
  }

  lemma SameServed(cfg: SessionConfig, cancelAt: Option<nat>, s: Session, t: Session, it: Iteration, carry: nat)
    requires SameButPins(s, t, carry)
    ensures var kept := it.(lag := it.lag + carry);
            && (Serves(cfg, cancelAt, t, kept) <==> Serves(cfg, cancelAt, s, it))
            && (Serves(cfg, cancelAt, s, it) ==> ReplyAt(cfg, t, kept) == LiveReply(cfg, s, it))
  {
    hide Exchange;
    hide CancelRequested;
  }

  lemma DroppedStep(cfg: SessionConfig, cancelAt: Option<nat>, s: Session, t: Session, it: Iteration, carry: nat)
    requires SameButPins(s, t, carry) && s.outcome.None?
    requires Serves(cfg, cancelAt, s, it) && ResultOf(ReplyAt(cfg, s, it)).PinFailure?
    ensures !s.pinRetired
    ensures var next := Server.Step(cfg, cancelAt, s, it); SameButPins(next, t, carry + Elapsed(s, next))
  {
    hide Exchange;
    hide Server.Step;
    UnboundStep(cfg, cancelAt, s, it);
    RetiredIsNoFailure(cfg, it.accept.env, s.now + it.lag, s.disk);
  }

  lemma RetiredIsNoFailure(cfg: SessionConfig, env: ConnEnv, now: nat, disk: Disk)
    ensures !ResultOf(Exchange(cfg, true, env, now, disk)).PinFailure?
  {
    hide Exchange;
    hide Accounted;
    hide Guarded;
    hide OfferAfterProof;
    hide WrongPins;
    ConnectionFacts(cfg, true, env, now, disk);
    if ResultOf(Exchange(cfg, true, env, now, disk)).PinFailure? {
      UncheckedIsNotWrong(Exchange(cfg, true, env, now, disk).log);
    }
  }

  /** A reply is the one the connection would get with the PIN live, exactly when that one compares no
      PIN or the PIN is live. */
  lemma ReplyIsLive(cfg: SessionConfig, s: Session, it: Iteration)
    requires it.accept.Connection?
    ensures ReplyAt(cfg, s, it) == LiveReply(cfg, s, it) <==> (s.pinRetired ==> NoPinChecked(LiveReply(cfg, s, it).log))
  {
    hide Exchange;
    hide NoPinChecked;
    hide PinRefused;
    RetirementOnlyStopsPins(cfg, it.accept.env, s.now + it.lag, s.disk);
  }

  lemma SameHead<T>(x: T, y: T, a: seq<T>, b: seq<T>)
    ensures [x] + a == [y] + b <==> x == y && a == b
  {
    assert ([x] + a)[0] == x && ([x] + a)[1..] == a;
    assert ([y] + b)[0] == y && ([y] + b)[1..] == b;
  }

  /** The deleted run and what is compared with it, one iteration at a time. */
  lemma DeletionStep(cfg: SessionConfig, cancelAt: Option<nat>, s: Session, it: Iteration, rest: seq<Iteration>,
                     carry: nat)
    requires s.outcome.None?
    ensures var next := Server.Step(cfg, cancelAt, s, it);
            var dropped := Serves(cfg, cancelAt, s, it) && IsPinFailure(ResultOf(ReplyAt(cfg, s, it)));
            Without(cfg, cancelAt, s, [it] + rest, IsPinFailure, carry)
              == if dropped then Without(cfg, cancelAt, next, rest, IsPinFailure, carry + Elapsed(s, next))
                 else [it.(lag := it.lag + carry)] + Without(cfg, cancelAt, next, rest, IsPinFailure, 0)
    ensures Unmissed(cfg, cancelAt, s, [it] + rest)
       <==> && (Serves(cfg, cancelAt, s, it) && s.pinRetired ==> NoPinChecked(LiveReply(cfg, s, it).log))
            && Unmissed(cfg, cancelAt, Server.Step(cfg, cancelAt, s, it), rest)
  {
    hide Exchange;
    hide Server.Step;
    hide NoPinChecked;
    assert ([it] + rest)[1..] == rest;
  }

  lemma DeletionEnds(cfg: SessionConfig, cancelAt: Option<nat>, s: Session, t: Session, its: seq<Iteration>, carry: nat)
    requires SameButPins(s, t, carry) && (s.outcome.Some? || its == [])
    ensures var without := Without(cfg, cancelAt, s, its, IsPinFailure, carry);
            && Replies(cfg, cancelAt, t, without) == [] == Filter(NoPinFailure, Replies(cfg, cancelAt, s, its))
            && Unmissed(cfg, cancelAt, s, its)
            && RunFrom(cfg, cancelAt, s, its) == s && RunFrom(cfg, cancelAt, t, without) == t
  {
  }

  /** Deleting every connection that ends in a wrong PIN, its time kept, leaves the replies to all the
      others as they were if and only if no connection came with a PIN after it was retired; and then
      the outcome and the file are the same too. */
  lemma {:induction false} WrongPinsMissNobody(cfg: SessionConfig, cancelAt: Option<nat>, s: Session, t: Session,
                                               its: seq<Iteration>, carry: nat)
    requires SameButPins(s, t, carry)
    ensures var without := Without(cfg, cancelAt, s, its, IsPinFailure, carry);
            var kept := Filter(NoPinFailure, Replies(cfg, cancelAt, s, its));
            var a, b := RunFrom(cfg, cancelAt, s, its), RunFrom(cfg, cancelAt, t, without);
            && (Replies(cfg, cancelAt, t, without) == kept <==> Unmissed(cfg, cancelAt, s, its))
            && (Unmissed(cfg, cancelAt, s, its) ==> a.outcome == b.outcome && a.disk == b.disk && b.events == [])
    decreases |its|
  {
    hide Exchange;
    hide Server.Step;
    hide Serves;
    hide ResultOf;
    hide Replies;
    hide RunFrom;
    hide Filter;
    hide Without;
    hide Unmissed;
    hide NoPinChecked;
    if s.outcome.Some? || its == [] {
      DeletionEnds(cfg, cancelAt, s, t, its, carry);
    } else {
      var it, rest := its[0], its[1..];
      assert its == [it] + rest;
      var next := Server.Step(cfg, cancelAt, s, it);
      var later := Replies(cfg, cancelAt, next, rest);
      RepliesStep(cfg, cancelAt, s, it, rest);
      DeletionStep(cfg, cancelAt, s, it, rest, carry);
      SameServed(cfg, cancelAt, s, t, it, carry);
      if Serves(cfg, cancelAt, s, it) {
        ServedConnects(cfg, cancelAt, s, it);
        FilterStep(NoPinFailure, ReplyAt(cfg, s, it), later);
      }
      if Serves(cfg, cancelAt, s, it) && IsPinFailure(ResultOf(ReplyAt(cfg, s, it))) {
        DroppedStep(cfg, cancelAt, s, t, it, carry);
        WrongPinsMissNobody(cfg, cancelAt, next, t, rest, carry + Elapsed(s, next));
      } else {
        var kept := it.(lag := it.lag + carry);
        var after := Server.Step(cfg, cancelAt, t, kept);
        var others := Without(cfg, cancelAt, next, rest, IsPinFailure, 0);
        RepliesStep(cfg, cancelAt, t, kept, others);
        if Serves(cfg, cancelAt, s, it) {
          SameHead(LiveReply(cfg, s, it), ReplyAt(cfg, s, it), Replies(cfg, cancelAt, after, others),
                   Filter(NoPinFailure, later));
          ReplyIsLive(cfg, s, it);
        }
        if Serves(cfg, cancelAt, s, it) ==> LiveReply(cfg, s, it) == ReplyAt(cfg, s, it) {
          KeptStep(cfg, cancelAt, s, t, it, carry);
          WrongPinsMissNobody(cfg, cancelAt, next, after, rest, 0);
        }
      }
    }
  }

  // -- token clients --

  /** The connection introduces itself in PIN mode. */
  predicate InPinMode(cfg: SessionConfig, env: ConnEnv, now: nat) {
    var start := now + env.startLag;
    var (intro, _) := ReadFrame(Peer(env.arrivals, start), PhaseDeadline(cfg, start, PREAUTH_TIMEOUT));
    intro.Ok? &&
    var greeting := OnIntro(cfg, cfg.lib.wire(intro.value));
    greeting.Greeted? && greeting.mode == "pin"
  }

  lemma OnlyPinModeChecksPins(cfg: SessionConfig, retired: bool, env: ConnEnv, now: nat, disk: Disk)
    requires !InPinMode(cfg, env, now)
    ensures NoPinChecked(Exchange(cfg, retired, env, now, disk).log)
  {
    hide ReadFrame;
    hide OnIntro;
    hide AfterIntro;
    var start := now + env.startLag;
    var preauth := PhaseDeadline(cfg, start, PREAUTH_TIMEOUT);
    var (intro, p1) := ReadFrame(Peer(env.arrivals, start), preauth);
    if intro.Ok? && OnIntro(cfg, cfg.lib.wire(intro.value)).Greeted? {
      var g := OnIntro(cfg, cfg.lib.wire(intro.value));
      var log := [ClockRead(start), Heard(Intro, start, p1.now)];
      OtherModesCheckNoPins(cfg, retired, g.epub, g.mode, g.chan, env, p1, preauth, disk);
      PinsInTail(log, AfterIntro(cfg, retired, g.epub, g.mode, g.chan, env, p1, preauth, disk).log);
    }
  }

  lemma OtherModesCheckNoPins(cfg: SessionConfig, retired: bool, epub: seq<byte>, mode: string, chan: ChannelState,
                              env: ConnEnv, p1: Peer, preauth: nat, disk: Disk)
    requires mode != "pin"
    ensures NoPinChecked(AfterIntro(cfg, retired, epub, mode, chan, env, p1, preauth, disk).log)
  {
    hide ReadFrame;
    hide OnHello;
    hide AfterHello;
    var (hello, p2) := ReadFrame(p1, preauth);
    if hello.Ok? {
      var frame := cfg.lib.wire(hello.value);
      var heard := [Heard(Hello, p1.now, p2.now)];
      var reply := OnHello(cfg, retired, epub, mode, chan, frame, env, p2.now);
      OtherModesHello(cfg, retired, epub, mode, chan, frame, env, p2.now);
      PinsInTail(heard, reply.log);
      if reply.phase.Offered? {
        var p := Peer(p2.pending, reply.now);
        AfterHelloFacts(cfg, reply.phase.chan, reply.phase.deadline, env, p, disk);
        hide Truthful;
        hide Guarded;
        hide WrongPins;
        PinsInHead(heard + reply.log, AfterHello(cfg, reply.phase.chan, reply.phase.deadline, env, p, disk).log);
      }
    }
  }

  lemma OtherModesHello(cfg: SessionConfig, retired: bool, epub: seq<byte>, mode: string, chan: ChannelState,
                        frame: Wire, env: ConnEnv, now: nat)
    requires mode != "pin"
    ensures NoPinChecked(OnHello(cfg, retired, epub, mode, chan, frame, env, now).log)
  {
    hide OpenHello;
    hide OfferValue;
    hide SealS2C;
  }

  /** Every connection served after retirement introduces itself in another mode than PIN. */
  ghost predicate OnlyTokensLater(cfg: SessionConfig, cancelAt: Option<nat>, s: Session, its: seq<Iteration>)
    decreases |its|
  {
    s.outcome.None? && its != [] ==>
      && (Serves(cfg, cancelAt, s, its[0]) && s.pinRetired ==> !InPinMode(cfg, its[0].accept.env, s.now + its[0].lag))
      && OnlyTokensLater(cfg, cancelAt, Server.Step(cfg, cancelAt, s, its[0]), its[1..])
  }

  lemma {:induction false} TokensMissNothing(cfg: SessionConfig, cancelAt: Option<nat>, s: Session, its: seq<Iteration>)
    requires OnlyTokensLater(cfg, cancelAt, s, its)
    ensures Unmissed(cfg, cancelAt, s, its)
    decreases |its|
  {
    hide Exchange;
    hide Server.Step;
    hide Serves;
    hide InPinMode;
    hide NoPinChecked;
    if s.outcome.None? && its != [] {
      if Serves(cfg, cancelAt, s, its[0]) && s.pinRetired {
        ServedConnects(cfg, cancelAt, s, its[0]);
        OnlyPinModeChecksPins(cfg, false, its[0].accept.env, s.now + its[0].lag, s.disk);
      }
      TokensMissNothing(cfg, cancelAt, Server.Step(cfg, cancelAt, s, its[0]), its[1..]);
    }
  }

  /** Wrong PINs never touch a token client: when only such clients come after the PIN is retired, every
      reply of the run, its outcome and its file are those of the run without the wrong PINs. */
  lemma TokenClientsAreUnaffected(cfg: SessionConfig, cancelAt: Option<nat>, now: nat, disk: Disk, its: seq<Iteration>)
    requires OnlyTokensLater(cfg, cancelAt, Start(now, disk), its)
    ensures var s := Start(now, disk);
            var without := Without(cfg, cancelAt, s, its, IsPinFailure, 0);
            var a, b := RunFrom(cfg, cancelAt, s, its), RunFrom(cfg, cancelAt, s, without);
            && Replies(cfg, cancelAt, s, without) == Filter(NoPinFailure, Replies(cfg, cancelAt, s, its))
            && a.outcome == b.outcome && a.disk == b.disk
  {
    TokensMissNothing(cfg, cancelAt, Start(now, disk), its);
    hide OnlyTokensLater;
    hide Unmissed;
    hide Replies;
    hide RunFrom;
    WrongPinsMissNobody(cfg, cancelAt, Start(now, disk), Start(now, disk), its, 0);
  }

  // -- PIN clients --

  /** The session with its PIN as if never guessed. */
  function Unspent(s: Session): Session {
    s.(pinFailures := 0, pinRetired := false, events := [])
  }

  /** Once the PIN is spent, a client that would have bound by PIN is turned away, the session goes on
      and the file is untouched; with the PIN unspent the session ends with that client bound. */
  lemma SpentPinTurnsAway(cfg: SessionConfig, cancelAt: Option<nat>, s: Session, it: Iteration)
    requires s.outcome.None? && s.pinRetired && Serves(cfg, cancelAt, s, it)
    requires ResultOf(LiveReply(cfg, s, it)).Enrolled? && !NoPinChecked(LiveReply(cfg, s, it).log)
    ensures var turned := Server.Step(cfg, cancelAt, s, it);
            var bound := Server.Step(cfg, cancelAt, Unspent(s), it);
            && turned.outcome.None? && turned.disk == s.disk
            && PinRefused(s.disk, ReplyAt(cfg, s, it))
            && bound.outcome.Some? && bound.outcome.value.Bound?
            && bound.outcome.value.device == ResultOf(LiveReply(cfg, s, it)).device
  {
    hide Exchange;
    hide Bodies;
    hide DoneErr;
    hide NoPinChecked;
    RetirementOnlyStopsPins(cfg, it.accept.env, s.now + it.lag, s.disk);
    ServedStep(cfg, cancelAt, s, it);
    SameServed(cfg, cancelAt, s, Unspent(s), it, 0);
    assert it.(lag := it.lag + 0) == it;
    ServedStep(cfg, cancelAt, Unspent(s), it);
    hide Server.Step;
  }

  // -- three wrong PINs decide who is bound --

  function Guesser(): Person {
    Person(1, "pin", [8], "a", "a", KnownKey("AAAA"))
  }

  function PinOwner(): Person {
    Person(2, "pin", PinProof(), "b", "b", KnownKey("BBBB"))
  }

  function TokenOwner(): Person {
    Person(3, "token", Token16(), "c", "c", KnownKey("CCCC"))
  }

  function Everyone(): seq<Person> {
    [Guesser(), PinOwner(), TokenOwner()]
  }

  function Connects(p: Person): Iteration {
    Iteration(0, Connection(p.Meets()))
  }

  function Guesses(): seq<Iteration> {
    [Connects(Guesser()), Connects(Guesser()), Connects(Guesser())]
  }

  function Owners(): seq<Iteration> {
    [Connects(PinOwner()), Connects(TokenOwner())]
  }

  lemma KnownKeyIsTaken(p: Person, material: string)
    requires Token(material) && Token(p.ask) && p.key == KnownKey(material)
    ensures Takes(p)
  {
    hide Fields;
    hide Token;
    hide Contains;
    KnownType(KNOWN_TYPE);
    KnownKeyFields(material);
  }

  lemma CastOfEveryone()
    ensures Cast(Everyone(), Guesser()) && Cast(Everyone(), PinOwner()) && Cast(Everyone(), TokenOwner())
  {
    var all := Everyone();
    assert all[1..] == [PinOwner(), TokenOwner()] && all[1..][1..] == [TokenOwner()];
    hide Everyone;
    hide KnownKey;
  }

  lemma OwnersAreTaken()
    ensures Takes(PinOwner()) && Takes(TokenOwner())
  {
    hide Takes;
    assert Token("BBBB") && Token("CCCC");
    KnownKeyIsTaken(PinOwner(), "BBBB");
    KnownKeyIsTaken(TokenOwner(), "CCCC");
  }

  lemma ShortNamesStay(name: string)
    requires |name| == 1 && IsPrintable(name[0])
    ensures DeviceName(name) == name
  {
    FilterStep(IsPrintable, name[0], "");
    assert name == [name[0]] + "";
  }

  function Party(): SessionConfig {
    Configured(Everyone())
  }

  /** A live session at its first instant, the file not there yet. */
  ghost predicate AtStart(s: Session) {
    s.now == 0 && s.disk == Missing && s.outcome.None?
  }

  lemma EveryoneIsServed(s: Session, p: Person)
    requires AtStart(s)
    ensures Serves(Party(), None, s, Connects(p))
    ensures ReplyAt(Party(), s, Connects(p)) == Exchange(Party(), s.pinRetired, p.Meets(), 0, Missing)
  {
    hide Exchange;
    hide Everyone;
  }

  lemma ProofsOfEveryone(retired: bool)
    ensures !Proves(Party(), retired, Guesser().Epub(), "pin", Guesser().proof)
    ensures Proves(Party(), retired, PinOwner().Epub(), "pin", PinOwner().proof) <==> !retired
    ensures Proves(Party(), retired, TokenOwner().Epub(), "token", TokenOwner().proof)
  {
    hide Everyone;
    hide KnownKey;
  }

  /** A person refused in PIN mode leaves the session at its first instant. */
  lemma RefusedAtStart(s: Session, p: Person)
    requires AtStart(s) && Cast(Everyone(), p) && p.mode == "pin"
    requires !Proves(Party(), s.pinRetired, p.Epub(), p.mode, p.proof)
    ensures var t := Server.Step(Party(), None, s, Connects(p));
            && AtStart(t)
            && ResultOf(ReplyAt(Party(), s, Connects(p))) == (if s.pinRetired then Ignore else PinFailure)
            && t.pinFailures == (if s.pinRetired then s.pinFailures else s.pinFailures + 1)
            && t.pinRetired == (s.pinRetired || s.pinFailures + 1 >= MAX_PIN_ATTEMPTS)
  {
    hide Exchange;
    hide Server.Step;
    hide Everyone;
    hide Configured;
    hide Proves;
    hide Cast;
    EveryoneIsServed(s, p);
    hide Serves;
    IsRefused(Everyone(), p, s.pinRetired, Missing);
    ServedStep(Party(), None, s, Connects(p));
  }

  lemma BoundAtStart(s: Session, p: Person)
    requires AtStart(s) && Cast(Everyone(), p) && Takes(p)
    requires Proves(Party(), s.pinRetired, p.Epub(), p.mode, p.proof)
    ensures var t := Server.Step(Party(), None, s, Connects(p));
            && t.outcome.Some? && t.outcome.value.Bound? && t.outcome.value.device == p.Applies().request.device
            && ResultOf(ReplyAt(Party(), s, Connects(p))).Enrolled?
  {
    hide Exchange;
    hide Server.Step;
    hide Everyone;
    hide Configured;
    hide Proves;
    hide Cast;
    hide Takes;
    hide Honest;
    hide Prompt;
    hide DeviceName;
    hide Enrolments;
    EveryoneIsServed(s, p);
    IsPrompt(Everyone(), p);
    IsHonest(Everyone(), p, s.pinRetired);
    HonestClientIsEnrolled(Party(), s.pinRetired, p.Meets(), 0, Missing, p.Applies(), p.First(), p.Last());
    hide Serves;
    ServedStep(Party(), None, s, Connects(p));
  }

  /** The session after the three guesses. */
  lemma AfterGuesses() returns (s: Session)
    ensures AtStart(s) && s.pinRetired
    ensures forall rest {:trigger Guesses() + rest} ::
              && RunFrom(Party(), None, Start(0, Missing), Guesses() + rest) == RunFrom(Party(), None, s, rest)
              && Without(Party(), None, Start(0, Missing), Guesses() + rest, IsPinFailure, 0)
                   == Without(Party(), None, s, rest, IsPinFailure, 0)
  {
    hide Server.Step;
    hide Exchange;
    hide Serves;
    hide RunFrom;
    hide Without;
    hide Everyone;
    hide Configured;
    hide Proves;
    hide Cast;
    hide Unmissed;
    hide Replies;
    var g := Connects(Guesser());
    CastOfEveryone();
    ProofsOfEveryone(false);
    var s0 := Start(0, Missing);
    var s1 := Server.Step(Party(), None, s0, g);
    RefusedAtStart(s0, Guesser());
    var s2 := Server.Step(Party(), None, s1, g);
    RefusedAtStart(s1, Guesser());
    s := Server.Step(Party(), None, s2, g);
    RefusedAtStart(s2, Guesser());
    EveryoneIsServed(s0, Guesser());
    EveryoneIsServed(s1, Guesser());
    EveryoneIsServed(s2, Guesser());
    forall rest
      ensures && RunFrom(Party(), None, s0, Guesses() + rest) == RunFrom(Party(), None, s, rest)
              && Without(Party(), None, s0, Guesses() + rest, IsPinFailure, 0)
                   == Without(Party(), None, s, rest, IsPinFailure, 0)
    {
      assert Guesses() + rest == [g] + ([g] + ([g] + rest));
      RepliesStep(Party(), None, s0, g, [g] + ([g] + rest));
      RepliesStep(Party(), None, s1, g, [g] + rest);
      RepliesStep(Party(), None, s2, g, rest);
      DeletionStep(Party(), None, s0, g, [g] + ([g] + rest), 0);
      DeletionStep(Party(), None, s1, g, [g] + rest, 0);
      DeletionStep(Party(), None, s2, g, rest, 0);
    }
  }

  /** Three wrong PINs, then the owner of the PIN, then the owner of the token: the token's owner is
      bound. Without the wrong PINs it is the PIN's owner who is. */
  lemma WrongPinsDecideWhoIsBound()
    ensures var its := Guesses() + Owners();
            var start := Start(0, Missing);
            var without := Without(Party(), None, start, its, IsPinFailure, 0);
            var a, b := RunFrom(Party(), None, start, its), RunFrom(Party(), None, start, without);
            && without == Owners()
            && a.outcome.Some? && a.outcome.value.Bound? && a.outcome.value.device == "c"
            && b.outcome.Some? && b.outcome.value.Bound? && b.outcome.value.device == "b"
  {
    hide Server.Step;
    hide Exchange;
    hide Serves;
    hide RunFrom;
    hide Without;
    hide Everyone;
    hide Configured;
    hide Proves;
    hide Cast;
    hide Takes;
    hide Unmissed;
    hide Replies;
    hide DeviceName;
    hide KnownKey;
    var p, c := Connects(PinOwner()), Connects(TokenOwner());
    CastOfEveryone();
    OwnersAreTaken();
    ProofsOfEveryone(false);
    ProofsOfEveryone(true);
    ShortNamesStay("b");
    ShortNamesStay("c");
    var start := Start(0, Missing);
    var s := AfterGuesses();
    assert Owners() == [p] + ([c] + []);
    var s4 := Server.Step(Party(), None, s, p);
    RefusedAtStart(s, PinOwner());
    var s5 := Server.Step(Party(), None, s4, c);
    BoundAtStart(s4, TokenOwner());
    RepliesStep(Party(), None, s, p, [c] + []);
    RepliesStep(Party(), None, s4, c, []);
    DeletionStep(Party(), None, s, p, [c] + [], 0);
    DeletionStep(Party(), None, s4, c, [], 0);
    var b1 := Server.Step(Party(), None, start, p);
    BoundAtStart(start, PinOwner());
    RepliesStep(Party(), None, start, p, [c] + []);
    EndsHere(s5, []);
    EndsHere(b1, [c] + []);
  }

  lemma EndsHere(s: Session, rest: seq<Iteration>)
    requires s.outcome.Some?
    ensures RunFrom(Party(), None, s, rest) == s
    ensures Without(Party(), None, s, rest, IsPinFailure, 0) == rest
  {
  }
}
