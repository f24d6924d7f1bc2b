/** The operator's answer: nothing is written without a yes to the very device reported, a no is
    reported as such and writes nothing, and nothing else is reported as a no. */
module Consent {
  import opened Wrappers
  import opened Bytes
  import opened Seqs
  import opened Text
  import opened AuthKeys
  import opened Frame
  import opened Stream
  import opened Server
  import opened Conversation
  import opened PeerLimits
  import opened SessionSafety

  // -- what HELLO is answered with --

  /** The proofs that do not count, one by one: a wrong token is not even answered, a wrong PIN is counted
      and told, a retired one only told, and a mode nobody knows is left alone. */
  lemma HelloVerdicts(cfg: SessionConfig, retired: bool, epub: seq<byte>, mode: string, chan: ChannelState, frame: Wire,
                      env: ConnEnv, now: nat)
    requires OpenHello(chan, frame).Ok?
    ensures var r := OnHello(cfg, retired, epub, mode, chan, frame, env, now);
            var proof := OpenHello(chan, frame).value.0;
            if mode == "token" then
              if proof == cfg.token then Bodies(r.log) == [OfferValue(cfg.offer)]
              else r.phase == Closed(Ok(Ignore)) && Bodies(r.log) == []
            else if mode == "pin" then
              if retired then r.phase == Closed(Ok(Ignore)) && Bodies(r.log) == [DoneErr("pin retired for this offer")]
              else if proof == cfg.lib.pinProof(cfg.pin, epub, cfg.spub) then Bodies(r.log) == [OfferValue(cfg.offer)]
              else r.phase == Closed(Ok(PinFailure)) && Bodies(r.log) == [DoneErr("wrong pin")]
            else r.phase == Closed(Ok(Ignore)) && Bodies(r.log) == []
  {
    hide OpenHello;
    hide OfferValue;
    hide DoneErr;
    hide SealS2C;
    hide PhaseDeadline;
    hide Bodies;
    var r := OnHello(cfg, retired, epub, mode, chan, frame, env, now);
    var (proof, ch) := OpenHello(chan, frame).value;
    SilentLog([]);
    SilentLog([TokenChecked(false)]);
    if mode == "pin" {
      var told := SealDone(ch, DoneErr("wrong pin"), env.doneWrite.ok);
      WrongPinFacts(told);
      SealedOnly(SealDone(ch, DoneErr("pin retired for this offer"), env.doneWrite.ok));
    }
    if Proves(cfg, retired, epub, mode, proof) {
      var check := if mode == "token" then TokenChecked(true) else PinChecked(true);
      OfferFacts(cfg, retired, ch, env, now, check);
      OfferKind(cfg, chan, env, now);
      assert r == SendOffer(cfg, ch, env, now, check);
      hide SendOffer;
    }
  }

  // -- what ENROLL is answered with --

  /** Refused for that reason, and the file left alone. */
  ghost predicate RefusedFor(r: EnrollReply, before: Disk, result: ConnectionResult, reason: string) {
    && ResultOf(r) == result && r.disk == before
    && Bodies(r.log) == [DoneErr(reason)] && Enrolments(r.log) == []
  }

  /** The checks in their order: key, algorithm, deadline, operator, deadline again, and the file. */
  lemma EnrollVerdicts(cfg: SessionConfig, chan: ChannelState, frame: Wire, env: ConnEnv, now: nat, disk: Disk)
    requires OpenEnroll(chan, frame).Ok?
    ensures var r := OnEnroll(cfg, chan, frame, env, now, disk);
            var key := cfg.lib.key(Trim(OpenEnroll(chan, frame).value.0.pubkey));
            var asked, answered := now + env.checkLag, now + env.checkLag + env.answerTime;
            if key.None? then RefusedFor(r, disk, Ignore, "unparseable public key")
            else if !Contains(key.value.algorithm, "ed25519") then
              RefusedFor(r, disk, Ignore, "only ed25519 keys are accepted")
            else if asked >= cfg.deadline then RefusedFor(r, disk, Ignore, "offer expired")
            else if !env.answer then RefusedFor(r, disk, Declined, "declined on the host")
            else if answered >= cfg.deadline then RefusedFor(r, disk, Ignore, "offer expired")
            else ResultOf(r).Enrolled? || ResultOf(r).Ignore?
  {
    hide OpenEnroll;
    hide Contains;
    hide Trim;
    hide Store;
    hide DoneErr;
    hide SealS2C;
    hide Refuse;
    hide RefusedFor;
    var (request, ch) := OpenEnroll(chan, frame).value;
    var t1 := now + env.checkLag;
    var t2 := t1 + env.answerTime;
    var log := [ClockRead(t1), Asked(request.device, env.answer)];
    RefusalIsFor(ch, "unparseable public key", Ignore, env, now, disk, []);
    RefusalIsFor(ch, "only ed25519 keys are accepted", Ignore, env, now, disk, []);
    RefusalIsFor(ch, "offer expired", Ignore, env, t1, disk, [ClockRead(t1)]);
    RefusalIsFor(ch, "declined on the host", Declined, env, t2, disk, log);
    RefusalIsFor(ch, "offer expired", Ignore, env, t2, disk, log + [ClockRead(t2)]);
    var key := cfg.lib.key(Trim(request.pubkey));
    if key.Some? {
      StoreReports(cfg, ch, key.value.canonical, request.device, env, t2, disk);
    }
  }

  lemma RefusalIsFor(ch: ChannelState, reason: string, result: ConnectionResult, env: ConnEnv, now: nat, disk: Disk,
                     log: seq<Effect>)
    requires forall i :: 0 <= i < |log| ==> Silent(log[i])
    ensures RefusedFor(Refuse(ch, reason, result, env, now, disk, log), disk, result, reason)
  {
    hide DoneErr;
    hide SealS2C;
    var done := SealDone(ch, DoneErr(reason), env.doneWrite.ok);
    SilentPrefix(log, [done]);
    SealedOnly(done);
    hide Bodies;
    hide Enrolments;
    hide WrongPins;
  }

  /** A write is reported as an enrolment of that device or not at all, never as a no. */
  lemma StoreReports(cfg: SessionConfig, ch: ChannelState, canonical: Option<string>, device: string, env: ConnEnv,
                     now: nat, disk: Disk)
    ensures var r := Store(cfg, ch, canonical, device, env, now, disk);
            && (ResultOf(r).Enrolled? || ResultOf(r).Ignore?)
            && (ResultOf(r).Enrolled? ==> ResultOf(r).device == device && r.log != [] && r.log[0].Stored?)
            && (r.log == [] || (|r.log| == 2 && r.log[0].Stored? && r.log[1].Sealed?))
  {
    hide Fields;
    hide EnsureDisk;
    hide BindComment;
    hide SealS2C;
    hide DoneOk;
    hide DoneErr;
    hide StoreError;
  }

  // -- consent --

  predicate IsNo(e: Effect) {
    e.Asked? && !e.answer
  }

  ghost predicate SaidNo(log: seq<Effect>) {
    exists i :: 0 <= i < |log| && IsNo(log[i])
  }

  /** Two steps before any write the operator said yes. */
  ghost predicate SaidYesBefore(log: seq<Effect>, i: nat)
    requires i < |log|
  {
    log[i].Stored? ==> i >= 2 && log[i - 2].Asked? && log[i - 2].answer
  }

  ghost predicate Consented(log: seq<Effect>) {
    forall i :: 0 <= i < |log| ==> SaidYesBefore(log, i)
  }

  ghost predicate NothingStoredIn(log: seq<Effect>) {
    forall i :: 0 <= i < |log| ==> !log[i].Stored?
  }

  /** The device of every question is the one of that name. */
  ghost predicate AskedOnly(log: seq<Effect>, answer: bool) {
    forall i :: 0 <= i < |log| && log[i].Asked? ==> log[i].answer == answer
  }

  ghost predicate AskedAbout(log: seq<Effect>, device: string) {
    && (exists i :: 0 <= i < |log| && log[i].Asked?)
    && forall i :: 0 <= i < |log| && log[i].Asked? ==> log[i].device == device
  }

  /** The log and the result of one connection against the operator's answer. */
  ghost predicate Obeyed(r: EnrollReply, answer: bool) {
    && AskedOnly(r.log, answer) && Consented(r.log)
    && (ResultOf(r).Declined? <==> SaidNo(r.log))
    && (SaidNo(r.log) ==> NothingStoredIn(r.log))
    && (ResultOf(r).Enrolled? ==> AskedAbout(r.log, ResultOf(r).device))
  }

  /** A step that neither asks nor writes. */
  predicate Bystander(e: Effect) {
    !e.Asked? && !e.Stored?
  }

  lemma BystandersObey(r: EnrollReply, answer: bool)
    requires forall i :: 0 <= i < |r.log| ==> Bystander(r.log[i])
    requires !ResultOf(r).Declined? && !ResultOf(r).Enrolled?
    ensures Obeyed(r, answer)
  {
  }

  lemma ObeyedAfter(log: seq<Effect>, r: EnrollReply, answer: bool)
    requires Obeyed(r, answer) && forall i :: 0 <= i < |log| ==> Bystander(log[i])
    ensures Obeyed(After(log, r), answer)
  {
    var all := log + r.log;
    assert forall i :: 0 <= i < |all| ==> all[i] == if i < |log| then log[i] else r.log[i - |log|];
    if SaidNo(r.log) {
      var i :| 0 <= i < |r.log| && IsNo(r.log[i]);
      assert IsNo(all[|log| + i]);
    }
    if SaidNo(all) {
      var i :| 0 <= i < |all| && IsNo(all[i]);
      assert IsNo(r.log[i - |log|]);
    }
    forall i | 0 <= i < |all|
      ensures SaidYesBefore(all, i)
    {
      if i >= |log| {
        assert SaidYesBefore(r.log, i - |log|);
      }
    }
    if ResultOf(r).Enrolled? {
      var i :| 0 <= i < |r.log| && r.log[i].Asked?;
      assert all[|log| + i].Asked?;
    }
  }

  lemma EnrollObeys(cfg: SessionConfig, chan: ChannelState, frame: Wire, env: ConnEnv, now: nat, disk: Disk)
    ensures Obeyed(OnEnroll(cfg, chan, frame, env, now, disk), env.answer)
  {
    hide OpenEnroll;
    hide Contains;
    hide Trim;
    hide DoneErr;
    hide SealS2C;
    hide Confirm;
    hide Obeyed;
    match OpenEnroll(chan, frame)
    case Err(e) => BystandersObey(EnrollReply(Err(e), now, disk, []), env.answer);
    case Ok((request, ch)) =>
      RefusalObeys(ch, "unparseable public key", env, now, disk, [], env.answer);
      RefusalObeys(ch, "only ed25519 keys are accepted", env, now, disk, [], env.answer);
      hide Refuse;
      var key := cfg.lib.key(Trim(request.pubkey));
      if key.Some? {
        ConfirmObeys(cfg, ch, key.value.canonical, request.device, env, now, disk);
      }
  }

  lemma RefusalObeys(ch: ChannelState, reason: string, env: ConnEnv, now: nat, disk: Disk, log: seq<Effect>,
                     answer: bool)
    requires forall i :: 0 <= i < |log| ==> Bystander(log[i])
    ensures Obeyed(Refuse(ch, reason, Ignore, env, now, disk, log), answer)
  {
    hide DoneErr;
    hide SealS2C;
    BystandersObey(Refuse(ch, reason, Ignore, env, now, disk, log), answer);
  }

  lemma ConfirmObeys(cfg: SessionConfig, ch: ChannelState, canonical: Option<string>, device: string, env: ConnEnv,
                     now: nat, disk: Disk)
    ensures Obeyed(Confirm(cfg, ch, canonical, device, env, now, disk), env.answer)
  {
    hide Store;
    hide DoneErr;
    hide SealS2C;
    hide Obeyed;
    var t1 := now + env.checkLag;
    var t2 := t1 + env.answerTime;
    var question := Asked(device, env.answer);
    RefusalObeys(ch, "offer expired", env, t1, disk, [ClockRead(t1)], env.answer);
    if t1 < cfg.deadline {
      var r := Confirm(cfg, ch, canonical, device, env, now, disk);
      StoreReports(cfg, ch, canonical, device, env, t2, disk);
      assert |r.log| >= 3 && r.log[0] == ClockRead(t1) && r.log[1] == question;
      assert !env.answer ==> |r.log| == 3 && r.log[2].Sealed? && ResultOf(r) == Declined;
      assert env.answer ==> r.log[2] == ClockRead(t2);
      hide Confirm;
      hide Refuse;
      AskedObeys(r, device, env.answer);
    }
  }

  /** A log that asks once, right at its start, and writes after that only on a yes. */
  lemma AskedObeys(r: EnrollReply, device: string, answer: bool)
    requires |r.log| >= 3 && !r.log[0].Asked? && !r.log[0].Stored? && r.log[1] == Asked(device, answer)
    requires !r.log[2].Asked? && !r.log[2].Stored?
    requires forall i :: 3 <= i < |r.log| ==> !r.log[i].Asked? && (r.log[i].Stored? ==> answer && i == 3)
    requires ResultOf(r).Declined? <==> !answer
    requires ResultOf(r).Enrolled? ==> answer && ResultOf(r).device == device
    requires !answer ==> |r.log| == 3
    ensures Obeyed(r, answer)
  {
    assert IsNo(r.log[1]) <==> !answer;
  }

  // -- one connection --

  lemma AfterHelloObeys(cfg: SessionConfig, ch: ChannelState, postauth: nat, env: ConnEnv, p: Peer, disk: Disk)
    ensures var r := AfterHello(cfg, ch, postauth, env, p, disk);
            && Obeyed(r, env.answer)
            && (ResultOf(r).Declined? ==> Bodies(r.log) == [DoneErr("declined on the host")])
  {
    hide ReadFrame;
    hide OnEnroll;
    hide Obeyed;
    hide Bodies;
    hide DoneErr;
    hide Enrolments;
    hide WrongPins;
    var (enroll, p3) := ReadFrame(p, postauth);
    var heard := [Heard(Enroll, p.now, p3.now)];
    match enroll
    case Err(e) => BystandersObey(EnrollReply(Err(e), p3.now, disk, heard), env.answer);
    case Ok(bytes) =>
      var wire := cfg.lib.wire(bytes);
      EnrollObeys(cfg, ch, wire, env, p3.now, disk);
      ObeyedAfter(heard, OnEnroll(cfg, ch, wire, env, p3.now, disk), env.answer);
      SilentPrefix(heard, OnEnroll(cfg, ch, wire, env, p3.now, disk).log);
      UnopenedIsNoNo(cfg, ch, wire, env, p3.now, disk);
      if OpenEnroll(ch, wire).Ok? {
        EnrollVerdicts(cfg, ch, wire, env, p3.now, disk);
      }
      hide OpenEnroll;
      hide Contains;
      hide Trim;
  }

  lemma UnopenedIsNoNo(cfg: SessionConfig, ch: ChannelState, wire: Wire, env: ConnEnv, now: nat, disk: Disk)
    ensures OpenEnroll(ch, wire).Err? ==> ResultOf(OnEnroll(cfg, ch, wire, env, now, disk)) == Ignore
  {
  }

  lemma HelloStandsBy(cfg: SessionConfig, retired: bool, epub: seq<byte>, mode: string, chan: ChannelState, frame: Wire,
                      env: ConnEnv, now: nat)
    ensures var r := OnHello(cfg, retired, epub, mode, chan, frame, env, now);
            && (forall i :: 0 <= i < |r.log| ==> Bystander(r.log[i]))
            && (r.phase.Closed? && r.phase.result.Ok? ==>
                  r.phase.result.value.Ignore? || r.phase.result.value.PinFailure?)
            && (r.phase.Offered? ==> Bodies(r.log) == [OfferValue(cfg.offer)])
  {
    hide OnHello;
    hide Bodies;
    hide Enrolments;
    hide WrongPins;
    hide OfferValue;
    HelloFacts(cfg, retired, epub, mode, chan, frame, env, now);
  }

  lemma AfterIntroObeys(cfg: SessionConfig, retired: bool, epub: seq<byte>, mode: string, chan: ChannelState,
                        env: ConnEnv, p1: Peer, preauth: nat, disk: Disk)
    ensures var r := AfterIntro(cfg, retired, epub, mode, chan, env, p1, preauth, disk);
            && Obeyed(r, env.answer)
            && (ResultOf(r).Declined? ==> Bodies(r.log) == [OfferValue(cfg.offer), DoneErr("declined on the host")])
  {
    hide ReadFrame;
    hide OnHello;
    hide AfterHello;
    hide Obeyed;
    hide Bodies;
    hide Enrolments;
    hide WrongPins;
    hide DoneErr;
    hide OfferValue;
    var (hello, p2) := ReadFrame(p1, preauth);
    var heard := [Heard(Hello, p1.now, p2.now)];
    match hello
    case Err(e) => BystandersObey(EnrollReply(Err(e), p2.now, disk, heard), env.answer);
    case Ok(bytes) =>
      var wire := cfg.lib.wire(bytes);
      var reply := OnHello(cfg, retired, epub, mode, chan, wire, env, p2.now);
      HelloStandsBy(cfg, retired, epub, mode, chan, wire, env, p2.now);
      match reply.phase {
        case Closed(result) =>
          BystandersObey(EnrollReply(result, reply.now, disk, heard + reply.log), env.answer);
        case Offered(ch, postauth) =>
          var last := AfterHello(cfg, ch, postauth, env, Peer(p2.pending, reply.now), disk);
          AfterHelloObeys(cfg, ch, postauth, env, Peer(p2.pending, reply.now), disk);
          ObeyedAfter(heard + reply.log, last, env.answer);
          SilentPrefix(heard, reply.log);
          LogAppend(heard + reply.log, last.log);
      }
  }

  /** Over every connection: each write comes two steps after a yes to the device it reports; the result
      is a refusal by the operator if and only if the operator said no, and then nothing is written, the
      file is as it was, and the client is told so. */
  lemma AnswerDecides(cfg: SessionConfig, retired: bool, env: ConnEnv, now: nat, disk: Disk)
    ensures var r := Exchange(cfg, retired, env, now, disk);
            && Obeyed(r, env.answer)
            && (ResultOf(r).Declined? ==>
                  && r.disk == disk
                  && Bodies(r.log) == [OfferValue(cfg.offer), DoneErr("declined on the host")])
  {
    ConnectionFacts(cfg, retired, env, now, disk);
    ExchangeObeys(cfg, retired, env, now, disk);
    hide Exchange;
    hide Obeyed;
    hide Guarded;
    hide Bodies;
    hide Enrolments;
    hide WrongPins;
    hide OfferAfterProof;
    hide OfferValue;
    hide DoneErr;
  }

  lemma ExchangeObeys(cfg: SessionConfig, retired: bool, env: ConnEnv, now: nat, disk: Disk)
    ensures var r := Exchange(cfg, retired, env, now, disk);
            && Obeyed(r, env.answer)
            && (ResultOf(r).Declined? ==> Bodies(r.log) == [OfferValue(cfg.offer), DoneErr("declined on the host")])
  {
    hide ReadFrame;
    hide OnIntro;
    hide AfterIntro;
    hide Obeyed;
    hide Bodies;
    hide Enrolments;
    hide WrongPins;
    hide DoneErr;
    hide OfferValue;
    var start := now + env.startLag;
    var preauth := PhaseDeadline(cfg, start, PREAUTH_TIMEOUT);
    var (intro, p1) := ReadFrame(Peer(env.arrivals, start), preauth);
    var log := [ClockRead(start), Heard(Intro, start, p1.now)];
    match intro
    case Err(e) => BystandersObey(EnrollReply(Err(e), p1.now, disk, log), env.answer);
    case Ok(bytes) =>
      IntroResults(cfg, cfg.lib.wire(bytes));
      match OnIntro(cfg, cfg.lib.wire(bytes)) {
        case Rejected(r) => BystandersObey(EnrollReply(r, p1.now, disk, log), env.answer);
        case Greeted(epub, mode, chan) =>
          var rest := AfterIntro(cfg, retired, epub, mode, chan, env, p1, preauth, disk);
          AfterIntroObeys(cfg, retired, epub, mode, chan, env, p1, preauth, disk);
          ObeyedAfter(log, rest, env.answer);
          SilentPrefix(log, rest.log);
      }
  }

  // -- every run --

  /** The session against the answers in its log. */
  ghost predicate Heeded(s: Session) {
    && Consented(s.log)
    && (s.outcome == Some(DeclinedByHost) <==> SaidNo(s.log))
    && (!(s.outcome.Some? && s.outcome.value.Bound?) ==> NothingEnrolledIn(s.log))
    && (s.outcome.Some? && s.outcome.value.Bound? ==> AnsweredYes(s.log, s.outcome.value.device))
  }

  /** No write of the log succeeded. */
  ghost predicate NothingEnrolledIn(log: seq<Effect>) {
    forall i :: 0 <= i < |log| && log[i].Stored? ==> log[i].outcome.Err?
  }

  /** The yes before the one successful write of the log was for that device. */
  ghost predicate AnsweredYes(log: seq<Effect>, device: string) {
    && (exists i :: 0 <= i < |log| && log[i].Stored? && log[i].outcome.Ok?)
    && forall i :: 2 <= i < |log| && log[i].Stored? && log[i].outcome.Ok? ==> log[i - 2] == Asked(device, true)
  }

  lemma {:induction false} EnrolledInLog(log: seq<Effect>)
    ensures Enrolments(log) == [] <==> NothingEnrolledIn(log)
    decreases |log|
  {
    if log != [] {
      var rest := log[1..];
      EnrolledInLog(rest);
      assert log == [log[0]] + rest;
      PickedStep(EnrolmentOf, log[0], rest);
      hide Enrolments;
      if NothingEnrolledIn(log) {
        assert forall i :: 0 <= i < |rest| ==> rest[i] == log[i + 1];
      } else if log[0].Stored? ==> log[0].outcome.Err? {
        var i :| 0 <= i < |log| && log[i].Stored? && log[i].outcome.Ok?;
        assert rest[i - 1] == log[i];
      }
    }
  }

  lemma LogsJoin(head: seq<Effect>, log: seq<Effect>)
    requires Consented(head) && Consented(log)
    ensures Consented(head + log)
    ensures SaidNo(head + log) <==> SaidNo(head) || SaidNo(log)
    ensures NothingEnrolledIn(head + log) <==> NothingEnrolledIn(head) && NothingEnrolledIn(log)
  {
    var all := head + log;
    forall i | 0 <= i < |all|
      ensures SaidYesBefore(all, i)
    {
      if i < |head| {
        assert SaidYesBefore(head, i);
      } else {
        assert SaidYesBefore(log, i - |head|);
      }
    }
    assert forall i :: 0 <= i < |head| ==> all[i] == head[i];
    assert forall i :: 0 <= i < |log| ==> all[|head| + i] == log[i];
    if SaidNo(head) {
      var i :| 0 <= i < |head| && IsNo(head[i]);
      assert IsNo(all[i]);
    }
    if SaidNo(log) {
      var i :| 0 <= i < |log| && IsNo(log[i]);
      assert IsNo(all[|head| + i]);
    }
  }

  lemma YesInLog(head: seq<Effect>, r: EnrollReply, answer: bool)
    requires NothingEnrolledIn(head) && Obeyed(r, answer) && ResultOf(r).Enrolled? && !NothingEnrolledIn(r.log)
    ensures AnsweredYes(head + r.log, ResultOf(r).device)
  {
    var all := head + r.log;
    assert forall i :: 0 <= i < |all| ==> all[i] == if i < |head| then head[i] else r.log[i - |head|];
    var k :| 0 <= k < |r.log| && r.log[k].Stored? && r.log[k].outcome.Ok?;
    assert all[|head| + k] == r.log[k];
    forall i | 2 <= i < |all| && all[i].Stored? && all[i].outcome.Ok?
      ensures all[i - 2] == Asked(ResultOf(r).device, true)
    {
      assert SaidYesBefore(r.log, i - |head|);
    }
  }

  lemma ReplyHeeds(cfg: SessionConfig, s: Session, it: Iteration)
    requires it.accept.Connection?
    ensures var r := ReplyAt(cfg, s, it);
            && Obeyed(r, it.accept.env.answer)
            && (ResultOf(r).Enrolled? <==> !NothingEnrolledIn(r.log))
  {
    hide Exchange;
    hide Obeyed;
    hide Guarded;
    hide Bodies;
    hide Enrolments;
    hide WrongPins;
    hide OfferAfterProof;
    hide OfferValue;
    hide DoneErr;
    hide DoneOk;
    hide Wrote;
    AnswerDecides(cfg, s.pinRetired, it.accept.env, s.now + it.lag, s.disk);
    ConnectionFacts(cfg, s.pinRetired, it.accept.env, s.now + it.lag, s.disk);
    EnrolledInLog(ReplyAt(cfg, s, it).log);
  }

  lemma StepHeeds(cfg: SessionConfig, cancelAt: Option<nat>, s: Session, it: Iteration)
    requires Heeded(s) && s.outcome.None?
    ensures Heeded(Server.Step(cfg, cancelAt, s, it))
  {
    hide Exchange;
    hide Server.Step;
    hide Consented;
    var now := s.now + it.lag;
    var clock := [ClockRead(now)];
    QuietLog(clock);
    LogsJoin(s.log, clock);
    if Serves(cfg, cancelAt, s, it) {
      var r := ReplyAt(cfg, s, it);
      ServedStep(cfg, cancelAt, s, it);
      ReplyHeeds(cfg, s, it);
      QuietLog([Accepted(now)]);
      LogsJoin(s.log + clock, [Accepted(now)]);
      var head := s.log + clock + [Accepted(now)];
      LogsJoin(head, r.log);
      if ResultOf(r).Enrolled? {
        YesInLog(head, r, it.accept.env.answer);
      }
      hide SaidNo;
      hide NothingEnrolledIn;
      hide AnsweredYes;
    } else {
      UnservedStep(cfg, cancelAt, s, it);
      hide SaidNo;
      hide NothingEnrolledIn;
    }
  }

  lemma QuietLog(log: seq<Effect>)
    requires forall i :: 0 <= i < |log| ==> Bystander(log[i])
    ensures Consented(log) && !SaidNo(log) && NothingEnrolledIn(log)
  {
  }

  lemma {:induction false} RunHeeds(cfg: SessionConfig, cancelAt: Option<nat>, s: Session, its: seq<Iteration>)
    requires Heeded(s)
    ensures Heeded(RunFrom(cfg, cancelAt, s, its))
    decreases |its|
  {
    hide Exchange;
    hide Server.Step;
    if s.outcome.None? && its != [] {
      StepHeeds(cfg, cancelAt, s, its[0]);
      hide Heeded;
      RunHeeds(cfg, cancelAt, Server.Step(cfg, cancelAt, s, its[0]), its[1..]);
    }
  }

  /** Over every run: no write without a yes two steps before, and the one that binds was for the device
      bound; the session ends declined if and only if the operator said no, and then the file is as it
      was. */
  lemma OperatorHasTheLastWord(cfg: SessionConfig, cancelAt: Option<nat>, now: nat, disk: Disk, its: seq<Iteration>)
    ensures var s := RunFrom(cfg, cancelAt, Start(now, disk), its);
            && Consented(s.log)
            && (s.outcome == Some(DeclinedByHost) <==> SaidNo(s.log))
            && (SaidNo(s.log) ==> s.disk == disk && NothingEnrolledIn(s.log))
            && (s.outcome.Some? && s.outcome.value.Bound? ==> AnsweredYes(s.log, s.outcome.value.device))
  {
    QuietLog([]);
    RunHeeds(cfg, cancelAt, Start(now, disk), its);
    WholeRunAccounting(cfg, cancelAt, now, disk, its);
    hide RunFrom;
    hide Consented;
    hide SaidNo;
    hide NothingEnrolledIn;
    hide AnsweredYes;
  }

  // -- how a run ends --

  /** A session that ends on its own ends canceled if and only if a cancel is in at that instant, and
      expired only when the deadline has passed. */
  ghost predicate EndedFairly(cfg: SessionConfig, cancelAt: Option<nat>, s: Session) {
    var canceled := cancelAt.Some? && cancelAt.value <= s.now;
    && (s.outcome == Some(Canceled) ==> canceled)
    && (s.outcome == Some(Expired) ==> !canceled && s.now >= cfg.deadline)
  }

  lemma StepEndsFairly(cfg: SessionConfig, cancelAt: Option<nat>, s: Session, it: Iteration)
    requires s.outcome.None?
    ensures EndedFairly(cfg, cancelAt, Server.Step(cfg, cancelAt, s, it))
  {
    hide Exchange;
    hide ResultOf;
  }

  /** Why a session ended without anybody being bound or declined. */
  lemma {:induction false} RunEndsFairly(cfg: SessionConfig, cancelAt: Option<nat>, s: Session, its: seq<Iteration>)
    requires EndedFairly(cfg, cancelAt, s)
    ensures EndedFairly(cfg, cancelAt, RunFrom(cfg, cancelAt, s, its))
    decreases |its|
  {
    hide Exchange;
    hide Server.Step;
    hide EndedFairly;
    if s.outcome.None? && its != [] {
      StepEndsFairly(cfg, cancelAt, s, its[0]);
      RunEndsFairly(cfg, cancelAt, Server.Step(cfg, cancelAt, s, its[0]), its[1..]);
    }
  }
}
