/** What one connection can and cannot do, for every peer, clock, operator and fault. */
module Conversation {
  import opened Wrappers
  import opened Bytes
  import opened Seqs
  import opened Text
  import opened AuthKeys
  import opened Frame
  import opened Stream
  import opened Server

  // -- reading the log --

  function BodyOf(e: Effect): Option<Value> {
    if e.Sealed? then Some(e.body) else None
  }

  /** The frames the server sealed, in order. */
  function Bodies(log: seq<Effect>): seq<Value> {
    Picked(BodyOf, log)
  }

  predicate IsWrongPin(e: Effect) {
    e == PinChecked(false)
  }

  function WrongPins(log: seq<Effect>): nat {
    |Filter(IsWrongPin, log)|
  }

  /** A key that went into the file, or was found there. */
  datatype Enrolment = Enrolment(keyType: string, material: string, comment: string)

  function EnrolmentOf(e: Effect): Option<Enrolment> {
    if e.Stored? && e.outcome.Ok? then Some(Enrolment(e.keyType, e.material, e.comment)) else None
  }

  function Enrolments(log: seq<Effect>): seq<Enrolment> {
    Picked(EnrolmentOf, log)
  }

  /** Accepting, asking and storing each need the clock read just before, and below the deadline. */
  predicate NeedsClock(e: Effect) {
    e.Accepted? || e.Asked? || e.Stored?
  }

  ghost predicate Guarded(log: seq<Effect>, deadline: nat) {
    forall i :: 0 <= i < |log| && NeedsClock(log[i]) ==>
      i > 0 && log[i - 1].ClockRead? && log[i - 1].at < deadline
  }

  lemma GuardedAppend(a: seq<Effect>, b: seq<Effect>, deadline: nat)
    requires Guarded(a, deadline) && Guarded(b, deadline)
    ensures Guarded(a + b, deadline)
  {
    var log := a + b;
    forall i | 0 <= i < |log| && NeedsClock(log[i])
      ensures i > 0 && log[i - 1].ClockRead? && log[i - 1].at < deadline
    {
      if i >= |a| {
        assert log[i] == b[i - |a|] && NeedsClock(b[i - |a|]);
        assert log[i - 1] == b[i - |a| - 1];
      }
    }
  }

  lemma LogAppend(a: seq<Effect>, b: seq<Effect>)
    ensures Bodies(a + b) == Bodies(a) + Bodies(b)
    ensures Enrolments(a + b) == Enrolments(a) + Enrolments(b)
    ensures WrongPins(a + b) == WrongPins(a) + WrongPins(b)
  {
    PickedAppend(BodyOf, a, b);
    PickedAppend(EnrolmentOf, a, b);
    FilterAppend(IsWrongPin, a, b);
  }

  /** A step that seals nothing, stores nothing and compares no wrong PIN. */
  predicate Silent(e: Effect) {
    !e.Sealed? && !e.Stored? && !IsWrongPin(e)
  }

  lemma {:induction false} SilentLog(log: seq<Effect>)
    requires forall i :: 0 <= i < |log| ==> Silent(log[i])
    ensures Bodies(log) == [] && Enrolments(log) == [] && WrongPins(log) == 0
  {
    if log != [] {
      SilentLog(log[1..]);
    }
  }

  lemma SilentPrefix(log: seq<Effect>, rest: seq<Effect>)
    requires forall i :: 0 <= i < |log| ==> Silent(log[i])
    ensures Bodies(log + rest) == Bodies(rest)
    ensures Enrolments(log + rest) == Enrolments(rest)
    ensures WrongPins(log + rest) == WrongPins(rest)
  {
    SilentLog(log);
    LogAppend(log, rest);
    assert [] + Bodies(rest) == Bodies(rest);
    assert [] + Enrolments(rest) == Enrolments(rest);
  }

  lemma SealedOnly(e: Effect)
    requires e.Sealed?
    ensures Bodies([e]) == [e.body] && Enrolments([e]) == [] && WrongPins([e]) == 0
  {
    var none: seq<Effect> := [];
    assert [e] + none == [e];
    PickedStep(BodyOf, e, none);
    PickedStep(EnrolmentOf, e, none);
    FilterStep(IsWrongPin, e, none);
  }

  // -- ENROLL --

  ghost predicate IsDoneErr(body: Value) {
    exists m :: body == DoneErr(m)
  }

  ghost predicate AtMostRefused(bodies: seq<Value>) {
    bodies == [] || (|bodies| == 1 && IsDoneErr(bodies[0]))
  }

  /** One successful write turned `before` into `after`, and `comment` is what it reports. */
  ghost predicate Wrote(before: Disk, e: Enrolment, comment: string, after: Disk) {
    var (outcome, disk) := EnsureDisk(before, e.keyType, e.material, e.comment, false);
    && outcome.Ok? && disk == after
    && comment == if outcome.value.AlreadyPresent? then outcome.value.comment else e.comment
  }

  /** The result tells the truth about the file and about what was sealed. */
  ghost predicate Truthful(before: Disk, r: EnrollReply) {
    match ResultOf(r)
    case Enrolled(_, comment, _) =>
      && Bodies(r.log) == [DoneOk(comment)]
      && |Enrolments(r.log)| == 1
      && Wrote(before, Enrolments(r.log)[0], comment, r.disk)
    case _ => r.disk == before && Enrolments(r.log) == [] && AtMostRefused(Bodies(r.log))
  }

  /** What the enrolling part leaves to its log. */
  predicate EnrollKind(e: Effect) {
    e.ClockRead? || e.Asked? || e.Stored? || e.Sealed?
  }

  lemma RefuseFacts(ch: ChannelState, message: string, result: ConnectionResult, env: ConnEnv, now: nat, disk: Disk,
                    log: seq<Effect>)
    requires forall i :: 0 <= i < |log| ==> Silent(log[i])
    requires !result.Enrolled?
    ensures Truthful(disk, Refuse(ch, message, result, env, now, disk, log))
  {
    var done := SealDone(ch, DoneErr(message), env.doneWrite.ok);
    SilentPrefix(log, [done]);
    SealedOnly(done);
    hide DoneErr;
    hide SealS2C;
  }

  lemma FailedStore(e: Effect, done: Effect)
    requires e.Stored? && e.outcome.Err? && done.Sealed?
    ensures Bodies([e, done]) == [done.body] && Enrolments([e, done]) == []
  {
    assert [e, done] == [e] + [done];
    LogAppend([e], [done]);
    SealedOnly(done);
    assert Bodies([e]) == [] && Enrolments([e]) == [];
  }

  lemma GoodStore(e: Effect, done: Effect)
    requires e.Stored? && e.outcome.Ok? && done.Sealed?
    ensures Bodies([e, done]) == [done.body]
    ensures Enrolments([e, done]) == [Enrolment(e.keyType, e.material, e.comment)]
  {
    assert [e, done] == [e] + [done];
    LogAppend([e], [done]);
    SealedOnly(done);
    assert Bodies([e]) == [] && Enrolments([e]) == [Enrolment(e.keyType, e.material, e.comment)];
  }

  /** A fault-free write and a write that went through are the same write; a failed one changes nothing. */
  lemma EnsureFault(disk: Disk, keyType: string, material: string, comment: string, fault: bool)
    ensures var (r, after) := EnsureDisk(disk, keyType, material, comment, fault);
            && (r.Ok? ==> (r, after) == EnsureDisk(disk, keyType, material, comment, false))
            && (r.Err? ==> after == disk)
  {
    hide HolderOf;
    hide AppendLine;
    hide KeyText;
    hide Lines;
  }

  lemma StoreFacts(cfg: SessionConfig, ch: ChannelState, canonical: Option<string>, device: string, env: ConnEnv,
                   now: nat, disk: Disk)
    ensures var r := Store(cfg, ch, canonical, device, env, now, disk);
            && Truthful(disk, r)
            && (r.log == [] || (|r.log| == 2 && r.log[0].Stored? && r.log[1].Sealed?))
            && !(r.result.Ok? && r.result.value.PinFailure?)
  {
    var r := Store(cfg, ch, canonical, device, env, now, disk);
    hide Fields;
    hide BindComment;
    hide SealS2C;
    hide DoneOk;
    hide DoneErr;
    hide StoreError;
    if canonical.Some? && |Fields(canonical.value)| >= 2 {
      var k, m := Fields(canonical.value)[0], Fields(canonical.value)[1];
      EnsureFault(disk, k, m, BindComment(cfg, device), env.storeFault);
      hide EnsureDisk;
      assert r.log == [r.log[0], r.log[1]];
      if r.log[0].outcome.Ok? {
        GoodStore(r.log[0], r.log[1]);
      } else {
        FailedStore(r.log[0], r.log[1]);
        assert IsDoneErr(r.log[1].body);
      }
      hide Bodies;
      hide Enrolments;
    }
  }

  lemma ConfirmTruth(cfg: SessionConfig, ch: ChannelState, canonical: Option<string>, device: string, env: ConnEnv,
                     now: nat, disk: Disk)
    ensures Truthful(disk, Confirm(cfg, ch, canonical, device, env, now, disk))
  {
    hide Refuse;
    hide Store;
    hide Truthful;
    var t1 := now + env.checkLag;
    var t2 := t1 + env.answerTime;
    var asked := [ClockRead(t1), Asked(device, env.answer)];
    if t1 >= cfg.deadline {
      RefuseFacts(ch, "offer expired", Ignore, env, t1, disk, [ClockRead(t1)]);
    } else if !env.answer {
      RefuseFacts(ch, "declined on the host", Declined, env, t2, disk, asked);
    } else if t2 >= cfg.deadline {
      RefuseFacts(ch, "offer expired", Ignore, env, t2, disk, asked + [ClockRead(t2)]);
    } else {
      StoreFacts(cfg, ch, canonical, device, env, t2, disk);
      TruthAfter(disk, asked + [ClockRead(t2)], Store(cfg, ch, canonical, device, env, t2, disk));
    }
  }

  lemma TruthAfter(disk: Disk, log: seq<Effect>, r: EnrollReply)
    requires Truthful(disk, r) && forall i :: 0 <= i < |log| ==> Silent(log[i])
    ensures Truthful(disk, After(log, r))
  {
    SilentPrefix(log, r.log);
    hide Bodies;
    hide Enrolments;
    hide Wrote;
    hide AtMostRefused;
    hide DoneOk;
  }

  /** A log of the enrolling part, guarded by the clock. */
  ghost predicate EnrollLog(log: seq<Effect>, deadline: nat) {
    Guarded(log, deadline) && forall i :: 0 <= i < |log| ==> EnrollKind(log[i])
  }

  lemma EnrollLogSnoc(log: seq<Effect>, e: Effect, deadline: nat)
    requires EnrollLog(log, deadline) && EnrollKind(e)
    requires NeedsClock(e) ==> log != [] && log[|log| - 1].ClockRead? && log[|log| - 1].at < deadline
    ensures EnrollLog(log + [e], deadline)
  {
  }

  lemma RefuseLog(ch: ChannelState, message: string, result: ConnectionResult, env: ConnEnv, now: nat, disk: Disk,
                  log: seq<Effect>, deadline: nat)
    requires EnrollLog(log, deadline)
    ensures EnrollLog(Refuse(ch, message, result, env, now, disk, log).log, deadline)
  {
    EnrollLogSnoc(log, SealDone(ch, DoneErr(message), env.doneWrite.ok), deadline);
    hide EnrollLog;
  }

  lemma StoreLog(log: seq<Effect>, r: EnrollReply, deadline: nat)
    requires EnrollLog(log, deadline) && log != [] && log[|log| - 1].ClockRead? && log[|log| - 1].at < deadline
    requires r.log == [] || (|r.log| == 2 && r.log[0].Stored? && r.log[1].Sealed?)
    ensures EnrollLog(After(log, r).log, deadline)
  {
    if r.log == [] {
      assert log + r.log == log;
    } else {
      EnrollLogSnoc(log, r.log[0], deadline);
      EnrollLogSnoc(log + [r.log[0]], r.log[1], deadline);
      assert log + r.log == log + [r.log[0]] + [r.log[1]];
    }
  }

  lemma AskedLog(t1: nat, t2: nat, device: string, answer: bool, deadline: nat)
    ensures EnrollLog([ClockRead(t1)], deadline)
    ensures t1 < deadline ==>
              && EnrollLog([ClockRead(t1), Asked(device, answer)], deadline)
              && EnrollLog([ClockRead(t1), Asked(device, answer)] + [ClockRead(t2)], deadline)
  {
  }

  lemma ConfirmGuard(cfg: SessionConfig, ch: ChannelState, canonical: Option<string>, device: string, env: ConnEnv,
                     now: nat, disk: Disk)
    ensures var r := Confirm(cfg, ch, canonical, device, env, now, disk);
            && EnrollLog(r.log, cfg.deadline)
            && !(r.result.Ok? && r.result.value.PinFailure?)
  {
    hide Store;
    hide EnrollLog;
    var t1 := now + env.checkLag;
    var t2 := t1 + env.answerTime;
    var asked := [ClockRead(t1), Asked(device, env.answer)];
    AskedLog(t1, t2, device, env.answer, cfg.deadline);
    if t1 >= cfg.deadline {
      RefuseLog(ch, "offer expired", Ignore, env, t1, disk, [ClockRead(t1)], cfg.deadline);
    } else {
      if !env.answer {
        RefuseLog(ch, "declined on the host", Declined, env, t2, disk, asked, cfg.deadline);
      } else if t2 >= cfg.deadline {
        RefuseLog(ch, "offer expired", Ignore, env, t2, disk, asked + [ClockRead(t2)], cfg.deadline);
      } else {
        StoreFacts(cfg, ch, canonical, device, env, t2, disk);
        hide Truthful;
        StoreLog(asked + [ClockRead(t2)], Store(cfg, ch, canonical, device, env, t2, disk), cfg.deadline);
      }
    }
  }

  lemma EnrollFacts(cfg: SessionConfig, chan: ChannelState, frame: Wire, env: ConnEnv, now: nat, disk: Disk)
    ensures var r := OnEnroll(cfg, chan, frame, env, now, disk);
            && Truthful(disk, r) && EnrollLog(r.log, cfg.deadline)
            && !(r.result.Ok? && r.result.value.PinFailure?)
  {
    hide DoneErr;
    hide SealS2C;
    hide Confirm;
    hide Contains;
    hide Trim;
    match OpenEnroll(chan, frame)
    case Err(e) =>
    case Ok((request, ch)) =>
      hide OpenEnroll;
      match cfg.lib.key(Trim(request.pubkey)) {
        case None =>
          RefuseFacts(ch, "unparseable public key", Ignore, env, now, disk, []);
          RefuseLog(ch, "unparseable public key", Ignore, env, now, disk, [], cfg.deadline);
        case Some(key) =>
          if !Contains(key.algorithm, "ed25519") {
            RefuseFacts(ch, "only ed25519 keys are accepted", Ignore, env, now, disk, []);
            RefuseLog(ch, "only ed25519 keys are accepted", Ignore, env, now, disk, [], cfg.deadline);
          } else {
            ConfirmTruth(cfg, ch, key.canonical, request.device, env, now, disk);
            ConfirmGuard(cfg, ch, key.canonical, request.device, env, now, disk);
          }
      }
  }

  // -- HELLO --

  predicate IsAccepted(e: Effect) {
    e == TokenChecked(true) || e == PinChecked(true)
  }

  predicate HelloKind(e: Effect) {
    e.TokenChecked? || e.PinChecked? || e.ClockRead? || e.Sealed?
  }

  /** What a HELLO is answered with: an offer only after an accepted proof, a refusal, or nothing. */
  ghost predicate HelloLog(cfg: SessionConfig, retired: bool, r: HelloReply) {
    && (forall i :: 0 <= i < |r.log| ==> HelloKind(r.log[i]))
    && (retired ==> forall i :: 0 <= i < |r.log| ==> !r.log[i].PinChecked?)
    && Enrolments(r.log) == []
    && WrongPins(r.log) == (if r.phase == Closed(Ok(PinFailure)) then 1 else 0)
    && (r.phase.Closed? && r.phase.result.Ok? ==> r.phase.result.value.Ignore? || r.phase.result.value.PinFailure?)
    && if r.phase.Offered? || r.phase == Closed(Err(Io)) then
         Bodies(r.log) == [OfferValue(cfg.offer)] && r.log != [] && IsAccepted(r.log[0])
       else AtMostRefused(Bodies(r.log))
  }

  lemma OfferFacts(cfg: SessionConfig, retired: bool, ch: ChannelState, env: ConnEnv, now: nat, check: Effect)
    requires IsAccepted(check) && (retired ==> check.TokenChecked?)
    ensures HelloLog(cfg, retired, SendOffer(cfg, ch, env, now, check))
  {
    var r := SendOffer(cfg, ch, env, now, check);
    hide OfferValue;
    hide SealS2C;
    hide PhaseDeadline;
    SilentPrefix([r.log[0], r.log[1]], [r.log[2]]);
    SealedOnly(r.log[2]);
    assert r.log == [r.log[0], r.log[1]] + [r.log[2]];
    hide Bodies;
    hide Enrolments;
    hide WrongPins;
  }

  lemma WrongPinFacts(done: Effect)
    requires done.Sealed?
    ensures Bodies([PinChecked(false), done]) == [done.body]
    ensures Enrolments([PinChecked(false), done]) == []
    ensures WrongPins([PinChecked(false), done]) == 1
  {
    var none: seq<Effect> := [];
    var check := PinChecked(false);
    assert [check, done] == [check] + [done] && [check] + none == [check];
    LogAppend([check], [done]);
    SealedOnly(done);
    PickedStep(BodyOf, check, none);
    PickedStep(EnrolmentOf, check, none);
    FilterStep(IsWrongPin, check, none);
  }

  lemma RefusedFacts(cfg: SessionConfig, retired: bool, message: string, done: Effect, now: nat)
    requires done.Sealed? && done.body == DoneErr(message)
    ensures HelloLog(cfg, retired, HelloReply(Closed(Ok(Ignore)), now, [done]))
    ensures !retired ==> HelloLog(cfg, retired, HelloReply(Closed(Ok(PinFailure)), now, [PinChecked(false), done]))
  {
    hide DoneErr;
    SealedOnly(done);
    WrongPinFacts(done);
    assert IsDoneErr(done.body);
    hide Bodies;
    hide Enrolments;
    hide WrongPins;
  }

  lemma QuietFacts(cfg: SessionConfig, retired: bool, result: Result<ConnectionResult, FrameError>, now: nat,
                   log: seq<Effect>)
    requires log == [] || log == [TokenChecked(false)]
    requires result == Ok(Ignore) || (result.Err? && result != Err(Io))
    ensures HelloLog(cfg, retired, HelloReply(Closed(result), now, log))
  {
    SilentLog(log);
  }

  lemma OpenHelloErrors(chan: ChannelState, frame: Wire)
    ensures OpenHello(chan, frame).Err? ==> OpenHello(chan, frame).error != Io
  {
  }

  lemma HelloFacts(cfg: SessionConfig, retired: bool, epub: seq<byte>, mode: string, chan: ChannelState, frame: Wire,
                   env: ConnEnv, now: nat)
    ensures HelloLog(cfg, retired, OnHello(cfg, retired, epub, mode, chan, frame, env, now))
  {
    hide HelloLog;
    hide SendOffer;
    hide DoneErr;
    OpenHelloErrors(chan, frame);
    match OpenHello(chan, frame)
    case Err(e) => QuietFacts(cfg, retired, Err(e), now, []);
    case Ok((proof, ch)) =>
      hide OpenHello;
      if mode == "token" {
        if proof == cfg.token {
          OfferFacts(cfg, retired, ch, env, now, TokenChecked(true));
        } else {
          QuietFacts(cfg, retired, Ok(Ignore), now, [TokenChecked(false)]);
        }
      } else if mode == "pin" {
        if retired {
          RefusedFacts(cfg, retired, "pin retired for this offer",
                       SealDone(ch, DoneErr("pin retired for this offer"), env.doneWrite.ok), now + env.doneWrite.cost);
        } else if proof == cfg.lib.pinProof(cfg.pin, epub, cfg.spub) {
          OfferFacts(cfg, retired, ch, env, now, PinChecked(true));
        } else {
          RefusedFacts(cfg, retired, "wrong pin", SealDone(ch, DoneErr("wrong pin"), env.doneWrite.ok),
                       now + env.doneWrite.cost);
        }
      } else {
        QuietFacts(cfg, retired, Ok(Ignore), now, []);
      }
  }

  /** What gets an offer: the token, or while the PIN is live its proof for this very key. */
  predicate Proves(cfg: SessionConfig, retired: bool, epub: seq<byte>, mode: string, proof: seq<byte>) {
    || (mode == "token" && proof == cfg.token)
    || (mode == "pin" && !retired && proof == cfg.lib.pinProof(cfg.pin, epub, cfg.spub))
  }

  /** The frame is the next box under the client's key, and carries such a proof. */
  predicate ProvenHello(cfg: SessionConfig, retired: bool, epub: seq<byte>, mode: string, chan: ChannelState,
                        frame: Wire) {
    var hello := OpenHello(chan, frame);
    hello.Ok? && Proves(cfg, retired, epub, mode, hello.value.0)
  }

  /** The offer is sealed for exactly those HELLOs. */
  lemma OfferIsForProof(cfg: SessionConfig, retired: bool, epub: seq<byte>, mode: string, chan: ChannelState,
                        frame: Wire, env: ConnEnv, now: nat)
    ensures var r := OnHello(cfg, retired, epub, mode, chan, frame, env, now);
            && (OfferValue(cfg.offer) in Bodies(r.log) <==> ProvenHello(cfg, retired, epub, mode, chan, frame))
            && (r.phase.Offered? ==> ProvenHello(cfg, retired, epub, mode, chan, frame))
  {
    hide OpenHello;
    hide OfferValue;
    hide SendOffer;
    hide DoneErr;
    hide SealS2C;
    hide Bodies;
    hide Enrolments;
    hide WrongPins;
    hide IsDoneErr;
    var r := OnHello(cfg, retired, epub, mode, chan, frame, env, now);
    HelloFacts(cfg, retired, epub, mode, chan, frame, env, now);
    RefusalIsNoOffer(cfg, Bodies(r.log));
    OfferKind(cfg, chan, env, now);
    OpenHelloErrors(chan, frame);
  }

  lemma OfferKind(cfg: SessionConfig, chan: ChannelState, env: ConnEnv, now: nat)
    ensures forall ch, check {:trigger SendOffer(cfg, ch, env, now, check)} ::
              var r := SendOffer(cfg, ch, env, now, check); r.phase.Offered? || r.phase == Closed(Err(Io))
  {
    hide OfferValue;
    hide SealS2C;
  }

  // -- the whole connection --

  /** Wherever the offer was sealed, a proof had been accepted before. */
  ghost predicate OfferAfterProof(cfg: SessionConfig, log: seq<Effect>) {
    forall j :: 0 <= j < |log| && log[j].Sealed? && log[j].body == OfferValue(cfg.offer) ==> ProofBefore(log, j)
  }

  ghost predicate ProofBefore(log: seq<Effect>, j: nat)
    requires j <= |log|
  {
    exists i :: 0 <= i < j && IsAccepted(log[i])
  }

  lemma ProofComesFirst(cfg: SessionConfig, log: seq<Effect>)
    requires (log != [] && IsAccepted(log[0])) || AtMostRefused(Bodies(log))
    ensures OfferAfterProof(cfg, log)
  {
    hide OfferValue;
    hide AtMostRefused;
    hide Bodies;
    RefusalIsNoOffer(cfg, Bodies(log));
    forall j | 0 <= j < |log| && log[j].Sealed? && log[j].body == OfferValue(cfg.offer)
      ensures ProofBefore(log, j)
    {
      BodyIsListed(log, j);
      assert IsAccepted(log[0]) && j > 0;
    }
  }

  lemma BodyIsListed(log: seq<Effect>, i: nat)
    requires i < |log| && log[i].Sealed?
    ensures log[i].body in Bodies(log)
  {
    if i > 0 {
      BodyIsListed(log[1..], i - 1);
    }
  }

  lemma ProofStaysBefore(cfg: SessionConfig, head: seq<Effect>, tail: seq<Effect>)
    requires OfferAfterProof(cfg, tail) && forall i :: 0 <= i < |head| ==> !head[i].Sealed?
    ensures OfferAfterProof(cfg, head + tail)
  {
    hide OfferValue;
    var log := head + tail;
    forall j | 0 <= j < |log| && log[j].Sealed? && log[j].body == OfferValue(cfg.offer)
      ensures ProofBefore(log, j)
    {
      assert tail[j - |head|] == log[j] && ProofBefore(tail, j - |head|);
      var i :| 0 <= i < j - |head| && IsAccepted(tail[i]);
      assert log[|head| + i] == tail[i];
    }
  }

  /** Everything a connection's log and result are bound to. */
  ghost predicate Conversed(cfg: SessionConfig, retired: bool, before: Disk, r: EnrollReply) {
    && Guarded(r.log, cfg.deadline)
    && Accounted(cfg, before, r)
    && WrongPins(r.log) == (if ResultOf(r).PinFailure? then 1 else 0)
    && (retired ==> forall i :: 0 <= i < |r.log| ==> !r.log[i].PinChecked?)
    && OfferAfterProof(cfg, r.log)
    && (forall i :: 0 <= i < |r.log| ==> !r.log[i].Accepted?)
  }

  /** The sealed frames are a prefix of one of three conversations, and agree with the result and the file. */
  ghost predicate Accounted(cfg: SessionConfig, before: Disk, r: EnrollReply) {
    var offer, b := OfferValue(cfg.offer), Bodies(r.log);
    match ResultOf(r)
    case Enrolled(_, comment, _) =>
      && b == [offer, DoneOk(comment)]
      && |Enrolments(r.log)| == 1 && Wrote(before, Enrolments(r.log)[0], comment, r.disk)
    case _ =>
      && r.disk == before && Enrolments(r.log) == []
      && (AtMostRefused(b) || b == [offer] || (|b| == 2 && b[0] == offer && IsDoneErr(b[1])))
  }

  lemma AfterHelloFacts(cfg: SessionConfig, ch: ChannelState, postauth: nat, env: ConnEnv, p: Peer, disk: Disk)
    ensures var r := AfterHello(cfg, ch, postauth, env, p, disk);
            && Truthful(disk, r) && Guarded(r.log, cfg.deadline) && WrongPins(r.log) == 0
            && (forall i :: 0 <= i < |r.log| ==> EnrollKind(r.log[i]) || r.log[i].Heard?)
            && !(r.result.Ok? && r.result.value.PinFailure?)
  {
    var (enroll, p3) := ReadFrame(p, postauth);
    hide ReadFrame;
    hide OnEnroll;
    var heard := [Heard(Enroll, p.now, p3.now)];
    SilentLog(heard);
    assert Guarded(heard, cfg.deadline);
    if enroll.Ok? {
      var r := OnEnroll(cfg, ch, cfg.lib.wire(enroll.value), env, p3.now, disk);
      EnrollFacts(cfg, ch, cfg.lib.wire(enroll.value), env, p3.now, disk);
      TruthAfter(disk, heard, r);
      GuardedAppend(heard, r.log, cfg.deadline);
      SilentPrefix(heard, r.log);
      NoPinsInEnroll(r.log);
    }
    hide Bodies;
    hide Enrolments;
    hide WrongPins;
    hide Guarded;
  }

  lemma {:induction false} NoPinsInEnroll(log: seq<Effect>)
    requires forall i :: 0 <= i < |log| ==> EnrollKind(log[i]) || log[i].Heard?
    ensures WrongPins(log) == 0
  {
    if log != [] {
      NoPinsInEnroll(log[1..]);
    }
  }

  lemma HelloIsGuarded(log: seq<Effect>, deadline: nat)
    requires forall i :: 0 <= i < |log| ==> HelloKind(log[i]) || log[i].Heard?
    ensures Guarded(log, deadline)
  {
  }

  /** Steps of listening and reading the clock, which bind nothing. */
  predicate Listening(e: Effect) {
    e.Heard? || e.ClockRead?
  }

  lemma ConversedAfter(cfg: SessionConfig, retired: bool, before: Disk, log: seq<Effect>, r: EnrollReply)
    requires Conversed(cfg, retired, before, r) && forall i :: 0 <= i < |log| ==> Listening(log[i])
    ensures Conversed(cfg, retired, before, After(log, r))
  {
    hide OfferAfterProof;
    hide Bodies;
    hide Enrolments;
    hide WrongPins;
    hide OfferValue;
    hide Wrote;
    hide DoneOk;
    hide AtMostRefused;
    SilentPrefix(log, r.log);
    GuardedAppend(log, r.log, cfg.deadline);
    hide Guarded;
    ProofStaysBefore(cfg, log, r.log);
  }

  lemma ListenedOnly(cfg: SessionConfig, retired: bool, now: nat, disk: Disk, log: seq<Effect>,
                     result: Result<ConnectionResult, FrameError>)
    requires forall i :: 0 <= i < |log| ==> Listening(log[i])
    requires result == Ok(Ignore) || result.Err?
    ensures Conversed(cfg, retired, disk, EnrollReply(result, now, disk, log))
  {
    SilentLog(log);
    hide Bodies;
    hide Enrolments;
    hide WrongPins;
    hide OfferValue;
  }

  lemma ClosedFacts(cfg: SessionConfig, retired: bool, hello: HelloReply, disk: Disk)
    requires HelloLog(cfg, retired, hello) && hello.phase.Closed?
    ensures Conversed(cfg, retired, disk, EnrollReply(hello.phase.result, hello.now, disk, hello.log))
  {
    HelloIsGuarded(hello.log, cfg.deadline);
    ProofComesFirst(cfg, hello.log);
    hide OfferAfterProof;
    hide Bodies;
    hide Enrolments;
    hide WrongPins;
    hide Guarded;
    hide OfferValue;
  }

  /** A refusal is not the offer: it has no name to show. */
  lemma RefusalIsNoOffer(cfg: SessionConfig, bodies: seq<Value>)
    ensures AtMostRefused(bodies) ==> OfferValue(cfg.offer) !in bodies
  {
    assert OfferValue(cfg.offer).entries[0].0 == Text("name");
    forall m
      ensures DoneErr(m) != OfferValue(cfg.offer)
    {
      assert DoneErr(m).entries[0].0 == Text("ok");
    }
    hide OfferValue;
    hide DoneErr;
  }

  lemma OfferedFacts(cfg: SessionConfig, retired: bool, hello: HelloReply, disk: Disk, r: EnrollReply)
    requires HelloLog(cfg, retired, hello) && hello.phase.Offered?
    requires Truthful(disk, r) && Guarded(r.log, cfg.deadline) && WrongPins(r.log) == 0
    requires forall i :: 0 <= i < |r.log| ==> EnrollKind(r.log[i]) || r.log[i].Heard?
    requires !(r.result.Ok? && r.result.value.PinFailure?)
    ensures Conversed(cfg, retired, disk, After(hello.log, r))
  {
    hide Guarded;
    hide OfferAfterProof;
    hide OfferValue;
    HelloIsGuarded(hello.log, cfg.deadline);
    GuardedAppend(hello.log, r.log, cfg.deadline);
    LogAppend(hello.log, r.log);
    OfferedIsProved(cfg, hello.log, r.log);
    hide Bodies;
    hide Enrolments;
    hide WrongPins;
    OfferedIsAccounted(cfg, retired, hello, disk, r);
    hide Truthful;
    hide Accounted;
    hide AtMostRefused;
  }

  lemma OfferedIsProved(cfg: SessionConfig, hello: seq<Effect>, rest: seq<Effect>)
    requires hello != [] && IsAccepted(hello[0])
    ensures OfferAfterProof(cfg, hello + rest)
  {
    assert (hello + rest)[0] == hello[0];
    ProofComesFirst(cfg, hello + rest);
  }

  lemma OfferedIsAccounted(cfg: SessionConfig, retired: bool, hello: HelloReply, disk: Disk, r: EnrollReply)
    requires HelloLog(cfg, retired, hello) && hello.phase.Offered? && Truthful(disk, r)
    ensures Accounted(cfg, disk, After(hello.log, r))
  {
    LogAppend(hello.log, r.log);
    hide Bodies;
    hide Enrolments;
    hide WrongPins;
    hide OfferValue;
    hide Wrote;
    hide DoneOk;
    hide IsDoneErr;
  }

  lemma AfterIntroFacts(cfg: SessionConfig, retired: bool, epub: seq<byte>, mode: string, chan: ChannelState,
                        env: ConnEnv, p1: Peer, preauth: nat, disk: Disk)
    ensures Conversed(cfg, retired, disk, AfterIntro(cfg, retired, epub, mode, chan, env, p1, preauth, disk))
  {
    hide ReadFrame;
    hide OnHello;
    hide AfterHello;
    hide Conversed;
    hide HelloLog;
    hide Truthful;
    hide Guarded;
    hide WrongPins;
    var (hello, p2) := ReadFrame(p1, preauth);
    var heard := [Heard(Hello, p1.now, p2.now)];
    match hello
    case Err(e) => ListenedOnly(cfg, retired, p2.now, disk, heard, Err(e));
    case Ok(bytes) =>
      var reply := OnHello(cfg, retired, epub, mode, chan, cfg.lib.wire(bytes), env, p2.now);
      HelloFacts(cfg, retired, epub, mode, chan, cfg.lib.wire(bytes), env, p2.now);
      match reply.phase {
        case Closed(r) =>
          ClosedFacts(cfg, retired, reply, disk);
          ConversedAfter(cfg, retired, disk, heard, EnrollReply(r, reply.now, disk, reply.log));
        case Offered(ch, postauth) =>
          var p3 := Peer(p2.pending, reply.now);
          var last := AfterHello(cfg, ch, postauth, env, p3, disk);
          AfterHelloFacts(cfg, ch, postauth, env, p3, disk);
          OfferedFacts(cfg, retired, reply, disk, last);
          ConversedAfter(cfg, retired, disk, heard, After(reply.log, last));
          Assoc(heard, reply.log, last.log);
      }
  }

  /** For every peer, operator, clock and fault: guarded by the clock, truthful about the file,
      and one of the five conversations, in which the offer follows an accepted proof. */
  lemma ConnectionFacts(cfg: SessionConfig, retired: bool, env: ConnEnv, now: nat, disk: Disk)
    ensures Conversed(cfg, retired, disk, Exchange(cfg, retired, env, now, disk))
  {
    hide ReadFrame;
    hide OnIntro;
    hide AfterIntro;
    hide Conversed;
    var start := now + env.startLag;
    var preauth := PhaseDeadline(cfg, start, PREAUTH_TIMEOUT);
    var (intro, p1) := ReadFrame(Peer(env.arrivals, start), preauth);
    var log := [ClockRead(start), Heard(Intro, start, p1.now)];
    match intro
    case Err(e) => ListenedOnly(cfg, retired, p1.now, disk, log, Err(e));
    case Ok(bytes) =>
      IntroResults(cfg, cfg.lib.wire(bytes));
      match OnIntro(cfg, cfg.lib.wire(bytes)) {
        case Rejected(r) => ListenedOnly(cfg, retired, p1.now, disk, log, r);
        case Greeted(epub, mode, chan) =>
          AfterIntroFacts(cfg, retired, epub, mode, chan, env, p1, preauth, disk);
          ConversedAfter(cfg, retired, disk, log, AfterIntro(cfg, retired, epub, mode, chan, env, p1, preauth, disk));
      }
  }

  lemma IntroResults(cfg: SessionConfig, frame: Wire)
    ensures var r := OnIntro(cfg, frame); r.Rejected? ==> r.result == Ok(Ignore) || r.result.Err?
  {
  }

  // -- what earns an offer --

  /** The key and mode a connection introduces itself with, and the HELLO it sends then. */
  datatype Opening = Opening(epub: seq<byte>, mode: string, hello: Wire)

  /** An INTRO in version 1, with a 32-byte key that contributes, and a mode. */
  predicate SoundIntro(cfg: SessionConfig, frame: Wire) {
    frame.Clear? &&
    var (epub, mode) := (GetBytes(frame.value, "epub"), GetText(frame.value, "mode"));
    && MapGet(frame.value, "v") == Some(Integer(1))
    && epub.Some? && |epub.value| == 32 && cfg.lib.contributory(epub.value)
    && mode.Some?
  }

  /** Exactly those are answered, on the channel of the key they bring. */
  lemma IntroIsVetted(cfg: SessionConfig, frame: Wire)
    ensures var r := OnIntro(cfg, frame);
            && (r.Greeted? <==> SoundIntro(cfg, frame))
            && (r.Greeted? ==>
                  && GetBytes(frame.value, "epub") == Some(r.epub) && GetText(frame.value, "mode") == Some(r.mode)
                  && r.chan == Derive(Shared(r.epub, cfg.spub), r.epub, cfg.spub))
  {
    hide MapGet;
    hide GetBytes;
    hide GetText;
  }

  function OpeningOf(cfg: SessionConfig, env: ConnEnv, now: nat): Option<Opening> {
    var start := now + env.startLag;
    var preauth := PhaseDeadline(cfg, start, PREAUTH_TIMEOUT);
    match ReadFrame(Peer(env.arrivals, start), preauth)
    case (Err(_), _) => None
    case (Ok(bytes), p1) =>
      var intro := cfg.lib.wire(bytes);
      if !SoundIntro(cfg, intro) then None
      else
        match ReadFrame(p1, preauth)
        case (Err(_), _) => None
        case (Ok(more), _) =>
          Some(Opening(GetBytes(intro.value, "epub").value, GetText(intro.value, "mode").value, cfg.lib.wire(more)))
  }

  predicate ProvenOpening(cfg: SessionConfig, retired: bool, o: Option<Opening>) {
    o.Some? &&
    ProvenHello(cfg, retired, o.value.epub, o.value.mode, ChannelFor(cfg, o.value.epub), o.value.hello)
  }

  lemma ReceiptIsNoOffer(cfg: SessionConfig, comment: string)
    ensures OfferValue(cfg.offer) != DoneOk(comment)
  {
    assert OfferValue(cfg.offer).entries[0].0 == Text("name");
    assert DoneOk(comment).entries[0].0 == Text("ok");
    hide OfferValue;
    hide DoneOk;
  }

  lemma NoSecondOffer(cfg: SessionConfig, disk: Disk, r: EnrollReply)
    requires Truthful(disk, r)
    ensures OfferValue(cfg.offer) !in Bodies(r.log)
  {
    hide Bodies;
    hide Enrolments;
    hide Wrote;
    hide AtMostRefused;
    hide OfferValue;
    hide DoneOk;
    RefusalIsNoOffer(cfg, Bodies(r.log));
    if ResultOf(r).Enrolled? {
      ReceiptIsNoOffer(cfg, ResultOf(r).comment);
    }
  }

  lemma AfterIntroOffers(cfg: SessionConfig, retired: bool, epub: seq<byte>, mode: string, chan: ChannelState,
                         env: ConnEnv, p1: Peer, preauth: nat, disk: Disk)
    ensures var r := AfterIntro(cfg, retired, epub, mode, chan, env, p1, preauth, disk);
            var hello := ReadFrame(p1, preauth).0;
            var proven := hello.Ok? && ProvenHello(cfg, retired, epub, mode, chan, cfg.lib.wire(hello.value));
            && (OfferValue(cfg.offer) in Bodies(r.log) <==> proven)
            && (Bodies(r.log) != [] ==> hello.Ok?)
  {
    hide ReadFrame;
    hide OnHello;
    hide AfterHello;
    hide ProvenHello;
    hide Truthful;
    hide Guarded;
    hide WrongPins;
    hide Enrolments;
    hide Bodies;
    hide OfferValue;
    var (hello, p2) := ReadFrame(p1, preauth);
    var heard := [Heard(Hello, p1.now, p2.now)];
    SilentLog(heard);
    if hello.Ok? {
      var frame := cfg.lib.wire(hello.value);
      var reply := OnHello(cfg, retired, epub, mode, chan, frame, env, p2.now);
      OfferIsForProof(cfg, retired, epub, mode, chan, frame, env, p2.now);
      SilentPrefix(heard, reply.log);
      if reply.phase.Offered? {
        var p := Peer(p2.pending, reply.now);
        var last := AfterHello(cfg, reply.phase.chan, reply.phase.deadline, env, p, disk);
        AfterHelloFacts(cfg, reply.phase.chan, reply.phase.deadline, env, p, disk);
        NoSecondOffer(cfg, disk, last);
        LogAppend(heard + reply.log, last.log);
      }
    }
  }

  /** A connection is made the offer if and only if its INTRO is sound and the HELLO read after it is the
      next box under the key it introduced and carries the token, or while the PIN is live the PIN's
      proof for that key; it enrols only then, and without a sound INTRO it is sealed nothing at all. */
  lemma OfferNeedsProof(cfg: SessionConfig, retired: bool, env: ConnEnv, now: nat, disk: Disk)
    ensures var r := Exchange(cfg, retired, env, now, disk);
            var proven := ProvenOpening(cfg, retired, OpeningOf(cfg, env, now));
            && (OfferValue(cfg.offer) in Bodies(r.log) <==> proven)
            && (ResultOf(r).Enrolled? ==> proven)
            && (Bodies(r.log) != [] ==> OpeningOf(cfg, env, now).Some?)
  {
    OfferedExactly(cfg, retired, env, now, disk);
    ConnectionFacts(cfg, retired, env, now, disk);
    hide Exchange;
    hide OpeningOf;
    hide ProvenOpening;
    hide Guarded;
    hide Bodies;
    hide Enrolments;
    hide WrongPins;
    hide OfferAfterProof;
    hide Wrote;
    hide OfferValue;
    hide DoneOk;
  }

  lemma OfferedExactly(cfg: SessionConfig, retired: bool, env: ConnEnv, now: nat, disk: Disk)
    ensures var bodies := Bodies(Exchange(cfg, retired, env, now, disk).log);
            && (OfferValue(cfg.offer) in bodies <==> ProvenOpening(cfg, retired, OpeningOf(cfg, env, now)))
            && (bodies != [] ==> OpeningOf(cfg, env, now).Some?)
  {
    hide ReadFrame;
    hide AfterIntro;
    hide ProvenHello;
    hide Bodies;
    hide Enrolments;
    hide WrongPins;
    hide OfferValue;
    hide GetBytes;
    hide GetText;
    hide OnIntro;
    hide Version;
    hide MapGet;
    hide SoundIntro;
    var start := now + env.startLag;
    var preauth := PhaseDeadline(cfg, start, PREAUTH_TIMEOUT);
    var (intro, p1) := ReadFrame(Peer(env.arrivals, start), preauth);
    var log := [ClockRead(start), Heard(Intro, start, p1.now)];
    SilentLog(log);
    if intro.Ok? {
      var greeting := OnIntro(cfg, cfg.lib.wire(intro.value));
      IntroIsVetted(cfg, cfg.lib.wire(intro.value));
      if greeting.Greeted? {
        assert greeting.chan == ChannelFor(cfg, greeting.epub);
        hide ChannelFor;
        var rest := AfterIntro(cfg, retired, greeting.epub, greeting.mode, greeting.chan, env, p1, preauth, disk);
        AfterIntroOffers(cfg, retired, greeting.epub, greeting.mode, greeting.chan, env, p1, preauth, disk);
        SilentPrefix(log, rest.log);
      }
    }
  }
}
