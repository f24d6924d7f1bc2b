/** Facts about every run of the accept loop, over any number of connections. */
module SessionSafety {
  import opened Wrappers
  import opened Text
  import opened AuthKeys
  import opened Editing
  import opened Stream
  import opened Server
  import opened Conversation
  import opened PeerLimits
  import opened Receipts
  import opened HonestClient
  import Unbind
  import opened Util

  // -- one iteration --

  /** The reply behind an iteration that accepts a connection. */
  function ReplyAt(cfg: SessionConfig, s: Session, it: Iteration): EnrollReply
    requires it.accept.Connection?
  {
    Exchange(cfg, s.pinRetired, it.accept.env, s.now + it.lag, s.disk)
  }

  /** Whether an iteration gets past the cancel and the deadline. */
  predicate Admits(cfg: SessionConfig, cancelAt: Option<nat>, s: Session, it: Iteration) {
    !CancelRequested(cancelAt, s.now + it.lag) && s.now + it.lag < cfg.deadline
  }

  predicate Serves(cfg: SessionConfig, cancelAt: Option<nat>, s: Session, it: Iteration) {
    Admits(cfg, cancelAt, s, it) && it.accept.Connection?
  }

  lemma ServedConnects(cfg: SessionConfig, cancelAt: Option<nat>, s: Session, it: Iteration)
    requires Serves(cfg, cancelAt, s, it)
    ensures it.accept.Connection?
  {
  }

  lemma ServedStep(cfg: SessionConfig, cancelAt: Option<nat>, s: Session, it: Iteration)
    requires Serves(cfg, cancelAt, s, it)
    ensures var reply := ReplyAt(cfg, s, it);
            var now := s.now + it.lag;
            Server.Step(cfg, cancelAt, s, it)
              == Settle(s.(now := reply.now, disk := reply.disk,
                           log := s.log + [ClockRead(now)] + [Accepted(now)] + reply.log), ResultOf(reply))
  {
    hide Exchange;
    hide Settle;
  }

  lemma UnservedStep(cfg: SessionConfig, cancelAt: Option<nat>, s: Session, it: Iteration)
    requires !Serves(cfg, cancelAt, s, it) && s.outcome.None?
    ensures var t := Server.Step(cfg, cancelAt, s, it);
            && t == s.(now := t.now, log := t.log, outcome := t.outcome)
            && (t.log == s.log || t.log == s.log + [ClockRead(s.now + it.lag)])
            && (Admits(cfg, cancelAt, s, it) <==> t.outcome.None?)
            && (t.outcome.None? || t.outcome == Some(Expired) || t.outcome == Some(Canceled))
            && (t.outcome.None? ==> t.now > s.now + it.lag)
  {
    hide Exchange;
    hide Settle;
  }

  // -- the PIN --

  /** What the operator has been told after that many wrong PINs. */
  function Told(failures: nat): seq<ServerEvent> {
    if failures == 0 then []
    else if failures == 1 then [WrongPin(2)]
    else if failures == 2 then [WrongPin(2), WrongPin(1)]
    else [WrongPin(2), WrongPin(1), PinRetired]
  }

  /** Failures are the wrong proofs compared, at most three, and the third one retires the PIN. */
  ghost predicate PinAccounted(s: Session) {
    && s.pinFailures <= MAX_PIN_ATTEMPTS
    && (s.pinRetired <==> s.pinFailures == MAX_PIN_ATTEMPTS)
    && s.events == Told(s.pinFailures)
    && WrongPins(s.log) == s.pinFailures
  }

  lemma {:induction false} UncheckedIsNotWrong(log: seq<Effect>)
    requires forall i :: 0 <= i < |log| ==> !log[i].PinChecked?
    ensures WrongPins(log) == 0
  {
    if log != [] {
      UncheckedIsNotWrong(log[1..]);
    }
  }

  lemma ServedLog(s: Session, now: nat, log: seq<Effect>)
    ensures var all := s.log + [ClockRead(now)] + [Accepted(now)] + log;
            && WrongPins(all) == WrongPins(s.log) + WrongPins(log)
            && Enrolments(all) == Enrolments(s.log) + Enrolments(log)
  {
    var head := [ClockRead(now)] + [Accepted(now)];
    assert s.log + [ClockRead(now)] + [Accepted(now)] + log == s.log + (head + log);
    LogAppend(s.log, head + log);
    SilentPrefix(head, log);
    hide WrongPins;
    hide Enrolments;
    hide Bodies;
  }

  lemma ClockLog(log: seq<Effect>, now: nat)
    ensures WrongPins(log + [ClockRead(now)]) == WrongPins(log)
    ensures Enrolments(log + [ClockRead(now)]) == Enrolments(log)
  {
    LogAppend(log, [ClockRead(now)]);
    SilentLog([ClockRead(now)]);
    hide WrongPins;
    hide Enrolments;
    hide Bodies;
    assert Enrolments(log) + [] == Enrolments(log);
  }

  lemma StepKeepsPins(cfg: SessionConfig, cancelAt: Option<nat>, s: Session, it: Iteration)
    requires PinAccounted(s) && s.outcome.None?
    ensures PinAccounted(Server.Step(cfg, cancelAt, s, it))
  {
    hide Exchange;
    hide Server.Step;
    hide WrongPins;
    hide Accounted;
    hide Guarded;
    if Serves(cfg, cancelAt, s, it) {
      var reply := ReplyAt(cfg, s, it);
      ServedStep(cfg, cancelAt, s, it);
      ConnectionFacts(cfg, s.pinRetired, it.accept.env, s.now + it.lag, s.disk);
      if s.pinRetired {
        UncheckedIsNotWrong(reply.log);
      }
      ServedLog(s, s.now + it.lag, reply.log);
    } else {
      UnservedStep(cfg, cancelAt, s, it);
      ClockLog(s.log, s.now + it.lag);
    }
  }

  lemma {:induction false} RunKeepsPins(cfg: SessionConfig, cancelAt: Option<nat>, s: Session, its: seq<Iteration>)
    requires PinAccounted(s)
    ensures PinAccounted(RunFrom(cfg, cancelAt, s, its))
    decreases |its|
  {
    hide Exchange;
    hide Server.Step;
    if s.outcome.None? && its != [] {
      StepKeepsPins(cfg, cancelAt, s, its[0]);
      hide PinAccounted;
      RunKeepsPins(cfg, cancelAt, Server.Step(cfg, cancelAt, s, its[0]), its[1..]);
    }
  }

  /** Over every run: at most three wrong PINs are ever compared, the operator hears two warnings and
      one retirement in that order and no more, and the PIN is retired exactly from the third on. */
  lemma PinGuessingIsBounded(cfg: SessionConfig, cancelAt: Option<nat>, now: nat, disk: Disk, its: seq<Iteration>)
    ensures var s := RunFrom(cfg, cancelAt, Start(now, disk), its);
            && WrongPins(s.log) == s.pinFailures <= 3
            && s.events <= [WrongPin(2), WrongPin(1), PinRetired] && |s.events| == s.pinFailures
            && (s.pinRetired <==> s.pinFailures == 3)
  {
    SilentLog([]);
    RunKeepsPins(cfg, cancelAt, Start(now, disk), its);
    hide RunFrom;
    hide WrongPins;
  }

  // -- the file --

  /** The file is as it was until the one write that ends the session. */
  ghost predicate FileAccounted(s: Session, before: Disk) {
    match s.outcome
    case Some(Bound(_, comment, _)) =>
      |Enrolments(s.log)| == 1 && Wrote(before, Enrolments(s.log)[0], comment, s.disk)
    case _ => s.disk == before && Enrolments(s.log) == []
  }

  lemma StepKeepsFile(cfg: SessionConfig, cancelAt: Option<nat>, s: Session, it: Iteration, before: Disk)
    requires FileAccounted(s, before) && s.outcome.None?
    ensures FileAccounted(Server.Step(cfg, cancelAt, s, it), before)
  {
    hide Exchange;
    hide Server.Step;
    hide WrongPins;
    hide Enrolments;
    hide Bodies;
    hide Guarded;
    hide OfferAfterProof;
    hide Wrote;
    hide OfferValue;
    hide DoneOk;
    if Serves(cfg, cancelAt, s, it) {
      var reply := ReplyAt(cfg, s, it);
      ServedStep(cfg, cancelAt, s, it);
      ConnectionFacts(cfg, s.pinRetired, it.accept.env, s.now + it.lag, s.disk);
      ServedLog(s, s.now + it.lag, reply.log);
      assert [] + Enrolments(reply.log) == Enrolments(reply.log);
    } else {
      UnservedStep(cfg, cancelAt, s, it);
      ClockLog(s.log, s.now + it.lag);
    }
  }

  lemma {:induction false} RunKeepsFile(cfg: SessionConfig, cancelAt: Option<nat>, s: Session, its: seq<Iteration>,
                                        before: Disk)
    requires FileAccounted(s, before)
    ensures FileAccounted(RunFrom(cfg, cancelAt, s, its), before)
    decreases |its|
  {
    hide Exchange;
    hide Server.Step;
    if s.outcome.None? && its != [] {
      StepKeepsFile(cfg, cancelAt, s, its[0], before);
      hide FileAccounted;
      RunKeepsFile(cfg, cancelAt, Server.Step(cfg, cancelAt, s, its[0]), its[1..], before);
    }
  }

  ghost predicate ProperLog(cfg: SessionConfig, s: Session) {
    ProperSession(cfg) ==> AllProper(cfg, s.log)
  }

  lemma StepKeepsProper(cfg: SessionConfig, cancelAt: Option<nat>, s: Session, it: Iteration)
    requires ProperLog(cfg, s) && s.outcome.None?
    ensures ProperLog(cfg, Server.Step(cfg, cancelAt, s, it))
  {
    hide Exchange;
    hide Server.Step;
    if ProperSession(cfg) {
      hide ProperSession;
      var clock := [ClockRead(s.now + it.lag)];
      NothingStored(cfg, clock);
      ProperAppend(cfg, s.log, clock);
      if Serves(cfg, cancelAt, s, it) {
        var accepted := [Accepted(s.now + it.lag)];
        ServedStep(cfg, cancelAt, s, it);
        ConnectionIsProper(cfg, s.pinRetired, it.accept.env, s.now + it.lag, s.disk);
        NothingStored(cfg, accepted);
        hide AllProper;
        ProperAppend(cfg, s.log + clock, accepted);
        ProperAppend(cfg, s.log + clock + accepted, ReplyAt(cfg, s, it).log);
      } else {
        UnservedStep(cfg, cancelAt, s, it);
        hide AllProper;
      }
    }
  }

  lemma {:induction false} RunKeepsProper(cfg: SessionConfig, cancelAt: Option<nat>, s: Session, its: seq<Iteration>)
    requires ProperLog(cfg, s)
    ensures ProperLog(cfg, RunFrom(cfg, cancelAt, s, its))
    decreases |its|
  {
    hide Exchange;
    hide Server.Step;
    if s.outcome.None? && its != [] {
      StepKeepsProper(cfg, cancelAt, s, its[0]);
      hide ProperLog;
      RunKeepsProper(cfg, cancelAt, Server.Step(cfg, cancelAt, s, its[0]), its[1..]);
    }
  }

  /** The enrolment a run ends in is a proper one, logged by the session itself. */
  lemma BoundIsProper(cfg: SessionConfig, cancelAt: Option<nat>, now: nat, disk: Disk, its: seq<Iteration>)
    requires ProperSession(cfg)
    ensures var s := RunFrom(cfg, cancelAt, Start(now, disk), its);
            s.outcome.Some? && s.outcome.value.Bound? ==>
              && |Enrolments(s.log)| == 1
              && var e := Enrolments(s.log)[0];
                 && Wrote(disk, e, s.outcome.value.comment, s.disk)
                 && PlainKey(e.keyType, e.material, e.comment) && Ours(cfg, e.comment)
  {
    var s := RunFrom(cfg, cancelAt, Start(now, disk), its);
    SilentLog([]);
    NothingStored(cfg, []);
    RunKeepsFile(cfg, cancelAt, Start(now, disk), its, disk);
    RunKeepsProper(cfg, cancelAt, Start(now, disk), its);
    hide RunFrom;
    hide ProperSession;
    hide Enrolments;
    hide Wrote;
    hide PlainKey;
    hide Ours;
    if s.outcome.Some? && s.outcome.value.Bound? {
      LoggedIsProper(cfg, s.log, Enrolments(s.log)[0]);
    }
  }

  /** Over every run and every fault: an enrolment is exactly one write, of a file that was readable,
      after which the file holds the key under the comment reported exactly when the key was there
      already or its line is legible; any other ending, and a session still running, leaves the file
      exactly as it started. */
  lemma WholeRunAccounting(cfg: SessionConfig, cancelAt: Option<nat>, now: nat, disk: Disk, its: seq<Iteration>)
    ensures var s := RunFrom(cfg, cancelAt, Start(now, disk), its);
            if s.outcome.Some? && s.outcome.value.Bound? then
              && |Enrolments(s.log)| == 1
              && var e, comment := Enrolments(s.log)[0], s.outcome.value.comment;
                 && Wrote(disk, e, comment, s.disk)
                 && (ProperSession(cfg) ==>
                       && View(s.disk).Some?
                       && (Holder(View(s.disk).value, e.material) == Some(comment) <==> Findable(disk, e)))
            else s.disk == disk && Enrolments(s.log) == []
  {
    var s := RunFrom(cfg, cancelAt, Start(now, disk), its);
    SilentLog([]);
    RunKeepsFile(cfg, cancelAt, Start(now, disk), its, disk);
    hide RunFrom;
    hide Enrolments;
    hide ProperSession;
    hide Wrote;
    hide Holder;
    hide PlainKey;
    hide Ours;
    hide Findable;
    if s.outcome.Some? && s.outcome.value.Bound? && ProperSession(cfg) {
      BoundIsProper(cfg, cancelAt, now, disk, its);
      WrittenKeyIsHeld(disk, Enrolments(s.log)[0], s.outcome.value.comment, s.disk);
    }
  }

  /** What unbinding by the id printed for a session's comment comes to. A new key on a legible line
      is taken out, alone, and the lines are those from before the session; a new key on an illegible
      line stays. A key that was there already, in a file the session did not write, goes too when its
      lines are marked with that id, and stays when its own comment is not marked. */
  lemma UnbindUndoesSession(cfg: SessionConfig, cancelAt: Option<nat>, now: nat, disk: Disk, its: seq<Iteration>,
                            id: string)
    requires Unbind.IsId(id) && cfg.markerId == MARKER_PREFIX + id
    requires View(disk).Some? && forall k :: k in Marks(View(disk).value) ==> k.id != id
    ensures var s := RunFrom(cfg, cancelAt, Start(now, disk), its);
            s.outcome.Some? && s.outcome.value.Bound? ==>
              && |Enrolments(s.log)| == 1
              && Undone(disk, Enrolments(s.log)[0], s.outcome.value.comment, s.disk, id)
  {
    var s := RunFrom(cfg, cancelAt, Start(now, disk), its);
    assert ProperSession(cfg);
    BoundIsProper(cfg, cancelAt, now, disk, its);
    hide RunFrom;
    hide ProperSession;
    hide Enrolments;
    hide Wrote;
    hide Ours;
    hide PlainKey;
    hide Undone;
    hide View;
    if s.outcome.Some? && s.outcome.value.Bound? {
      UnbindUndoesEnrolment(cfg, disk, Enrolments(s.log)[0], s.outcome.value.comment, s.disk, id);
    }
  }

  /** What unbinding by the printed id does to a file that an enrolment has written. */
  ghost predicate Undone(disk: Disk, e: Enrolment, comment: string, written: Disk, id: string) {
    && View(disk).Some?
    && if Holder(View(disk).value, e.material).Some? then
         && written == disk && Holder(View(disk).value, e.material) == Some(comment)
         && Unbind.HeldKeyUnbound(written, e.material, comment)
       else
         Unbind.MarkerId8(comment) == id && NewKeyUnbound(disk, e, written, id)
  }

  ghost predicate NewKeyUnbound(disk: Disk, e: Enrolment, written: Disk, id: string) {
    var (unbound, after) := RemoveDisk(written, Unbind.ById(id), false);
    && View(disk).Some? && View(written).Some?
    && if LegibleKey(e.keyType, e.material, e.comment) then
         && unbound.Ok? && |unbound.value| == 1
         && unbound.value[0].id == id && unbound.value[0].line == KeyText(e.keyType, e.material, e.comment)
         && View(after) == View(disk)
       else
         unbound == Ok([]) && after == written && |View(written).value| == |View(disk).value| + 1
  }

  lemma UnbindUndoesEnrolment(cfg: SessionConfig, disk: Disk, e: Enrolment, comment: string, written: Disk,
                              id: string)
    requires Unbind.IsId(id) && cfg.markerId == MARKER_PREFIX + id
    requires Wrote(disk, e, comment, written)
    requires PlainKey(e.keyType, e.material, e.comment) && Ours(cfg, e.comment)
    requires View(disk).Some? && forall k :: k in Marks(View(disk).value) ==> k.id != id
    ensures Undone(disk, e, comment, written, id)
  {
    hide Holder;
    hide View;
    hide Marks;
    hide LegibleKey;
    hide NewKeyUnbound;
    hide Unbind.HeldKeyUnbound;
    hide Unbind.MarkerId8;
    hide PlainKey;
    hide Findable;
    hide Wrote;
    WrittenKeyIsHeld(disk, e, comment, written);
    WroteReports(disk, e, comment, written);
    if Holder(View(disk).value, e.material).Some? {
      Unbind.UnbindOfHeldKey(disk, e.material, comment);
    } else {
      UnbindOfNewKey(cfg, disk, e, written, id);
    }
  }

  /** The comment reported is the holder's, or the session's own when there is none. */
  lemma WroteReports(disk: Disk, e: Enrolment, comment: string, written: Disk)
    requires Wrote(disk, e, comment, written)
    ensures View(disk).Some?
    ensures var holder := Holder(View(disk).value, e.material);
            if holder.Some? then comment == holder.value
            else comment == e.comment && written == EnsureDisk(disk, e.keyType, e.material, e.comment, false).1
  {
    hide Lines;
    hide HolderOf;
    hide Holder;
    hide AppendLine;
    hide KeyText;
    var content := ReadExisting(disk).value;
    HolderOfLines(Lines(content), e.material);
    MissingLooksEmpty(disk);
    hide Classify;
    hide Trim;
  }

  lemma UnbindOfNewKey(cfg: SessionConfig, disk: Disk, e: Enrolment, written: Disk, id: string)
    requires Unbind.IsId(id) && cfg.markerId == MARKER_PREFIX + id
    requires View(disk).Some? && Holder(View(disk).value, e.material).None?
    requires written == EnsureDisk(disk, e.keyType, e.material, e.comment, false).1
    requires View(written).Some? && |View(written).value| == |View(disk).value| + 1
    requires PlainKey(e.keyType, e.material, e.comment) && Ours(cfg, e.comment)
    requires forall k :: k in Marks(View(disk).value) ==> k.id != id
    ensures Unbind.MarkerId8(e.comment) == id && NewKeyUnbound(disk, e, written, id)
  {
    hide Holder;
    hide View;
    hide Marks;
    hide LegibleKey;
    hide EnsureDisk;
    hide RemoveDisk;
    hide KeyText;
    hide Token;
    hide Fields;
    hide Join;
    hide Ours;
    hide Unbind.IsId;
    hide Unbind.MarkerComment;
    hide Unbind.MarkerId8;
    var slug := OurMarker(cfg, e.comment, id);
    Unbind.UnbindUndoesBind(disk, e.keyType, e.material, id, slug);
  }

  lemma OurMarker(cfg: SessionConfig, comment: string, id: string) returns (slug: string)
    requires Unbind.IsId(id) && cfg.markerId == MARKER_PREFIX + id && Ours(cfg, comment)
    ensures comment == Unbind.MarkerComment(id, slug) && Token(comment)
    ensures ':' !in id && Unbind.MarkerId8(comment) == id
  {
    hide Slug;
    hide Token;
    hide Fields;
    hide Join;
    hide Unbind.IsId;
    hide Unbind.MarkerId8;
    var device :| comment == BindComment(cfg, device);
    slug := Slug(device);
    assert comment == Unbind.MarkerComment(id, slug);
    hide BindComment;
    hide Unbind.MarkerComment;
    Unbind.IdShape(id);
    Unbind.MarkerCommentIsOneField(id, device);
    Unbind.MarkerRoundTrip(id, slug, "", "", "");
  }

  // -- the clock --

  /** Every acceptance was below the deadline and before any cancel. */
  ghost predicate Timely(cfg: SessionConfig, cancelAt: Option<nat>, log: seq<Effect>) {
    && Guarded(log, cfg.deadline)
    && forall i :: 0 <= i < |log| && log[i].Accepted? ==>
         log[i].at < cfg.deadline && !CancelRequested(cancelAt, log[i].at)
  }

  lemma TimelyAppend(cfg: SessionConfig, cancelAt: Option<nat>, a: seq<Effect>, b: seq<Effect>)
    requires Timely(cfg, cancelAt, a) && Timely(cfg, cancelAt, b)
    ensures Timely(cfg, cancelAt, a + b)
  {
    GuardedAppend(a, b, cfg.deadline);
    hide Guarded;
    hide CancelRequested;
  }

  lemma ReplyIsTimely(cfg: SessionConfig, cancelAt: Option<nat>, s: Session, it: Iteration)
    requires it.accept.Connection?
    ensures Timely(cfg, cancelAt, ReplyAt(cfg, s, it).log)
  {
    hide Exchange;
    hide Accounted;
    hide WrongPins;
    hide OfferValue;
    ConnectionFacts(cfg, s.pinRetired, it.accept.env, s.now + it.lag, s.disk);
  }

  lemma ClockIsTimely(cfg: SessionConfig, cancelAt: Option<nat>, log: seq<Effect>, now: nat)
    requires Timely(cfg, cancelAt, log)
    ensures Timely(cfg, cancelAt, log + [ClockRead(now)])
    ensures now < cfg.deadline && !CancelRequested(cancelAt, now) ==>
              Timely(cfg, cancelAt, log + [ClockRead(now)] + [Accepted(now)])
  {
    hide CancelRequested;
  }

  lemma StepKeepsTime(cfg: SessionConfig, cancelAt: Option<nat>, s: Session, it: Iteration)
    requires Timely(cfg, cancelAt, s.log) && s.outcome.None?
    ensures Timely(cfg, cancelAt, Server.Step(cfg, cancelAt, s, it).log)
  {
    hide Exchange;
    hide Server.Step;
    hide Timely;
    var now := s.now + it.lag;
    ClockIsTimely(cfg, cancelAt, s.log, now);
    if Serves(cfg, cancelAt, s, it) {
      ServedStep(cfg, cancelAt, s, it);
      ReplyIsTimely(cfg, cancelAt, s, it);
      TimelyAppend(cfg, cancelAt, s.log + [ClockRead(now)] + [Accepted(now)], ReplyAt(cfg, s, it).log);
    } else {
      UnservedStep(cfg, cancelAt, s, it);
    }
  }

  lemma {:induction false} RunKeepsTime(cfg: SessionConfig, cancelAt: Option<nat>, s: Session, its: seq<Iteration>)
    requires Timely(cfg, cancelAt, s.log)
    ensures Timely(cfg, cancelAt, RunFrom(cfg, cancelAt, s, its).log)
    decreases |its|
  {
    hide Exchange;
    hide Server.Step;
    if s.outcome.None? && its != [] {
      StepKeepsTime(cfg, cancelAt, s, its[0]);
      hide Timely;
      RunKeepsTime(cfg, cancelAt, Server.Step(cfg, cancelAt, s, its[0]), its[1..]);
    }
  }

  /** Over every run, the step just before each accept, each question to the operator and each write
      read the clock below the deadline, and nothing is accepted once a cancel is in. */
  lemma NothingHappensLate(cfg: SessionConfig, cancelAt: Option<nat>, now: nat, disk: Disk, its: seq<Iteration>)
    ensures var log := RunFrom(cfg, cancelAt, Start(now, disk), its).log;
            && Guarded(log, cfg.deadline)
            && forall i :: 0 <= i < |log| && log[i].Accepted? ==>
                 log[i].at < cfg.deadline && !CancelRequested(cancelAt, log[i].at)
  {
    RunKeepsTime(cfg, cancelAt, Start(now, disk), its);
    hide RunFrom;
    hide Guarded;
    hide CancelRequested;
  }

  /** Each live iteration ends the session or moves the clock on, wherever its time goes. */
  ghost predicate Advances(cfg: SessionConfig, cancelAt: Option<nat>, s: Session, its: seq<Iteration>)
    decreases |its|
  {
    s.outcome.None? && its != [] ==>
      var t := Server.Step(cfg, cancelAt, s, its[0]);
      (t.outcome.Some? || t.now > s.now) && Advances(cfg, cancelAt, t, its[1..])
  }

  lemma StepAtDeadline(cfg: SessionConfig, cancelAt: Option<nat>, s: Session, it: Iteration)
    requires s.outcome.None? && s.now >= cfg.deadline
    ensures Server.Step(cfg, cancelAt, s, it).outcome.Some?
  {
    hide Exchange;
    hide Server.Step;
    UnservedStep(cfg, cancelAt, s, it);
  }

  /** When every iteration takes any time at all, the session has ended after one iteration more than
      milliseconds were left. */
  lemma {:induction false} SessionEnds(cfg: SessionConfig, cancelAt: Option<nat>, s: Session, its: seq<Iteration>)
    requires Advances(cfg, cancelAt, s, its)
    requires |its| >= 1 && s.now + |its| > cfg.deadline
    ensures RunFrom(cfg, cancelAt, s, its).outcome.Some?
    decreases |its|
  {
    hide Exchange;
    hide Server.Step;
    if s.outcome.None? {
      if s.now >= cfg.deadline {
        StepAtDeadline(cfg, cancelAt, s, its[0]);
      }
      var t := Server.Step(cfg, cancelAt, s, its[0]);
      if |its| > 1 && t.outcome.None? {
        SessionEnds(cfg, cancelAt, t, its[1..]);
      }
    }
  }

  /** The clock never turns back, and an iteration that leaves the session live fails to advance it
      exactly when nothing was waited for before the checks and the exchange it served took no time. One
      that finds no connection takes a tenth of a second more than it waited. */
  lemma StepTakesTime(cfg: SessionConfig, cancelAt: Option<nat>, s: Session, it: Iteration)
    requires s.outcome.None?
    ensures var t := Server.Step(cfg, cancelAt, s, it);
            && t.now >= s.now
            && (t.outcome.None? ==>
                  (t.now == s.now <==> it.lag == 0 && it.accept.Connection? && ReplyAt(cfg, s, it).now == s.now))
            && (t.outcome.None? && it.accept.NoConnection? ==> t.now == s.now + it.lag + 100 + it.accept.oversleep)
  {
    hide Exchange;
    hide Server.Step;
    if Serves(cfg, cancelAt, s, it) {
      ServedStep(cfg, cancelAt, s, it);
      OneWindowPerPeer(cfg, s.pinRetired, it.accept.env, s.now + it.lag, s.disk);
      hide AllInWindow;
      hide NoProof;
    } else {
      UnservedStep(cfg, cancelAt, s, it);
      IdleStep(cfg, cancelAt, s, it);
    }
  }

  lemma IdleStep(cfg: SessionConfig, cancelAt: Option<nat>, s: Session, it: Iteration)
    requires !Serves(cfg, cancelAt, s, it) && s.outcome.None?
    ensures var t := Server.Step(cfg, cancelAt, s, it);
            && t.now >= s.now
            && (t.outcome.None? ==> it.accept.NoConnection? && t.now == s.now + it.lag + 100 + it.accept.oversleep)
  {
    hide Exchange;
  }

  // -- peers that bind nothing --

  /** How long a step took. */
  function Elapsed(s: Session, t: Session): nat {
    if t.now >= s.now then t.now - s.now else 0
  }

  /** The run without the connections `drop` names: the time a dropped one took goes to the next wait. */
  function Without(cfg: SessionConfig, cancelAt: Option<nat>, s: Session, its: seq<Iteration>,
                   drop: ConnectionResult -> bool, carry: nat): seq<Iteration>
    decreases |its|
  {
    if s.outcome.Some? || its == [] then its
    else
      var t := Server.Step(cfg, cancelAt, s, its[0]);
      if Serves(cfg, cancelAt, s, its[0]) && drop(ResultOf(ReplyAt(cfg, s, its[0]))) then
        Without(cfg, cancelAt, t, its[1..], drop, carry + Elapsed(s, t))
      else
        [its[0].(lag := its[0].lag + carry)] + Without(cfg, cancelAt, t, its[1..], drop, 0)
  }

  /** The same session at the same instant, but for its log. */
  ghost predicate SameButLog(s: Session, t: Session, carry: nat) {
    s.now == t.now + carry && t == s.(now := t.now, log := t.log)
  }

  predicate IsIgnore(r: ConnectionResult) { r.Ignore? }

  lemma StepIgnoresLog(cfg: SessionConfig, cancelAt: Option<nat>, s: Session, t: Session, it: Iteration, carry: nat)
    requires SameButLog(s, t, carry)
    ensures SameButLog(Server.Step(cfg, cancelAt, s, it),
                       Server.Step(cfg, cancelAt, t, it.(lag := it.lag + carry)), 0)
  {
    hide Exchange;
  }

  lemma IgnoredStep(cfg: SessionConfig, cancelAt: Option<nat>, s: Session, it: Iteration)
    requires Serves(cfg, cancelAt, s, it) && ResultOf(ReplyAt(cfg, s, it)).Ignore?
    ensures var t := Server.Step(cfg, cancelAt, s, it);
            t.now >= s.now && t == s.(now := t.now, log := t.log)
  {
    hide Exchange;
    hide Server.Step;
    ServedStep(cfg, cancelAt, s, it);
    ConnectionFacts(cfg, s.pinRetired, it.accept.env, s.now + it.lag, s.disk);
    OneWindowPerPeer(cfg, s.pinRetired, it.accept.env, s.now + it.lag, s.disk);
    hide Guarded;
    hide WrongPins;
    hide AllInWindow;
    hide NoProof;
    hide OfferValue;
  }

  /** Deleting every ignored connection, its time kept, changes neither the outcome nor the file nor
      what the operator is told. */
  lemma {:induction false} IgnoredPeersCannotSteer(cfg: SessionConfig, cancelAt: Option<nat>, s: Session, t: Session,
                                                   its: seq<Iteration>, carry: nat)
    requires SameButLog(s, t, carry)
    ensures var a := RunFrom(cfg, cancelAt, s, its);
            var b := RunFrom(cfg, cancelAt, t, Without(cfg, cancelAt, s, its, IsIgnore, carry));
            && a.outcome == b.outcome && a.disk == b.disk && a.events == b.events
            && a.pinFailures == b.pinFailures && a.pinRetired == b.pinRetired
    decreases |its|
  {
    hide Exchange;
    hide Server.Step;
    if s.outcome.None? && its != [] {
      var next := Server.Step(cfg, cancelAt, s, its[0]);
      if Serves(cfg, cancelAt, s, its[0]) && IsIgnore(ResultOf(ReplyAt(cfg, s, its[0]))) {
        IgnoredStep(cfg, cancelAt, s, its[0]);
        IgnoredPeersCannotSteer(cfg, cancelAt, next, t, its[1..], carry + Elapsed(s, next));
      } else {
        StepIgnoresLog(cfg, cancelAt, s, t, its[0], carry);
        var kept := its[0].(lag := its[0].lag + carry);
        var rest := Without(cfg, cancelAt, next, its[1..], IsIgnore, 0);
        IgnoredPeersCannotSteer(cfg, cancelAt, next, Server.Step(cfg, cancelAt, t, kept), its[1..], 0);
        assert ([kept] + rest)[0] == kept && ([kept] + rest)[1..] == rest;
      }
    }
  }

  predicate BindsNothing(r: ConnectionResult) { r.Ignore? || r.PinFailure? }

  /** The same file, instant and outcome; the second session never counted a wrong PIN. */
  ghost predicate SameButPins(s: Session, t: Session, carry: nat) {
    && s.now == t.now + carry && s.disk == t.disk && s.outcome == t.outcome
    && !t.pinRetired && t.pinFailures == 0 && t.events == []
  }

  lemma UnboundStep(cfg: SessionConfig, cancelAt: Option<nat>, s: Session, it: Iteration)
    requires Serves(cfg, cancelAt, s, it) && BindsNothing(ResultOf(ReplyAt(cfg, s, it)))
    ensures var t := Server.Step(cfg, cancelAt, s, it);
            t.now >= s.now && t.disk == s.disk && t.outcome == s.outcome
  {
    hide Exchange;
    hide Server.Step;
    ServedStep(cfg, cancelAt, s, it);
    ConnectionFacts(cfg, s.pinRetired, it.accept.env, s.now + it.lag, s.disk);
    OneWindowPerPeer(cfg, s.pinRetired, it.accept.env, s.now + it.lag, s.disk);
    hide Guarded;
    hide WrongPins;
    hide AllInWindow;
    hide NoProof;
    hide OfferValue;
  }

  /** A connection that binds or is declined does the same with the PIN still live. */
  lemma BindingStep(cfg: SessionConfig, cancelAt: Option<nat>, s: Session, t: Session, it: Iteration, carry: nat)
    requires SameButPins(s, t, carry) && s.outcome.None?
    requires !(Serves(cfg, cancelAt, s, it) && BindsNothing(ResultOf(ReplyAt(cfg, s, it))))
    ensures SameButPins(Server.Step(cfg, cancelAt, s, it), Server.Step(cfg, cancelAt, t, it.(lag := it.lag + carry)), 0)
  {
    hide Exchange;
    var kept := it.(lag := it.lag + carry);
    if Serves(cfg, cancelAt, s, it) {
      ServedStep(cfg, cancelAt, s, it);
      ServedStep(cfg, cancelAt, t, kept);
      RetirementOnlyStopsPins(cfg, it.accept.env, s.now + it.lag, s.disk);
      assert ReplyAt(cfg, t, kept) == ReplyAt(cfg, s, it) by {
        hide NoPinChecked;
        hide Bodies;
        hide DoneErr;
      }
      hide Server.Step;
    } else {
    }
  }

  /** Deleting every connection that ends ignored or with a wrong PIN, its time kept, changes neither
      the outcome nor the file. Among the ignored are the clients that come with a PIN once it is spent:
      what the wrong PINs alone change is the matter of module SpentPin. */
  lemma {:induction false} UnboundPeersCannotSteer(cfg: SessionConfig, cancelAt: Option<nat>, s: Session, t: Session,
                                                   its: seq<Iteration>, carry: nat)
    requires SameButPins(s, t, carry)
    ensures var a := RunFrom(cfg, cancelAt, s, its);
            var b := RunFrom(cfg, cancelAt, t, Without(cfg, cancelAt, s, its, BindsNothing, carry));
            a.outcome == b.outcome && a.disk == b.disk && b.events == []
    decreases |its|
  {
    hide Exchange;
    hide Server.Step;
    if s.outcome.None? && its != [] {
      var next := Server.Step(cfg, cancelAt, s, its[0]);
      if Serves(cfg, cancelAt, s, its[0]) && BindsNothing(ResultOf(ReplyAt(cfg, s, its[0]))) {
        UnboundStep(cfg, cancelAt, s, its[0]);
        UnboundPeersCannotSteer(cfg, cancelAt, next, t, its[1..], carry + Elapsed(s, next));
      } else {
        BindingStep(cfg, cancelAt, s, t, its[0], carry);
        var kept := its[0].(lag := its[0].lag + carry);
        var rest := Without(cfg, cancelAt, next, its[1..], BindsNothing, 0);
        UnboundPeersCannotSteer(cfg, cancelAt, next, Server.Step(cfg, cancelAt, t, kept), its[1..], 0);
        assert ([kept] + rest)[0] == kept && ([kept] + rest)[1..] == rest;
      }
    }
  }

  /** From any live state, reached through any peers: an honest client that has the token, or the PIN
      while it is live, and that is prompt and confirmed ends the session enrolled. */
  lemma HonestClientEndsSession(cfg: SessionConfig, cancelAt: Option<nat>, s: Session, it: Iteration, c: Applicant,
                                a1: seq<Arrival>, a2: seq<Arrival>)
    requires s.outcome.None? && Serves(cfg, cancelAt, s, it) && ReadExisting(s.disk).Ok?
    requires Honest(cfg, c, s.pinRetired) && Prompt(cfg, it.accept.env, c, a1, a2, s.now + it.lag)
    ensures var t := Server.Step(cfg, cancelAt, s, it);
            && t.outcome.Some? && t.outcome.value.Bound?
            && t.outcome.value.device == c.request.device
            && t.outcome.value.acknowledged == it.accept.env.doneWrite.ok
  {
    hide Enrolments;
    hide Wanted;
    hide Fields;
    hide ResultOf;
    hide Exchange;
    hide Server.Step;
    hide Honest;
    hide Prompt;
    hide ReadExisting;
    assert it.accept.Connection?;
    hide Serves;
    ServedStep(cfg, cancelAt, s, it);
    HonestClientIsEnrolled(cfg, s.pinRetired, it.accept.env, s.now + it.lag, s.disk, c, a1, a2);
    hide Without;
  }
}
