/** How long a peer can hold the server, and what retiring the PIN changes. */
module PeerLimits {
  import opened Wrappers
  import opened Numbers
  import opened Bytes
  import opened Seqs
  import opened Text
  import opened AuthKeys
  import opened Frame
  import opened Stream
  import opened Framing
  import opened Server
  import opened Conversation

  // -- one window --

  /** INTRO and HELLO were heard within the window they share. ENROLL was heard within its own, which
      runs from the clock reading after the accepted proof, or at once when that was over. */
  ghost predicate InWindow(log: seq<Effect>, i: nat, window: nat, deadline: nat)
    requires i < |log|
  {
    log[i].Heard? ==>
      if log[i].stage.Enroll? then
        && i >= 3 && IsAccepted(log[i - 3]) && log[i - 2].ClockRead?
        && log[i].at <= Max(log[i].from, Min(log[i - 2].at + 120000, deadline))
      else log[i].at <= window
  }

  ghost predicate AllInWindow(log: seq<Effect>, window: nat, deadline: nat) {
    forall i :: 0 <= i < |log| ==> InWindow(log, i, window, deadline)
  }

  lemma WindowAfter(head: seq<Effect>, tail: seq<Effect>, window: nat, deadline: nat)
    requires AllInWindow(head, window, deadline) && AllInWindow(tail, window, deadline)
    ensures AllInWindow(head + tail, window, deadline)
  {
    forall i | 0 <= i < |head + tail|
      ensures InWindow(head + tail, i, window, deadline)
    {
      if i < |head| {
        assert InWindow(head, i, window, deadline);
      } else {
        assert InWindow(tail, i - |head|, window, deadline);
      }
    }
  }

  ghost predicate NoProof(log: seq<Effect>) {
    forall i :: 0 <= i < |log| ==> !IsAccepted(log[i])
  }

  lemma HelloTime(cfg: SessionConfig, retired: bool, epub: seq<byte>, mode: string, chan: ChannelState, frame: Wire,
                  env: ConnEnv, now: nat)
    ensures var r := OnHello(cfg, retired, epub, mode, chan, frame, env, now);
            && now <= r.now
            && (r.phase.Offered? ==>
                  && |r.log| == 3 && IsAccepted(r.log[0]) && r.log[1].ClockRead? && r.log[2].Sealed?
                  && r.phase.deadline == Min(r.log[1].at + POSTAUTH_TIMEOUT, cfg.deadline))
            && (NoProof(r.log) ==> r.phase.Closed? && r.now <= now + env.doneWrite.cost)
  {
    hide OpenHello;
    hide OfferValue;
    hide DoneErr;
    hide SealS2C;
    var r := OnHello(cfg, retired, epub, mode, chan, frame, env, now);
    assert r.phase.Offered? || r.phase == Closed(Err(Io)) ==> r.log == [] || IsAccepted(r.log[0]);
  }

  lemma EnrollTime(cfg: SessionConfig, chan: ChannelState, frame: Wire, env: ConnEnv, now: nat, disk: Disk)
    ensures now <= OnEnroll(cfg, chan, frame, env, now, disk).now
  {
    hide OpenEnroll;
    hide EnsureDisk;
    hide Contains;
    hide Trim;
    hide Fields;
    hide BindComment;
    hide DoneErr;
    hide DoneOk;
    hide SealS2C;
  }

  lemma AfterHelloTime(cfg: SessionConfig, ch: ChannelState, postauth: nat, env: ConnEnv, p: Peer, disk: Disk)
    ensures var r := AfterHello(cfg, ch, postauth, env, p, disk);
            && p.now <= r.now && r.log != []
            && r.log[0].Heard? && r.log[0].stage.Enroll? && r.log[0].from == p.now
            && r.log[0].at <= Max(p.now, postauth)
            && forall i :: 0 < i < |r.log| ==> !r.log[i].Heard?
  {
    var (enroll, p3) := ReadFrame(p, postauth);
    ReadFrameEndsBy(p, postauth);
    hide ReadFrame;
    hide OnEnroll;
    if enroll.Ok? {
      EnrollTime(cfg, ch, cfg.lib.wire(enroll.value), env, p3.now, disk);
      EnrollFacts(cfg, ch, cfg.lib.wire(enroll.value), env, p3.now, disk);
      hide Truthful;
    }
  }

  /** The offered HELLO and what follows it, together within their windows. */
  lemma OfferedWindow(hello: seq<Effect>, rest: seq<Effect>, postauth: nat, window: nat, deadline: nat)
    requires |hello| == 3 && IsAccepted(hello[0]) && hello[1].ClockRead? && hello[2].Sealed?
    requires postauth == Min(hello[1].at + POSTAUTH_TIMEOUT, deadline)
    requires rest != [] && rest[0].Heard? && rest[0].stage.Enroll? && rest[0].at <= Max(rest[0].from, postauth)
    requires forall i :: 0 < i < |rest| ==> !rest[i].Heard?
    ensures AllInWindow(hello + rest, window, deadline)
  {
    var log := hello + rest;
    assert forall i :: 0 <= i < |log| ==> log[i] == if i < 3 then hello[i] else rest[i - 3];
  }

  lemma AfterIntroTime(cfg: SessionConfig, retired: bool, epub: seq<byte>, mode: string, chan: ChannelState,
                       env: ConnEnv, p1: Peer, preauth: nat, disk: Disk)
    ensures var r := AfterIntro(cfg, retired, epub, mode, chan, env, p1, preauth, disk);
            && p1.now <= r.now && AllInWindow(r.log, Max(p1.now, preauth), cfg.deadline)
            && (NoProof(r.log) ==> r.now <= Max(p1.now, preauth) + env.doneWrite.cost)
  {
    var (hello, p2) := ReadFrame(p1, preauth);
    ReadFrameEndsBy(p1, preauth);
    hide ReadFrame;
    hide OnHello;
    hide AfterHello;
    hide HelloLog;
    var window := Max(p1.now, preauth);
    var heard := [Heard(Hello, p1.now, p2.now)];
    assert AllInWindow(heard, window, cfg.deadline);
    if hello.Ok? {
      var frame := cfg.lib.wire(hello.value);
      var reply := OnHello(cfg, retired, epub, mode, chan, frame, env, p2.now);
      HelloTime(cfg, retired, epub, mode, chan, frame, env, p2.now);
      NoProofInTail(heard, reply.log);
      match reply.phase {
        case Closed(_) =>
          HelloHearsNothing(cfg, retired, epub, mode, chan, frame, env, p2.now, window);
          hide AllInWindow;
          WindowAfter(heard, reply.log, window, cfg.deadline);
        case Offered(ch, postauth) =>
          var last := AfterHello(cfg, ch, postauth, env, Peer(p2.pending, reply.now), disk);
          AfterHelloTime(cfg, ch, postauth, env, Peer(p2.pending, reply.now), disk);
          OfferedWindow(reply.log, last.log, postauth, window, cfg.deadline);
          hide AllInWindow;
          WindowAfter(heard, reply.log + last.log, window, cfg.deadline);
          Assoc(heard, reply.log, last.log);
          assert (heard + reply.log + last.log)[1] == reply.log[0];
      }
    }
  }

  lemma HelloHearsNothing(cfg: SessionConfig, retired: bool, epub: seq<byte>, mode: string, chan: ChannelState,
                          frame: Wire, env: ConnEnv, now: nat, window: nat)
    ensures AllInWindow(OnHello(cfg, retired, epub, mode, chan, frame, env, now).log, window, cfg.deadline)
  {
    hide OnHello;
    hide Bodies;
    hide Enrolments;
    hide WrongPins;
    hide OfferValue;
    HelloFacts(cfg, retired, epub, mode, chan, frame, env, now);
  }

  lemma NoProofInTail(head: seq<Effect>, tail: seq<Effect>)
    ensures NoProof(head + tail) ==> NoProof(tail)
  {
    forall i | NoProof(head + tail) && 0 <= i < |tail|
      ensures !IsAccepted(tail[i])
    {
      assert (head + tail)[|head| + i] == tail[i];
    }
  }

  /** However a peer paces and cuts its bytes, INTRO and HELLO together end by five seconds after the
      start or by the offer's deadline, ENROLL by two minutes after the accepted proof or by the offer's
      deadline, and a peer without an accepted proof holds the server no longer than the first window
      and one refusal. */
  lemma OneWindowPerPeer(cfg: SessionConfig, retired: bool, env: ConnEnv, now: nat, disk: Disk)
    ensures var start := now + env.startLag;
            var window := Max(start, Min(start + 5000, cfg.deadline));
            var r := Exchange(cfg, retired, env, now, disk);
            && start <= r.now
            && AllInWindow(r.log, window, cfg.deadline)
            && (NoProof(r.log) ==> r.now <= window + env.doneWrite.cost)
  {
    hide ReadFrame;
    hide OnIntro;
    hide AfterIntro;
    hide InWindow;
    hide AllInWindow;
    var start := now + env.startLag;
    var preauth := PhaseDeadline(cfg, start, PREAUTH_TIMEOUT);
    var window := Max(start, preauth);
    var (intro, p1) := ReadFrame(Peer(env.arrivals, start), preauth);
    ReadFrameEndsBy(Peer(env.arrivals, start), preauth);
    var heard := [ClockRead(start), Heard(Intro, start, p1.now)];
    IntroWindow(start, p1.now, window, cfg.deadline);
    if intro.Ok? {
      match OnIntro(cfg, cfg.lib.wire(intro.value)) {
        case Rejected(_) =>
        case Greeted(epub, mode, chan) =>
          var rest := AfterIntro(cfg, retired, epub, mode, chan, env, p1, preauth, disk);
          AfterIntroTime(cfg, retired, epub, mode, chan, env, p1, preauth, disk);
          SameWindow(start, p1.now, preauth);
          WindowAfter(heard, rest.log, window, cfg.deadline);
          NoProofInTail(heard, rest.log);
      }
    }
  }

  lemma IntroWindow(start: nat, at: nat, window: nat, deadline: nat)
    requires at <= window
    ensures AllInWindow([ClockRead(start), Heard(Intro, start, at)], window, deadline)
  {
  }

  lemma SameWindow(start: nat, now: nat, preauth: nat)
    requires start <= now <= Max(start, preauth)
    ensures Max(now, preauth) == Max(start, preauth)
  {
  }

  // -- a retired PIN --

  ghost predicate NoPinChecked(log: seq<Effect>) {
    forall i :: 0 <= i < |log| ==> !log[i].PinChecked?
  }

  /** The answer to any PIN once it is retired. */
  ghost predicate PinRefused(before: Disk, r: EnrollReply) {
    ResultOf(r) == Ignore && r.disk == before && Bodies(r.log) == [DoneErr("pin retired for this offer")]
  }

  lemma HelloRetired(cfg: SessionConfig, epub: seq<byte>, mode: string, chan: ChannelState, frame: Wire, env: ConnEnv,
                     now: nat)
    ensures var live := OnHello(cfg, false, epub, mode, chan, frame, env, now);
            var late := OnHello(cfg, true, epub, mode, chan, frame, env, now);
            && (NoPinChecked(live.log) ==> late == live)
            && (!NoPinChecked(live.log) ==>
                  && late.phase == Closed(Ok(Ignore))
                  && NoPinChecked(late.log)
                  && Bodies(late.log) == [DoneErr("pin retired for this offer")])
  {
    var live := OnHello(cfg, false, epub, mode, chan, frame, env, now);
    var late := OnHello(cfg, true, epub, mode, chan, frame, env, now);
    hide OfferValue;
    hide DoneErr;
    hide SealS2C;
    hide PhaseDeadline;
    if OpenHello(chan, frame).Ok? && mode == "pin" {
      hide OpenHello;
      assert live.log[0].PinChecked?;
      SealedOnly(late.log[0]);
    }
    hide OpenHello;
    hide Bodies;
  }

  lemma AfterIntroRetired(cfg: SessionConfig, epub: seq<byte>, mode: string, chan: ChannelState, env: ConnEnv, p1: Peer,
                          preauth: nat, disk: Disk)
    ensures var live := AfterIntro(cfg, false, epub, mode, chan, env, p1, preauth, disk);
            var late := AfterIntro(cfg, true, epub, mode, chan, env, p1, preauth, disk);
            && (NoPinChecked(live.log) ==> late == live)
            && (!NoPinChecked(live.log) ==> PinRefused(disk, late))
  {
    hide ReadFrame;
    hide OnHello;
    hide AfterHello;
    hide DoneErr;
    var (hello, p2) := ReadFrame(p1, preauth);
    if hello.Ok? {
      var frame := cfg.lib.wire(hello.value);
      var heard := [Heard(Hello, p1.now, p2.now)];
      var live := OnHello(cfg, false, epub, mode, chan, frame, env, p2.now);
      var late := OnHello(cfg, true, epub, mode, chan, frame, env, p2.now);
      HelloRetired(cfg, epub, mode, chan, frame, env, p2.now);
      SilentPrefix(heard, late.log);
      hide Bodies;
      hide Enrolments;
      hide WrongPins;
      match live.phase {
        case Closed(_) =>
          PinsInTail(heard, live.log);
        case Offered(ch, postauth) =>
          var last := AfterHello(cfg, ch, postauth, env, Peer(p2.pending, live.now), disk);
          AfterHelloFacts(cfg, ch, postauth, env, Peer(p2.pending, live.now), disk);
          hide Truthful;
          PinsInTail(heard, live.log);
          PinsInHead(heard + live.log, last.log);
      }
    }
  }

  lemma PinsInTail(head: seq<Effect>, tail: seq<Effect>)
    requires NoPinChecked(head)
    ensures NoPinChecked(head + tail) <==> NoPinChecked(tail)
  {
    forall i | NoPinChecked(head + tail) && 0 <= i < |tail|
      ensures !tail[i].PinChecked?
    {
      assert (head + tail)[|head| + i] == tail[i];
    }
  }

  lemma PinsInHead(head: seq<Effect>, tail: seq<Effect>)
    requires NoPinChecked(tail)
    ensures NoPinChecked(head + tail) <==> NoPinChecked(head)
  {
    forall i | NoPinChecked(head + tail) && 0 <= i < |head|
      ensures !head[i].PinChecked?
    {
      assert (head + tail)[i] == head[i];
    }
  }

  lemma RetiredSeesNoPin(cfg: SessionConfig, env: ConnEnv, now: nat, disk: Disk)
    ensures NoPinChecked(Exchange(cfg, true, env, now, disk).log)
  {
    ConnectionFacts(cfg, true, env, now, disk);
    hide Exchange;
    hide Guarded;
    hide Accounted;
  }

  lemma RefusedAfter(head: seq<Effect>, live: EnrollReply, late: EnrollReply, disk: Disk)
    requires forall i :: 0 <= i < |head| ==> Listening(head[i])
    requires NoPinChecked(live.log) ==> late == live
    requires !NoPinChecked(live.log) ==> PinRefused(disk, late)
    ensures NoPinChecked(After(head, live).log) ==> After(head, late) == After(head, live)
    ensures !NoPinChecked(After(head, live).log) ==> PinRefused(disk, After(head, late))
  {
    PinsInTail(head, live.log);
    SilentPrefix(head, late.log);
    hide Bodies;
    hide Enrolments;
    hide WrongPins;
    hide DoneErr;
  }

  /** Retiring the PIN leaves a connection alone exactly when it never came to a PIN comparison;
      one that would have is refused instead, right PIN or not. */
  lemma RetirementOnlyStopsPins(cfg: SessionConfig, env: ConnEnv, now: nat, disk: Disk)
    ensures var live := Exchange(cfg, false, env, now, disk);
            var late := Exchange(cfg, true, env, now, disk);
            && (NoPinChecked(live.log) <==> late == live)
            && (!NoPinChecked(live.log) ==> PinRefused(disk, late))
  {
    RetiredSeesNoPin(cfg, env, now, disk);
    hide NoPinChecked;
    hide PinRefused;
    hide ReadFrame;
    hide OnIntro;
    hide AfterIntro;
    var start := now + env.startLag;
    var preauth := PhaseDeadline(cfg, start, PREAUTH_TIMEOUT);
    var (intro, p1) := ReadFrame(Peer(env.arrivals, start), preauth);
    if intro.Ok? && OnIntro(cfg, cfg.lib.wire(intro.value)).Greeted? {
      var hello := OnIntro(cfg, cfg.lib.wire(intro.value));
      var head := [ClockRead(start), Heard(Intro, start, p1.now)];
      var live := AfterIntro(cfg, false, hello.epub, hello.mode, hello.chan, env, p1, preauth, disk);
      var late := AfterIntro(cfg, true, hello.epub, hello.mode, hello.chan, env, p1, preauth, disk);
      AfterIntroRetired(cfg, hello.epub, hello.mode, hello.chan, env, p1, preauth, disk);
      RefusedAfter(head, live, late, disk);
    }
  }
}
