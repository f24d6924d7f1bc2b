/** That agreement is not agreement about nothing: an honest client and a willing server do get
    through to the receipt. */
module Completion {
  import opened Wrappers
  import opened Text
  import opened AuthKeys
  import opened Frame
  import opened Server
  import opened Conversation
  import opened HonestClient
  import opened Agreement

  /** A net seen from the client: where it stands and the numbers it uses next. */
  ghost predicate ClientAt(cfg: SessionConfig, n: Net, c: Applicant, stage: ClientStage, up: u64, down: u64) {
    && n.client.epub == c.epub && n.client.hello == c.hello && n.client.enroll == c.enroll
    && n.client.stage == stage
    && n.client.chan == ChannelFor(cfg, c.epub).(seqC2S := up, seqS2C := down)
  }

  function UpWire(cfg: SessionConfig, c: Applicant, number: u64, body: Value): Wire {
    Box(ChannelFor(cfg, c.epub).c2s, Nonce(number), Encoded(body))
  }

  function DownWire(cfg: SessionConfig, c: Applicant, number: u64, body: Value): Wire {
    Box(ChannelFor(cfg, c.epub).s2c, Nonce(number), Encoded(body))
  }

  lemma ConsRun(cfg: SessionConfig, n: Net, act: Act, rest: seq<Act>)
    requires Possible(n, act) && PossibleRun(cfg, NetStep(cfg, n, act), rest)
    ensures PossibleRun(cfg, n, [act] + rest)
    ensures NetRun(cfg, n, [act] + rest) == NetRun(cfg, NetStep(cfg, n, act), rest)
  {
    assert ([act] + rest)[0] == act && ([act] + rest)[1..] == rest;
    hide NetStep;
    hide Possible;
  }

  /** The server answers an accepted proof with the offer, and waits for ENROLL on the next numbers. */
  lemma OfferGoesOut(cfg: SessionConfig, n: Net, c: Applicant, retired: bool, env: ConnEnv, now: nat)
    requires n.fact.None? && n.server == AwaitsHello(c.epub, c.mode, ChannelFor(cfg, c.epub))
    requires GoodProof(cfg, c, retired) && env.offerWrite.ok
    ensures var t := NetStep(cfg, n, ServerHears(UpWire(cfg, c, 0, c.hello), retired, env, now));
            && t == n.(server := t.server, air := t.air)
            && t.server == AwaitsEnroll(c.epub, ChannelFor(cfg, c.epub).(seqC2S := 1, seqS2C := 1))
            && DownWire(cfg, c, 0, OfferValue(cfg.offer)) in t.air
  {
    hide Nonce;
    hide OfferValue;
    hide GetBytes;
    hide PhaseDeadline;
    var chan, wire := ChannelFor(cfg, c.epub), UpWire(cfg, c, 0, c.hello);
    var ch := chan.(seqC2S := 1);
    assert OpenHello(chan, wire) == Ok((GetBytes(c.hello, "proof").value, ch));
    hide OpenHello;
    var r := OnHello(cfg, retired, c.epub, c.mode, chan, wire, env, now);
    var check := if c.mode == "token" then TokenChecked(true) else PinChecked(true);
    assert r == SendOffer(cfg, ch, env, now, check);
    hide OnHello;
    assert r.log[2] in r.log && r.log[2].box == DownWire(cfg, c, 0, OfferValue(cfg.offer));
  }

  lemma OfferIsAnswered(cfg: SessionConfig, n: Net, c: Applicant)
    requires ClientAt(cfg, n, c, AwaitsOffer, 1, 0)
    ensures var t := NetStep(cfg, n, ClientHears(DownWire(cfg, c, 0, OfferValue(cfg.offer))));
            && t == n.(client := t.client, air := t.air)
            && ClientAt(cfg, t, c, AwaitsDone, 2, 1)
            && UpWire(cfg, c, 1, c.enroll) in t.air
  {
    hide Nonce;
    MessagesApart(cfg.offer, Bool(true));
    hide OfferValue;
    hide GetText;
    hide MapGet;
  }

  /** What the server does with a willing client's ENROLL. */
  lemma ReceiptGoesOut(cfg: SessionConfig, n: Net, c: Applicant, retired: bool, env: ConnEnv, now: nat)
    requires n.fact.None? && n.server == AwaitsEnroll(c.epub, ChannelFor(cfg, c.epub).(seqC2S := 1, seqS2C := 1))
    requires Enrollable(cfg, c, env, now, n.disk)
    ensures var t := NetStep(cfg, n, ServerHears(UpWire(cfg, c, 1, c.enroll), retired, env, now));
            && t == n.(server := Idle, air := t.air, disk := t.disk, fact := t.fact)
            && t.fact.Some?
            && DownWire(cfg, c, 1, DoneOk(t.fact.value.comment)) in t.air
  {
    hide Nonce;
    hide OfferValue;
    hide DoneOk;
    hide GetText;
    hide Trim;
    hide Contains;
    hide Fields;
    hide RequestIn;
    hide OnEnroll;
    var chan, wire := ChannelFor(cfg, c.epub).(seqC2S := 1, seqS2C := 1), UpWire(cfg, c, 1, c.enroll);
    var r := OnEnroll(cfg, chan, wire, env, now, n.disk);
    EnrollAccepted(cfg, c, chan, wire, env, now, n.disk);
    EnrollFacts(cfg, chan, wire, env, now, n.disk);
    EnrollBoxes(cfg, chan, wire, env, now, n.disk);
    OpensRequest(c, chan, wire);
    hide OpenEnroll;
    hide Wrote;
    hide Enrolments;
    hide EnrollLog;
    OneBodyIsBoxed(r.log, DoneOk(ResultOf(r).comment), chan);
    hide Bodies;
    hide BoxedAt;
  }

  lemma {:induction false} OneBodyIsBoxed(log: seq<Effect>, body: Value, ch: ChannelState)
    requires body in Bodies(log) && BoxedAt(log, ch)
    ensures Box(ch.s2c, Nonce(ch.seqS2C), Encoded(body)) in SealedBoxes(log)
  {
    hide Nonce;
    if log[0].Sealed? && log[0].body == body {
      assert log[0] in log;
    } else {
      OneBodyIsBoxed(log[1..], body, ch);
      var e :| e in log[1..] && e.Sealed? && e.box == Box(ch.s2c, Nonce(ch.seqS2C), Encoded(body));
      assert e in log;
    }
  }

  /** A vetted request the operator confirms in time, and a file that can be read and replaced. */
  ghost predicate Enrollable(cfg: SessionConfig, c: Applicant, env: ConnEnv, now: nat, disk: Disk) {
    && Vetted(cfg, c)
    && now + env.checkLag + env.answerTime < cfg.deadline && env.answer && !env.storeFault
    && ReadExisting(disk).Ok?
  }

  lemma ReceiptIsOpened(cfg: SessionConfig, n: Net, c: Applicant, comment: string)
    requires ClientAt(cfg, n, c, AwaitsDone, 2, 1)
    ensures NetStep(cfg, n, ClientHears(DownWire(cfg, c, 1, DoneOk(comment)))).client.stage == HasReceipt(comment)
  {
    hide Nonce;
    ReceiptReads(comment);
    assert MapGet(DoneOk(comment), "ok") == Some(Bool(true));
    hide DoneOk;
    hide GetText;
    hide MapGet;
  }

  /** For every honest client whose request is vetted, confirmed and stored there is a run, with the
      network only delivering, in which the client ends with the receipt. */
  lemma ReceiptIsReachable(cfg: SessionConfig, c: Applicant, intro: Wire, retired: bool, env: ConnEnv, now: nat,
                           disk: Disk)
    returns (acts: seq<Act>)
    requires OnIntro(cfg, intro) == Greeted(c.epub, c.mode, ChannelFor(cfg, c.epub))
    requires GoodProof(cfg, c, retired) && env.offerWrite.ok
    requires Enrollable(cfg, c, env, now, disk)
    ensures PossibleRun(cfg, StartNet(cfg, c.epub, c.hello, c.enroll, disk), acts)
    ensures NetRun(cfg, StartNet(cfg, c.epub, c.hello, c.enroll, disk), acts).client.stage.HasReceipt?
  {
    hide Nonce;
    hide OnHello;
    hide OnEnroll;
    hide Version;
    assert intro.Clear?;
    hide OnIntro;
    hide Enrollable;
    hide GetBytes;
    hide GetText;
    hide MapGet;
    hide OfferValue;
    hide DoneOk;
    hide ServerStep;
    hide ClientStep;
    var n0 := StartNet(cfg, c.epub, c.hello, c.enroll, disk);
    var n1 := NetStep(cfg, n0, ClientSendsHello);
    var n2 := NetStep(cfg, n1, ServerAccepts(intro));
    assert ClientAt(cfg, n2, c, AwaitsOffer, 1, 0) && UpWire(cfg, c, 0, c.hello) in n2.air;
    assert n2.disk == disk && n2.server == AwaitsHello(c.epub, c.mode, ChannelFor(cfg, c.epub)) && n2.fact.None?;
    assert Possible(n0, ClientSendsHello) && Possible(n1, ServerAccepts(intro));
    hide NetStep;
    hide StartNet;
    var last := FromHelloOn(cfg, n2, c, retired, env, now);
    ConsRun(cfg, n1, ServerAccepts(intro), last);
    ConsRun(cfg, n0, ClientSendsHello, [ServerAccepts(intro)] + last);
    acts := [ClientSendsHello] + ([ServerAccepts(intro)] + last);
  }

  lemma FromHelloOn(cfg: SessionConfig, n2: Net, c: Applicant, retired: bool, env: ConnEnv, now: nat)
    returns (acts: seq<Act>)
    requires ClientAt(cfg, n2, c, AwaitsOffer, 1, 0) && UpWire(cfg, c, 0, c.hello) in n2.air && n2.fact.None?
    requires n2.server == AwaitsHello(c.epub, c.mode, ChannelFor(cfg, c.epub))
    requires GoodProof(cfg, c, retired) && env.offerWrite.ok
    requires Enrollable(cfg, c, env, now, n2.disk)
    ensures PossibleRun(cfg, n2, acts) && NetRun(cfg, n2, acts).client.stage.HasReceipt?
  {
    hide NetStep;
    hide Enrollable;
    hide Nonce;
    hide GetBytes;
    hide OfferValue;
    hide DoneOk;
    var hello := ServerHears(UpWire(cfg, c, 0, c.hello), retired, env, now);
    var n3 := NetStep(cfg, n2, hello);
    OfferGoesOut(cfg, n2, c, retired, env, now);
    var offer := ClientHears(DownWire(cfg, c, 0, OfferValue(cfg.offer)));
    var n4 := NetStep(cfg, n3, offer);
    OfferIsAnswered(cfg, n3, c);
    var enroll := ServerHears(UpWire(cfg, c, 1, c.enroll), retired, env, now);
    var n5 := NetStep(cfg, n4, enroll);
    ReceiptGoesOut(cfg, n4, c, retired, env, now);
    var done := ClientHears(DownWire(cfg, c, 1, DoneOk(n5.fact.value.comment)));
    ReceiptIsOpened(cfg, n5, c, n5.fact.value.comment);
    ConsRun(cfg, n5, done, []);
    ConsRun(cfg, n4, enroll, [done] + []);
    ConsRun(cfg, n3, offer, [enroll] + ([done] + []));
    ConsRun(cfg, n2, hello, [offer] + ([enroll] + ([done] + [])));
    acts := [hello] + ([offer] + ([enroll] + ([done] + [])));
  }
}
