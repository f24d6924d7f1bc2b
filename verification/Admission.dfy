/** Nobody is made the offer or enrolled on a key, anywhere in a run, without a HELLO delivered under
    that very key that carries the token, or while the PIN is live its proof for the key. */
module Admission {
  import opened Wrappers
  import opened Bytes
  import opened AuthKeys
  import opened Frame
  import opened Server
  import opened Conversation
  import opened Agreement

  /** The server has let the key in: it awaits its ENROLL, has enrolled on it, or has sealed it the offer. */
  ghost predicate Admitted(cfg: SessionConfig, n: Net, x: seq<byte>) {
    || (n.server.AwaitsEnroll? && n.server.epub == x)
    || (n.fact.Some? && n.fact.value.epub == x)
    || OfferBox(cfg, x) in n.air
  }

  function OfferBox(cfg: SessionConfig, x: seq<byte>): Wire {
    Box(ChannelFor(cfg, x).s2c, Nonce(0), Encoded(OfferValue(cfg.offer)))
  }

  /** The act delivers a HELLO under the key with a proof that counts at that time. */
  ghost predicate Proving(cfg: SessionConfig, act: Act, x: seq<byte>) {
    act.ServerHears? && exists mode :: ProvenHello(cfg, act.retired, x, mode, ChannelFor(cfg, x), act.wire)
  }

  /** What such a HELLO is: the first box under the client's key, sealed around the proof. */
  lemma ProvingIsSealed(cfg: SessionConfig, act: Act, x: seq<byte>)
    requires Proving(cfg, act, x)
    ensures act.wire.Box? && act.wire.key == ChannelFor(cfg, x).c2s && act.wire.nonce == Nonce(0)
    ensures act.wire.plain.Encoded?
    ensures var proof := GetBytes(act.wire.plain.value, "proof");
            proof.Some? && exists mode :: Proves(cfg, act.retired, x, mode, proof.value)
  {
    hide Nonce;
    hide GetBytes;
    var mode :| ProvenHello(cfg, act.retired, x, mode, ChannelFor(cfg, x), act.wire);
  }

  lemma OfferedBoxes(cfg: SessionConfig, log: seq<Effect>, ch: ChannelState, x: seq<byte>)
    requires BoxedAt(log, ch) && OfferBox(cfg, x) in SealedBoxes(log)
    ensures OfferValue(cfg.offer) in Bodies(log) && ch.s2c == ChannelFor(cfg, x).s2c && Nonce(ch.seqS2C) == Nonce(0)
  {
    hide Nonce;
    hide OfferValue;
    hide Bodies;
    var e :| e in log && e.Sealed? && e.box == OfferBox(cfg, x);
    var i :| 0 <= i < |log| && log[i] == e;
    BodyIsListed(log, i);
  }

  lemma HelloAdmits(cfg: SessionConfig, n: Net, wire: Wire, retired: bool, env: ConnEnv, now: nat, x: seq<byte>)
    requires ServerSound(cfg, n.server) && n.server.AwaitsHello? && !Admitted(cfg, n, x)
    requires Admitted(cfg, ServerStep(cfg, n, wire, retired, env, now), x)
    ensures Proving(cfg, ServerHears(wire, retired, env, now), x)
  {
    hide OnHello;
    hide ProvenHello;
    hide Nonce;
    hide OfferValue;
    hide Bodies;
    hide BoxedAt;
    hide SealedBoxes;
    var y, mode := n.server.epub, n.server.mode;
    var chan := ChannelFor(cfg, y);
    var r := OnHello(cfg, retired, y, mode, chan, wire, env, now);
    OfferIsForProof(cfg, retired, y, mode, chan, wire, env, now);
    HelloBoxes(cfg, retired, y, mode, chan, wire, env, now);
    KeysApart(cfg, x, y);
    if OfferBox(cfg, x) in SealedBoxes(r.log) {
      OfferedBoxes(cfg, r.log, chan, x);
    }
    assert ProvenHello(cfg, retired, x, mode, ChannelFor(cfg, x), wire);
  }

  lemma EnrollAdmitsNobody(cfg: SessionConfig, n: Net, wire: Wire, retired: bool, env: ConnEnv, now: nat, x: seq<byte>)
    requires ServerSound(cfg, n.server) && n.server.AwaitsEnroll? && n.fact.None? && !Admitted(cfg, n, x)
    ensures !Admitted(cfg, ServerStep(cfg, n, wire, retired, env, now), x)
  {
    hide OnEnroll;
    hide OpenEnroll;
    hide Enrolments;
    hide Nonce;
    hide OfferValue;
    hide Bodies;
    hide BoxedAt;
    hide SealedBoxes;
    var r := OnEnroll(cfg, n.server.chan, wire, env, now, n.disk);
    EnrollBoxes(cfg, n.server.chan, wire, env, now, n.disk);
    NoncesApart();
    if OfferBox(cfg, x) in SealedBoxes(r.log) {
      OfferedBoxes(cfg, r.log, n.server.chan, x);
    }
  }

  lemma ClientAdmitsNobody(cfg: SessionConfig, n: Net, act: Act, x: seq<byte>)
    requires Sound(cfg, n) && !Admitted(cfg, n, x) && (act.ClientSendsHello? || act.ClientHears?)
    ensures !Admitted(cfg, NetStep(cfg, n, act), x)
  {
    hide Nonce;
    hide GetText;
    hide MapGet;
    hide UpBox;
    hide DownBox;
    hide FactSound;
    hide ServerSound;
    hide OfferValue;
    hide DoneOk;
    KeysApart(cfg, n.client.epub, x);
    var t := NetStep(cfg, n, act);
    assert forall w :: w in t.air && w !in n.air ==> w.Box? && w.key == n.client.chan.c2s;
  }

  lemma StepAdmits(cfg: SessionConfig, n: Net, act: Act, x: seq<byte>)
    requires Sound(cfg, n) && !Admitted(cfg, n, x) && Admitted(cfg, NetStep(cfg, n, act), x)
    ensures Proving(cfg, act, x)
  {
    hide OnIntro;
    hide OfferBox;
    hide Proving;
    match act
    case ClientSendsHello => ClientAdmitsNobody(cfg, n, act, x);
    case ClientHears(_) => ClientAdmitsNobody(cfg, n, act, x);
    case ServerAccepts(_) =>
    case ServerDrops =>
    case ServerHears(wire, retired, env, now) =>
      if n.fact.None? && n.server.AwaitsHello? {
        hide ServerStep;
        HelloAdmits(cfg, n, wire, retired, env, now, x);
      } else if n.fact.None? && n.server.AwaitsEnroll? {
        hide ServerStep;
        EnrollAdmitsNobody(cfg, n, wire, retired, env, now, x);
      }
  }

  lemma {:induction false} RunAdmits(cfg: SessionConfig, n: Net, acts: seq<Act>, x: seq<byte>)
    requires Sound(cfg, n) && PossibleRun(cfg, n, acts)
    requires !Admitted(cfg, n, x) && Admitted(cfg, NetRun(cfg, n, acts), x)
    ensures exists k :: 0 <= k < |acts| && Proving(cfg, acts[k], x)
    decreases |acts|
  {
    hide Sound;
    hide NetStep;
    hide Possible;
    hide Admitted;
    hide Proving;
    if acts != [] {
      var next := NetStep(cfg, n, acts[0]);
      StepKeeps(cfg, n, acts[0]);
      if Admitted(cfg, next, x) {
        StepAdmits(cfg, n, acts[0], x);
      } else {
        RunAdmits(cfg, next, acts[1..], x);
        var k :| 0 <= k < |acts[1..]| && Proving(cfg, acts[1..][k], x);
        assert acts[k + 1] == acts[1..][k];
      }
    }
  }

  /** Over every run with a hostile network and for every key: an offer sealed to it, or an enrolment
      on it, means that a proving HELLO under that key was delivered. */
  lemma NobodyEntersUnproven(cfg: SessionConfig, epub: seq<byte>, hello: Value, enroll: Value, disk: Disk,
                             acts: seq<Act>, x: seq<byte>)
    requires PossibleRun(cfg, StartNet(cfg, epub, hello, enroll, disk), acts)
    requires Admitted(cfg, NetRun(cfg, StartNet(cfg, epub, hello, enroll, disk), acts), x)
    ensures exists k :: 0 <= k < |acts| && Proving(cfg, acts[k], x)
  {
    StartIsSound(cfg, epub, hello, enroll, disk);
    hide NetRun;
    hide PossibleRun;
    hide Proving;
    RunAdmits(cfg, StartNet(cfg, epub, hello, enroll, disk), acts, x);
  }
}
