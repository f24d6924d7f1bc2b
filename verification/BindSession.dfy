/** The session as `src/server.rs` runs it, step by step over mutable state, against the functions
    of module Server. */
module BindSession {
  import opened Wrappers
  import opened Bytes
  import opened Text
  import opened Util
  import opened AuthKeys
  import opened Frame
  import opened Stream
  import opened Server

  /** `write_to`: takes its time, and may fail. */
  method WriteTo(clock: Clock, answer: WriteAnswer) returns (ok: bool)
    modifies clock
    ensures ok == answer.ok && clock.now == old(clock.now) + answer.cost
  {
    clock.now := clock.now + answer.cost;
    ok := answer.ok;
  }

  method SendDone(clock: Clock, channel: Channel, body: Value, answer: WriteAnswer) returns (ok: bool,
                  ghost done: Effect)
    modifies clock, channel
    ensures ok == answer.ok && clock.now == old(clock.now) + answer.cost
    ensures done == SealDone(old(channel.State()), body, answer.ok)
  {
    var box := channel.SealToClient(Encoded(body));
    ok := WriteTo(clock, answer);
    done := Sealed(body, box, ok);
  }

  /** Reads INTRO field by field, and derives nothing unless it is sound. */
  method ReadIntro(cfg: SessionConfig, frame: Wire) returns (reply: IntroReply)
    ensures reply == OnIntro(cfg, frame)
  {
    hide MapGet;
    hide GetBytes;
    hide GetText;
    hide ChannelFor;
    var intro := DecodeClear(frame);
    if intro.Err? {
      return Rejected(Err(intro.error));
    }
    var version := 0;
    var v := MapGet(intro.value, "v");
    if v.Some? && v.value.Integer? && 0 <= v.value.n < TWO64 {
      version := v.value.n;
    }
    if version != 1 {
      return Rejected(Ok(Ignore));
    }
    var epub := GetBytes(intro.value, "epub");
    if epub.None? || |epub.value| != 32 {
      return Rejected(Err(Malformed));
    }
    var mode := GetText(intro.value, "mode");
    if mode.None? {
      return Rejected(Err(Malformed));
    }
    if !cfg.lib.contributory(epub.value) {
      return Rejected(Ok(Ignore));
    }
    reply := Greeted(epub.value, mode.value, ChannelFor(cfg, epub.value));
  }

  /** Opens HELLO, checks the proof, and sends the OFFER or the refusal. */
  method ServeHello(cfg: SessionConfig, retired: bool, epub: seq<byte>, mode: string, channel: Channel, frame: Wire,
                    env: ConnEnv, clock: Clock)
    returns (phase: HelloPhase, ghost log: seq<Effect>)
    modifies clock, channel
    ensures HelloReply(phase, clock.now, log)
         == OnHello(cfg, retired, epub, mode, old(channel.State()), frame, env, old(clock.now))
    ensures phase.Offered? ==> phase.chan == channel.State()
  {
    hide OfferValue;
    hide Nonce;
    log := [];
    var plain := channel.OpenFromClient(frame);
    if plain.Err? {
      return Closed(Err(plain.error)), log;
    }
    var hello := DecodePlain(plain.value);
    if hello.Err? {
      return Closed(Err(hello.error)), log;
    }
    var proof := GetBytes(hello.value, "proof");
    if proof.None? {
      return Closed(Err(Malformed)), log;
    }
    var good: bool;
    if mode == "token" {
      good := proof.value == cfg.token;
      log := [TokenChecked(good)];
    } else if mode == "pin" && retired {
      var _, refusal := SendDone(clock, channel, DoneErr("pin retired for this offer"), env.doneWrite);
      return Closed(Ok(Ignore)), [refusal];
    } else if mode == "pin" {
      good := proof.value == cfg.lib.pinProof(cfg.pin, epub, cfg.spub);
      if !good {
        var _, refusal := SendDone(clock, channel, DoneErr("wrong pin"), env.doneWrite);
        return Closed(Ok(PinFailure)), [PinChecked(false), refusal];
      }
      log := [PinChecked(true)];
    } else {
      return Closed(Ok(Ignore)), log;
    }
    if !good {
      return Closed(Ok(Ignore)), log;
    }
    clock.now := clock.now + env.proofLag;
    var postauth := PhaseDeadline(cfg, clock.now, POSTAUTH_TIMEOUT);
    log := log + [ClockRead(clock.now)];
    var body := OfferValue(cfg.offer);
    var box := channel.SealToClient(Encoded(body));
    var ok := WriteTo(clock, env.offerWrite);
    log := log + [Sealed(body, box, ok)];
    phase := if ok then Offered(channel.State(), postauth) else Closed(Err(Io));
  }

  /** The write, and the receipt. */
  method StoreKey(cfg: SessionConfig, channel: Channel, canonical: Option<string>, device: string, env: ConnEnv,
                  clock: Clock, file: KeyFile)
    returns (result: Result<ConnectionResult, FrameError>, ghost log: seq<Effect>)
    modifies clock, channel, file
    ensures EnrollReply(result, clock.now, file.disk, log)
         == Store(cfg, old(channel.State()), canonical, device, env, old(clock.now), old(file.disk))
  {
    hide EnsureDisk;
    hide Fields;
    hide Slug;
    hide Nonce;
    var ok;
    ghost var done;
    if canonical.None? {
      return Err(Malformed), [];
    }
    var fields := Fields(canonical.value);
    if |fields| < 2 {
      return Err(Malformed), [];
    }
    var slug := DeviceSlug(device);
    var comment := cfg.markerId + ":" + slug;
    var outcome := file.EnsureLine(fields[0], fields[1], comment, env.storeFault);
    clock.now := clock.now + env.storeTime;
    log := [Stored(fields[0], fields[1], comment, outcome)];
    match outcome {
      case Err(e) =>
        ok, done := SendDone(clock, channel, DoneErr(StoreError(e)), env.doneWrite);
        return Ok(Ignore), log + [done];
      case Ok(AlreadyPresent(existing)) =>
        comment := existing;
      case Ok(Added) =>
    }
    ok, done := SendDone(clock, channel, DoneOk(comment), env.doneWrite);
    return Ok(Enrolled(device, comment, ok)), log + [done];
  }

  /** The confirmation between two looks at the clock, the write, and the receipt. */
  method ConfirmAndStore(cfg: SessionConfig, channel: Channel, canonical: Option<string>, device: string, env: ConnEnv,
                         clock: Clock, file: KeyFile)
    returns (result: Result<ConnectionResult, FrameError>, ghost log: seq<Effect>)
    modifies clock, channel, file
    ensures EnrollReply(result, clock.now, file.disk, log)
         == Confirm(cfg, old(channel.State()), canonical, device, env, old(clock.now), old(file.disk))
  {
    hide Store;
    hide Nonce;
    var ok;
    ghost var done;
    clock.now := clock.now + env.checkLag;
    log := [ClockRead(clock.now)];
    if clock.now >= cfg.deadline {
      ok, done := SendDone(clock, channel, DoneErr("offer expired"), env.doneWrite);
      return Ok(Ignore), log + [done];
    }
    clock.now := clock.now + env.answerTime;
    log := log + [Asked(device, env.answer)];
    if !env.answer {
      ok, done := SendDone(clock, channel, DoneErr("declined on the host"), env.doneWrite);
      return Ok(Declined), log + [done];
    }
    log := log + [ClockRead(clock.now)];
    if clock.now >= cfg.deadline {
      ok, done := SendDone(clock, channel, DoneErr("offer expired"), env.doneWrite);
      return Ok(Ignore), log + [done];
    }
    ghost var more;
    result, more := StoreKey(cfg, channel, canonical, device, env, clock, file);
    log := log + more;
  }

  /** Opens ENROLL and vets the key. */
  method ServeEnroll(cfg: SessionConfig, channel: Channel, frame: Wire, env: ConnEnv, clock: Clock, file: KeyFile)
    returns (result: Result<ConnectionResult, FrameError>, ghost log: seq<Effect>)
    modifies clock, channel, file
    ensures EnrollReply(result, clock.now, file.disk, log)
         == OnEnroll(cfg, old(channel.State()), frame, env, old(clock.now), old(file.disk))
  {
    hide Confirm;
    hide DeviceName;
    hide Trim;
    hide Contains;
    hide Nonce;
    var ok;
    ghost var done;
    var plain := channel.OpenFromClient(frame);
    if plain.Err? {
      return Err(plain.error), [];
    }
    var enroll := DecodePlain(plain.value);
    if enroll.Err? {
      return Err(enroll.error), [];
    }
    var pubkey := GetText(enroll.value, "pubkey");
    if pubkey.None? {
      return Err(Malformed), [];
    }
    var named := GetText(enroll.value, "device");
    var device := DeviceName(if named.Some? then named.value else "");
    var key := cfg.lib.key(Trim(pubkey.value));
    if key.None? {
      ok, done := SendDone(clock, channel, DoneErr("unparseable public key"), env.doneWrite);
      return Ok(Ignore), [done];
    }
    if !Contains(key.value.algorithm, "ed25519") {
      ok, done := SendDone(clock, channel, DoneErr("only ed25519 keys are accepted"), env.doneWrite);
      return Ok(Ignore), [done];
    }
    result, log := ConfirmAndStore(cfg, channel, key.value.canonical, device, env, clock, file);
  }

  /** The authenticated part: ENROLL on the longer clock. */
  method ServeAfterHello(cfg: SessionConfig, channel: Channel, postauth: nat, env: ConnEnv, stream: Socket,
                         file: KeyFile)
    returns (result: Result<ConnectionResult, FrameError>, ghost log: seq<Effect>)
    modifies stream, stream.clock, channel, file
    ensures EnrollReply(result, stream.clock.now, file.disk, log)
         == AfterHello(cfg, old(channel.State()), postauth, env, old(stream.State()), old(file.disk))
  {
    hide ReadFrame;
    hide OnEnroll;
    var clock := stream.clock;
    var reader := new Deadlined(stream, postauth);
    ghost var from := clock.now;
    var bytes := reader.NextFrame();
    log := [Heard(Enroll, from, clock.now)];
    if bytes.Err? {
      return Err(bytes.error), log;
    }
    ghost var more;
    result, more := ServeEnroll(cfg, channel, cfg.lib.wire(bytes.value), env, clock, file);
    log := log + more;
  }

  /** HELLO on what is left of the first clock, and on from there. */
  method ServeAfterIntro(cfg: SessionConfig, retired: bool, epub: seq<byte>, mode: string, reader: Deadlined,
                         env: ConnEnv, file: KeyFile)
    returns (result: Result<ConnectionResult, FrameError>, ghost log: seq<Effect>)
    modifies reader.stream, reader.stream.clock, file
    ensures EnrollReply(result, reader.stream.clock.now, file.disk, log)
         == AfterIntro(cfg, retired, epub, mode, ChannelFor(cfg, epub), env,
                       old(reader.stream.State()), reader.deadline, old(file.disk))
  {
    hide ReadFrame;
    hide OnHello;
    hide AfterHello;
    var stream, clock := reader.stream, reader.stream.clock;
    ghost var from := clock.now;
    var channel := new Channel(Shared(epub, cfg.spub), epub, cfg.spub);
    var bytes := reader.NextFrame();
    log := [Heard(Hello, from, clock.now)];
    if bytes.Err? {
      return Err(bytes.error), log;
    }
    var phase;
    ghost var more;
    phase, more := ServeHello(cfg, retired, epub, mode, channel, cfg.lib.wire(bytes.value), env, clock);
    log := log + more;
    if phase.Closed? {
      return phase.result, log;
    }
    result, more := ServeAfterHello(cfg, channel, phase.deadline, env, stream, file);
    log := log + more;
  }

  /** `exchange`: one connection, read by read. */
  method ServeConnection(cfg: SessionConfig, retired: bool, env: ConnEnv, stream: Socket, file: KeyFile)
    returns (result: Result<ConnectionResult, FrameError>, ghost log: seq<Effect>)
    requires stream.pending == env.arrivals
    modifies stream, stream.clock, file
    ensures EnrollReply(result, stream.clock.now, file.disk, log)
         == Exchange(cfg, retired, env, old(stream.clock.now), old(file.disk))
  {
    hide ReadFrame;
    hide AfterIntro;
    hide OnIntro;
    var clock := stream.clock;
    clock.now := clock.now + env.startLag;
    ghost var from := clock.now;
    var preauth := PhaseDeadline(cfg, clock.now, PREAUTH_TIMEOUT);
    var reader := new Deadlined(stream, preauth);
    var bytes := reader.NextFrame();
    log := [ClockRead(from), Heard(Intro, from, clock.now)];
    if bytes.Err? {
      return Err(bytes.error), log;
    }
    var intro := ReadIntro(cfg, cfg.lib.wire(bytes.value));
    if intro.Rejected? {
      return intro.result, log;
    }
    IntroDerives(cfg, cfg.lib.wire(bytes.value));
    ghost var more;
    result, more := ServeAfterIntro(cfg, retired, intro.epub, intro.mode, reader, env, file);
    log := log + more;
  }

  lemma IntroDerives(cfg: SessionConfig, frame: Wire)
    ensures var r := OnIntro(cfg, frame);
            r.Greeted? ==> r.chan == ChannelFor(cfg, r.epub)
  {
  }

  /** `handle`: whatever goes wrong inside a connection makes it one to ignore. */
  method Handle(cfg: SessionConfig, retired: bool, env: ConnEnv, clock: Clock, file: KeyFile)
    returns (result: ConnectionResult, ghost log: seq<Effect>)
    modifies clock, file
    ensures var reply := Exchange(cfg, retired, env, old(clock.now), old(file.disk));
            && result == ResultOf(reply) && clock.now == reply.now && file.disk == reply.disk && log == reply.log
  {
    hide Exchange;
    var stream := new Socket(clock, env.arrivals);
    var r;
    r, log := ServeConnection(cfg, retired, env, stream, file);
    match r {
      case Ok(done) => result := done;
      case Err(_) => result := Ignore;
    }
  }

  /** One wrong PIN more: a warning while guesses are left, and then the PIN is retired, once. */
  method CountPinFailure(pinFailures: nat, pinRetired: bool, events: seq<ServerEvent>)
    returns (failures: nat, retired: bool, told: seq<ServerEvent>)
    ensures forall s: Session {:trigger Settle(s, PinFailure)} ::
              s.pinFailures == pinFailures && s.pinRetired == pinRetired && s.events == events ==>
                Settle(s, PinFailure) == s.(pinFailures := failures, pinRetired := retired, events := told)
  {
    failures, retired, told := pinFailures + 1, pinRetired, events;
    if failures >= MAX_PIN_ATTEMPTS {
      if !retired {
        retired := true;
        told := told + [PinRetired];
      }
    } else {
      told := told + [WrongPin(MAX_PIN_ATTEMPTS - failures)];
    }
  }

  /** The accept loop, over as many iterations as its surroundings supply. */
  method Run(cfg: SessionConfig, cancelAt: Option<nat>, its: seq<Iteration>, clock: Clock, file: KeyFile)
    returns (outcome: Option<BindOutcome>, events: seq<ServerEvent>, ghost log: seq<Effect>)
    modifies clock, file
    ensures var s := RunFrom(cfg, cancelAt, Start(old(clock.now), old(file.disk)), its);
            && outcome == s.outcome && events == s.events && log == s.log
            && clock.now == s.now && file.disk == s.disk
  {
    hide Exchange;
    hide ResultOf;
    hide Settle;
    hide Server.Step;
    hide RunFrom;
    hide CancelRequested;
    var pinFailures := 0;
    var pinRetired := false;
    outcome, events, log := None, [], [];
    var i := 0;
    RunFromNothing(cfg, cancelAt);
    while i < |its|
      invariant 0 <= i <= |its| && outcome.None? && pinFailures >= 0
      invariant RunFrom(cfg, cancelAt, Start(old(clock.now), old(file.disk)), its)
             == RunFrom(cfg, cancelAt, Session(clock.now, file.disk, pinFailures, pinRetired, events, log, None),
                        its[i..])
    {
      ghost var s := Session(clock.now, file.disk, pinFailures, pinRetired, events, log, None);
      RunFromStep(cfg, cancelAt, s, its[i], its[i + 1..]);
      assert its[i..] == [its[i]] + its[i + 1..];
      StepCases(cfg, cancelAt, s, its[i]);
      clock.now := clock.now + its[i].lag;
      if CancelRequested(cancelAt, clock.now) {
        outcome := Some(Canceled);
        return;
      }
      log := log + [ClockRead(clock.now)];
      if clock.now >= cfg.deadline {
        outcome := Some(Expired);
        return;
      }
      match its[i].accept {
        case NoConnection(oversleep) =>
          clock.now := clock.now + POLL_INTERVAL + oversleep;
        case Connection(env) =>
          log := log + [Accepted(clock.now)];
          var result;
          ghost var more;
          result, more := Handle(cfg, pinRetired, env, clock, file);
          log := log + more;
          SettleCases(Session(clock.now, file.disk, pinFailures, pinRetired, events, log, None), result);
          match result {
            case Enrolled(device, comment, acknowledged) =>
              outcome := Some(Bound(device, comment, acknowledged));
              return;
            case PinFailure =>
              pinFailures, pinRetired, events := CountPinFailure(pinFailures, pinRetired, events);
            case Declined =>
              outcome := Some(DeclinedByHost);
              return;
            case Ignore =>
          }
      }
      i := i + 1;
    }
    assert its[i..] == [];
  }

  lemma RunFromNothing(cfg: SessionConfig, cancelAt: Option<nat>)
    ensures forall s {:trigger RunFrom(cfg, cancelAt, s, [])} :: RunFrom(cfg, cancelAt, s, []) == s
  {
    hide Server.Step;
  }

  /** The branches of an iteration, up to what a connection comes to. */
  lemma StepCases(cfg: SessionConfig, cancelAt: Option<nat>, s: Session, it: Iteration)
    ensures var now := s.now + it.lag;
            var t := Server.Step(cfg, cancelAt, s, it);
            if CancelRequested(cancelAt, now) then t == s.(now := now, outcome := Some(Canceled))
            else
              var log := s.log + [ClockRead(now)];
              if now >= cfg.deadline then t == s.(now := now, log := log, outcome := Some(Expired))
              else if it.accept.NoConnection? then
                t == s.(now := now + POLL_INTERVAL + it.accept.oversleep, log := log)
              else
                var reply := Exchange(cfg, s.pinRetired, it.accept.env, now, s.disk);
                t == Settle(s.(now := reply.now, disk := reply.disk, log := log + [Accepted(now)] + reply.log),
                            ResultOf(reply))
  {
    hide Exchange;
    hide Settle;
    hide ResultOf;
  }

  lemma SettleCases(s: Session, result: ConnectionResult)
    ensures result.Ignore? ==> Settle(s, result) == s
    ensures result.Declined? ==> Settle(s, result) == s.(outcome := Some(DeclinedByHost))
    ensures result.Enrolled? ==>
              Settle(s, result) == s.(outcome := Some(Bound(result.device, result.comment, result.acknowledged)))
  {
  }

  /** One iteration of a live session, and the rest unless it ended there. */
  lemma RunFromStep(cfg: SessionConfig, cancelAt: Option<nat>, s: Session, it: Iteration, rest: seq<Iteration>)
    requires s.outcome.None?
    ensures var next := Server.Step(cfg, cancelAt, s, it);
            && RunFrom(cfg, cancelAt, s, [it] + rest) == RunFrom(cfg, cancelAt, next, rest)
            && (next.outcome.Some? ==> RunFrom(cfg, cancelAt, next, rest) == next)
  {
    assert ([it] + rest)[1..] == rest;
    hide Exchange;
  }
}
