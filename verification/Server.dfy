/** `src/server.rs`: one connection from INTRO to DONE, and the accept loop around it. Time is in
    milliseconds; reads, writes, the prompt and the sleeps are what takes it. */
module Server {
  import opened Wrappers
  import opened Numbers
  import opened Bytes
  import opened Seqs
  import opened Text
  import opened Util
  import opened AuthKeys
  import opened Frame
  import opened Stream

  const MAX_PIN_ATTEMPTS := 3
  const PREAUTH_TIMEOUT := 5000
  const POSTAUTH_TIMEOUT := 120000
  const POLL_INTERVAL := 100
  const MAX_DEVICE := 64

  // -- configuration --

  datatype OfferRecord = OfferRecord(
    name: string,
    addrs: seq<string>,
    user: string,
    sshPort: nat,
    hostkeys: seq<string>)

  /** A parsed OpenSSH key: its algorithm's name, and its canonical text when it has one. */
  datatype SshKey = SshKey(algorithm: string, canonical: Option<string>)

  /** What the libraries compute: which term a frame's bytes are, key parsing, the contributory
      check and the PIN proof. */
  datatype Library = Library(
    wire: seq<byte> -> Wire,
    key: string -> Option<SshKey>,
    contributory: seq<byte> -> bool,
    pinProof: (string, seq<byte>, seq<byte>) -> seq<byte>)

  datatype SessionConfig = SessionConfig(
    lib: Library,
    spub: seq<byte>,
    token: seq<byte>,
    pin: string,
    deadline: nat,
    offer: OfferRecord,
    markerId: string)

  // -- results and what happened on the way --

  datatype ConnectionResult =
    | Enrolled(device: string, comment: string, acknowledged: bool)
    | PinFailure
    | Declined
    | Ignore

  datatype Stage = Intro | Hello | Enroll

  datatype Effect =
    | ClockRead(at: nat)
    | Accepted(at: nat)
    | Heard(stage: Stage, from: nat, at: nat)
    | TokenChecked(good: bool)
    | PinChecked(good: bool)
    | Sealed(body: Value, box: Wire, delivered: bool)
    | Asked(device: string, answer: bool)
    | Stored(keyType: string, material: string, comment: string, outcome: Result<AddOutcome, IoError>)

  /** Whether a frame got out, and how long writing it took. */
  datatype WriteAnswer = WriteAnswer(ok: bool, cost: nat)

  /** Everything outside the server that one connection meets. */
  datatype ConnEnv = ConnEnv(
    arrivals: seq<Arrival>,
    startLag: nat,
    proofLag: nat,
    offerWrite: WriteAnswer,
    checkLag: nat,
    answer: bool,
    answerTime: nat,
    storeFault: bool,
    storeTime: nat,
    doneWrite: WriteAnswer)

  // -- messages --

  function OfferValue(offer: OfferRecord): Value {
    Map([
      (Text("name"), Text(offer.name)),
      (Text("addrs"), Array(Texts(offer.addrs))),
      (Text("ssh"), Map([
        (Text("user"), Text(offer.user)),
        (Text("port"), Integer(offer.sshPort)),
        (Text("hostkeys"), Array(Texts(offer.hostkeys)))]))])
  }

  function Texts(items: seq<string>): seq<Value> {
    if items == [] then [] else [Text(items[0])] + Texts(items[1..])
  }

  function DoneOk(comment: string): Value {
    Map([(Text("ok"), Bool(true)), (Text("comment"), Text(comment))])
  }

  function DoneErr(message: string): Value {
    Map([(Text("ok"), Bool(false)), (Text("err"), Text(message))])
  }

  function StoreError(e: IoError): string {
    "could not write authorized_keys: " + match e case ReadFailed => "unreadable" case WriteFailed => "write failed"
  }

  function Version(intro: Value): int {
    match MapGet(intro, "v")
    case Some(Integer(n)) => if 0 <= n < TWO64 then n else 0
    case _ => 0
  }

  predicate IsPrintable(c: char) { !IsControl(c) }

  /** Control characters dropped, then at most 64 characters. */
  function DeviceName(raw: string): string {
    var clean := Filter(IsPrintable, raw);
    if |clean| <= MAX_DEVICE then clean else clean[..MAX_DEVICE]
  }

  function PhaseDeadline(cfg: SessionConfig, now: nat, budget: nat): nat {
    Min(now + budget, cfg.deadline)
  }

  // -- the protocol, frame by frame --

  /** What INTRO leads to. */
  datatype IntroReply =
    | Greeted(epub: seq<byte>, mode: string, chan: ChannelState)
    | Rejected(result: Result<ConnectionResult, FrameError>)

  /** What HELLO leads to: ENROLL is awaited, or the connection is over. */
  datatype HelloPhase =
    | Offered(chan: ChannelState, deadline: nat)
    | Closed(result: Result<ConnectionResult, FrameError>)

  /** The channel that both ends derive for a client's ephemeral key. */
  function ChannelFor(cfg: SessionConfig, epub: seq<byte>): ChannelState {
    Derive(Shared(epub, cfg.spub), epub, cfg.spub)
  }

  /** Cleartext INTRO: {v, epub, mode}. */
  function OnIntro(cfg: SessionConfig, frame: Wire): IntroReply {
    match DecodeClear(frame)
    case Err(e) => Rejected(Err(e))
    case Ok(intro) =>
      if Version(intro) != 1 then Rejected(Ok(Ignore))
      else
        match (GetBytes(intro, "epub"), GetText(intro, "mode"))
        case (Some(epub), Some(mode)) =>
          if |epub| != 32 then Rejected(Err(Malformed))
          else if !cfg.lib.contributory(epub) then Rejected(Ok(Ignore))
          else Greeted(epub, mode, ChannelFor(cfg, epub))
        case _ => Rejected(Err(Malformed))
  }

  datatype HelloReply = HelloReply(phase: HelloPhase, now: nat, log: seq<Effect>)

  /** One DONE under the next nonce. */
  function SealDone(ch: ChannelState, body: Value, ok: bool): Effect {
    Sealed(body, SealS2C(ch, Encoded(body)).0, ok)
  }

  /** The proof inside a sealed HELLO. */
  function OpenHello(chan: ChannelState, frame: Wire): Result<(seq<byte>, ChannelState), FrameError> {
    match OpenC2S(chan, frame)
    case (Err(e), _) => Err(e)
    case (Ok(plain), ch) =>
      match DecodePlain(plain)
      case Err(e) => Err(e)
      case Ok(hello) =>
        match GetBytes(hello, "proof")
        case Some(proof) => Ok((proof, ch))
        case None => Err(Malformed)
  }

  /** The proof accepted: a longer clock, and the OFFER. */
  function SendOffer(cfg: SessionConfig, ch: ChannelState, env: ConnEnv, now: nat, check: Effect): HelloReply {
    var at := now + env.proofLag;
    var body := OfferValue(cfg.offer);
    var (box, ch') := SealS2C(ch, Encoded(body));
    HelloReply(if env.offerWrite.ok then Offered(ch', PhaseDeadline(cfg, at, POSTAUTH_TIMEOUT)) else Closed(Err(Io)),
               at + env.offerWrite.cost,
               [check, ClockRead(at), Sealed(body, box, env.offerWrite.ok)])
  }

  /** Sealed HELLO: {proof}. */
  function OnHello(cfg: SessionConfig, retired: bool, epub: seq<byte>, mode: string, chan: ChannelState, frame: Wire,
                   env: ConnEnv, now: nat): HelloReply
  {
    match OpenHello(chan, frame)
    case Err(e) => HelloReply(Closed(Err(e)), now, [])
    case Ok((proof, ch)) =>
      if mode == "token" then
        if proof == cfg.token then SendOffer(cfg, ch, env, now, TokenChecked(true))
        else HelloReply(Closed(Ok(Ignore)), now, [TokenChecked(false)])
      else if mode == "pin" then
        if retired then
          HelloReply(Closed(Ok(Ignore)), now + env.doneWrite.cost,
                     [SealDone(ch, DoneErr("pin retired for this offer"), env.doneWrite.ok)])
        else if proof == cfg.lib.pinProof(cfg.pin, epub, cfg.spub) then SendOffer(cfg, ch, env, now, PinChecked(true))
        else
          HelloReply(Closed(Ok(PinFailure)), now + env.doneWrite.cost,
                     [PinChecked(false), SealDone(ch, DoneErr("wrong pin"), env.doneWrite.ok)])
      else HelloReply(Closed(Ok(Ignore)), now, [])
  }

  datatype EnrollReply = EnrollReply(result: Result<ConnectionResult, FrameError>, now: nat, disk: Disk,
                                     log: seq<Effect>)

  datatype Request = Request(pubkey: string, device: string)

  /** ENROLL: {pubkey, device}, the device name optional. */
  function RequestIn(enroll: Value): Option<Request> {
    match GetText(enroll, "pubkey")
    case None => None
    case Some(pubkey) =>
      var raw := match GetText(enroll, "device") case Some(d) => d case None => "";
      Some(Request(pubkey, DeviceName(raw)))
  }

  /** The request inside a sealed ENROLL. */
  function OpenEnroll(chan: ChannelState, frame: Wire): Result<(Request, ChannelState), FrameError> {
    match OpenC2S(chan, frame)
    case (Err(e), _) => Err(e)
    case (Ok(plain), ch) =>
      match DecodePlain(plain)
      case Err(e) => Err(e)
      case Ok(enroll) =>
        match RequestIn(enroll)
        case None => Err(Malformed)
        case Some(request) => Ok((request, ch))
  }

  /** A refusal: DONE err, and the file as it was. */
  function Refuse(ch: ChannelState, message: string, result: ConnectionResult, env: ConnEnv, now: nat, disk: Disk,
                  log: seq<Effect>): EnrollReply
  {
    EnrollReply(Ok(result), now + env.doneWrite.cost, disk, log + [SealDone(ch, DoneErr(message), env.doneWrite.ok)])
  }

  function BindComment(cfg: SessionConfig, device: string): string {
    cfg.markerId + ":" + Slug(device)
  }

  /** The one write, and its receipt. */
  function Store(cfg: SessionConfig, ch: ChannelState, canonical: Option<string>, device: string, env: ConnEnv,
                 now: nat, disk: Disk): EnrollReply
  {
    if canonical.None? || |Fields(canonical.value)| < 2 then EnrollReply(Err(Malformed), now, disk, [])
    else
      var keyType, material := Fields(canonical.value)[0], Fields(canonical.value)[1];
      var comment := BindComment(cfg, device);
      var (outcome, disk') := EnsureDisk(disk, keyType, material, comment, env.storeFault);
      var at := now + env.storeTime;
      var stored := [Stored(keyType, material, comment, outcome)];
      match outcome
      case Err(e) => Refuse(ch, StoreError(e), Ignore, env, at, disk', stored)
      case Ok(added) =>
        var final := if added.AlreadyPresent? then added.comment else comment;
        EnrollReply(Ok(Enrolled(device, final, env.doneWrite.ok)), at + env.doneWrite.cost, disk',
                    stored + [SealDone(ch, DoneOk(final), env.doneWrite.ok)])
  }

  /** The clock, the operator, and the clock again. */
  function Confirm(cfg: SessionConfig, ch: ChannelState, canonical: Option<string>, device: string, env: ConnEnv,
                   now: nat, disk: Disk): EnrollReply
  {
    var t1 := now + env.checkLag;
    if t1 >= cfg.deadline then Refuse(ch, "offer expired", Ignore, env, t1, disk, [ClockRead(t1)])
    else
      var t2 := t1 + env.answerTime;
      var asked := [ClockRead(t1), Asked(device, env.answer)];
      if !env.answer then Refuse(ch, "declined on the host", Declined, env, t2, disk, asked)
      else if t2 >= cfg.deadline then Refuse(ch, "offer expired", Ignore, env, t2, disk, asked + [ClockRead(t2)])
      else After(asked + [ClockRead(t2)], Store(cfg, ch, canonical, device, env, t2, disk))
  }

  /** Sealed ENROLL. */
  function OnEnroll(cfg: SessionConfig, chan: ChannelState, frame: Wire, env: ConnEnv, now: nat,
                    disk: Disk): EnrollReply {
    match OpenEnroll(chan, frame)
    case Err(e) => EnrollReply(Err(e), now, disk, [])
    case Ok((request, ch)) =>
      match cfg.lib.key(Trim(request.pubkey))
      case None => Refuse(ch, "unparseable public key", Ignore, env, now, disk, [])
      case Some(key) =>
        if !Contains(key.algorithm, "ed25519") then
          Refuse(ch, "only ed25519 keys are accepted", Ignore, env, now, disk, [])
        else Confirm(cfg, ch, key.canonical, request.device, env, now, disk)
  }

  // -- one connection --

  function After(log: seq<Effect>, reply: EnrollReply): EnrollReply {
    reply.(log := log + reply.log)
  }

  /** INTRO and HELLO share one deadline; ENROLL has the longer one. */
  function Exchange(cfg: SessionConfig, retired: bool, env: ConnEnv, now: nat, disk: Disk): EnrollReply {
    var start := now + env.startLag;
    var preauth := PhaseDeadline(cfg, start, PREAUTH_TIMEOUT);
    var (intro, p1) := ReadFrame(Peer(env.arrivals, start), preauth);
    var log := [ClockRead(start), Heard(Intro, start, p1.now)];
    match intro
    case Err(e) => EnrollReply(Err(e), p1.now, disk, log)
    case Ok(bytes) =>
      match OnIntro(cfg, cfg.lib.wire(bytes))
      case Rejected(r) => EnrollReply(r, p1.now, disk, log)
      case Greeted(epub, mode, chan) => After(log, AfterIntro(cfg, retired, epub, mode, chan, env, p1, preauth, disk))
  }

  function AfterIntro(cfg: SessionConfig, retired: bool, epub: seq<byte>, mode: string, chan: ChannelState,
                      env: ConnEnv, p1: Peer, preauth: nat, disk: Disk): EnrollReply
  {
    var (hello, p2) := ReadFrame(p1, preauth);
    var log := [Heard(Hello, p1.now, p2.now)];
    match hello
    case Err(e) => EnrollReply(Err(e), p2.now, disk, log)
    case Ok(bytes) =>
      var reply := OnHello(cfg, retired, epub, mode, chan, cfg.lib.wire(bytes), env, p2.now);
      match reply.phase
      case Closed(r) => EnrollReply(r, reply.now, disk, log + reply.log)
      case Offered(ch, postauth) =>
        After(log + reply.log, AfterHello(cfg, ch, postauth, env, Peer(p2.pending, reply.now), disk))
  }

  function AfterHello(cfg: SessionConfig, ch: ChannelState, postauth: nat, env: ConnEnv, p: Peer,
                      disk: Disk): EnrollReply {
    var (enroll, p3) := ReadFrame(p, postauth);
    var log := [Heard(Enroll, p.now, p3.now)];
    match enroll
    case Err(e) => EnrollReply(Err(e), p3.now, disk, log)
    case Ok(bytes) => After(log, OnEnroll(cfg, ch, cfg.lib.wire(bytes), env, p3.now, disk))
  }

  /** `handle`: an error is a connection to ignore. */
  function ResultOf(reply: EnrollReply): ConnectionResult {
    match reply.result
    case Ok(r) => r
    case Err(_) => Ignore
  }

  // -- the accept loop --

  datatype BindOutcome =
    | Bound(device: string, comment: string, acknowledged: bool)
    | Expired
    | DeclinedByHost
    | Canceled

  datatype ServerEvent = WrongPin(remaining: int) | PinRetired

  /** What `accept` returns: a connection, or nothing (or an error), after which the loop sleeps. */
  datatype Accept = Connection(env: ConnEnv) | NoConnection(oversleep: nat)

  datatype Iteration = Iteration(lag: nat, accept: Accept)

  datatype Session = Session(
    now: nat,
    disk: Disk,
    pinFailures: nat,
    pinRetired: bool,
    events: seq<ServerEvent>,
    log: seq<Effect>,
    outcome: Option<BindOutcome>)

  /** The latched cancel flag: set from some instant on, or never. */
  predicate CancelRequested(cancelAt: Option<nat>, now: nat) {
    cancelAt.Some? && cancelAt.value <= now
  }

  function Step(cfg: SessionConfig, cancelAt: Option<nat>, s: Session, it: Iteration): Session {
    var now := s.now + it.lag;
    if CancelRequested(cancelAt, now) then s.(now := now, outcome := Some(Canceled))
    else if now >= cfg.deadline then s.(now := now, log := s.log + [ClockRead(now)], outcome := Some(Expired))
    else
      match it.accept
      case NoConnection(oversleep) =>
        s.(now := now + POLL_INTERVAL + oversleep, log := s.log + [ClockRead(now)])
      case Connection(env) =>
        var reply := Exchange(cfg, s.pinRetired, env, now, s.disk);
        Settle(s.(now := reply.now, disk := reply.disk, log := s.log + [ClockRead(now)] + [Accepted(now)] + reply.log),
               ResultOf(reply))
  }

  function Settle(s: Session, result: ConnectionResult): Session {
    match result
    case Enrolled(device, comment, acknowledged) => s.(outcome := Some(Bound(device, comment, acknowledged)))
    case Declined => s.(outcome := Some(DeclinedByHost))
    case Ignore => s
    case PinFailure =>
      var failures := s.pinFailures + 1;
      if failures >= MAX_PIN_ATTEMPTS then
        s.(pinFailures := failures, pinRetired := true,
           events := if s.pinRetired then s.events else s.events + [PinRetired])
      else
        s.(pinFailures := failures, events := s.events + [WrongPin(MAX_PIN_ATTEMPTS - failures)])
  }

  function RunFrom(cfg: SessionConfig, cancelAt: Option<nat>, s: Session, its: seq<Iteration>): Session
    decreases |its|
  {
    if s.outcome.Some? || its == [] then s else RunFrom(cfg, cancelAt, Step(cfg, cancelAt, s, its[0]), its[1..])
  }

  function Start(now: nat, disk: Disk): Session {
    Session(now, disk, 0, false, [], [], None)
  }
}
