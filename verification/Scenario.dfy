/** Sessions small enough to write down: a cast of clients that take no time, and the library in whose
    terms their frames are the ones the protocol asks for. */
module Scenario {
  import opened Wrappers
  import opened Bytes
  import opened Text
  import opened Util
  import opened AuthKeys
  import Unbind
  import opened Frame
  import opened Stream
  import opened Framing
  import opened Server
  import opened Conversation
  import opened HonestClient
  import opened Receipts

  /** A client: its ephemeral key is its tag repeated, and `ask` is the public key text it sends. */
  datatype Person = Person(tag: byte, mode: string, proof: seq<byte>, ask: string, device: string, key: SshKey) {
    function Epub(): (epub: seq<byte>) {
      seq(32, _ => tag)
    }

    function Intro(): Value {
      Map([(Text("v"), Integer(1)), (Text("epub"), Bytes(Epub())), (Text("mode"), Text(mode))])
    }

    function Hello(): Value {
      Map([(Text("proof"), Bytes(proof))])
    }

    function Enroll(): Value {
      Map([(Text("pubkey"), Text(ask)), (Text("device"), Text(device))])
    }

    function Channel(): ChannelState {
      Derive(Shared(Epub(), []), Epub(), [])
    }

    /** The term that each of its frames stands for. */
    function Term(number: byte): Wire {
      var (hello, after) := SealC2S(Channel(), Encoded(Hello()));
      if number == 1 then Clear(Intro())
      else if number == 2 then hello
      else if number == 3 then SealC2S(after, Encoded(Enroll())).0
      else Noise
    }

    function Applies(): Applicant {
      Applicant(Epub(), mode, Intro(), Hello(), Enroll(), Request(ask, DeviceName(device)), key,
                [tag, 1], [tag, 2], [tag, 3])
    }

    function First(): seq<Arrival> {
      [Chunk(0, EncodeFrame([tag, 1]) + EncodeFrame([tag, 2]))]
    }

    function Last(): seq<Arrival> {
      [Chunk(0, EncodeFrame([tag, 3]))]
    }

    /** Everything arrives at once, every write succeeds, and the operator says yes. */
    function Meets(): ConnEnv {
      ConnEnv(First() + Last(), 0, 0, WriteAnswer(true, 0), 0, true, 0, false, 0, WriteAnswer(true, 0))
    }
  }

  function Tagged(people: seq<Person>, tag: byte): Option<Person> {
    if people == [] then None
    else if people[0].tag == tag then Some(people[0])
    else Tagged(people[1..], tag)
  }

  function KeyFor(people: seq<Person>, ask: string): Option<SshKey> {
    if people == [] then None
    else if people[0].ask == ask then Some(people[0].key)
    else KeyFor(people[1..], ask)
  }

  function FrameTerm(people: seq<Person>, frame: seq<byte>): Wire {
    if |frame| == 2 && Tagged(people, frame[0]).Some? then Tagged(people, frame[0]).value.Term(frame[1]) else Noise
  }

  function PinProof(): (proof: seq<byte>) {
    [9]
  }

  function Token16(): (token: seq<byte>) {
    [7]
  }

  function Configured(people: seq<Person>): SessionConfig {
    SessionConfig(
      Library((b: seq<byte>) => FrameTerm(people, b), (t: string) => KeyFor(people, t), (b: seq<byte>) => true,
              (pin: string, epub: seq<byte>, spub: seq<byte>) => PinProof()),
      [], Token16(), "", 1000, OfferRecord("host", [], "user", 22, []), MARKER_PREFIX + Hex([0, 0, 0, 0]))
  }

  /** The person is who its tag and its key text lead to. */
  predicate Cast(people: seq<Person>, p: Person) {
    Tagged(people, p.tag) == Some(p) && KeyFor(people, p.ask) == Some(p.key)
  }

  lemma SessionIsProper(people: seq<Person>)
    ensures ProperSession(Configured(people))
  {
    assert Unbind.IsId(Hex([0, 0, 0, 0]));
  }

  lemma IntroIsGood(people: seq<Person>, p: Person)
    requires Cast(people, p)
    ensures GoodIntro(Configured(people), p.Applies())
  {
    hide DeviceName;
    var es := p.Intro().entries;
    assert FindEntry(es, "v") == Some(Integer(1));
    assert FindEntry(es, "epub") == FindEntry(es[1..], "epub") == Some(Bytes(p.Epub()));
    assert FindEntry(es, "mode") == FindEntry(es[1..], "mode") == FindEntry(es[1..][1..], "mode") == Some(Text(p.mode));
    assert ([p.tag, 1])[0] == p.tag;
  }

  lemma HelloIsSealed(people: seq<Person>, p: Person)
    requires Cast(people, p)
    ensures var cfg, c := Configured(people), p.Applies();
            && cfg.lib.wire(c.frame2) == SealC2S(ChannelFor(cfg, c.epub), Encoded(c.hello)).0
            && GetBytes(c.hello, "proof") == Some(p.proof)
  {
    hide Nonce;
    hide DeviceName;
    var es := p.Hello().entries;
    assert FindEntry(es, "proof") == Some(Bytes(p.proof));
  }

  /** A key the server takes. */
  ghost predicate Takes(p: Person) {
    && Token(p.ask) && Contains(p.key.algorithm, "ed25519")
    && p.key.canonical.Some? && |Fields(p.key.canonical.value)| >= 2
  }

  lemma EnrollIsGood(people: seq<Person>, p: Person)
    requires Cast(people, p) && Takes(p)
    ensures GoodEnroll(Configured(people), p.Applies())
  {
    hide Nonce;
    hide Fields;
    hide Contains;
    hide DeviceName;
    var es := p.Enroll().entries;
    assert FindEntry(es, "pubkey") == Some(Text(p.ask));
    assert FindEntry(es, "device") == FindEntry(es[1..], "device") == Some(Text(p.device));
    TrimCore("", p.ask, "");
    assert "" + p.ask + "" == p.ask;
    hide Trim;
  }

  lemma IsPrompt(people: seq<Person>, p: Person)
    ensures Prompt(Configured(people), p.Meets(), p.Applies(), p.First(), p.Last(), 0)
    ensures TotalWait(p.First()) == 0
  {
    AtOnce(EncodeFrame([p.tag, 1]) + EncodeFrame([p.tag, 2]));
    AtOnce(EncodeFrame([p.tag, 3]));
    hide EncodeFrame;
    hide DeviceName;
    hide Flat;
    hide TotalWait;
    hide Clean;
    hide EndsInBytes;
  }

  lemma AtOnce(data: seq<byte>)
    requires data != []
    ensures var a := [Chunk(0, data)]; Clean(a) && EndsInBytes(a) && Flat(a) == data && TotalWait(a) == 0
  {
    assert [Chunk(0, data)][1..] == [];
    assert data + [] == data;
  }

  /** With a proof the session accepts, the person is an honest client. */
  lemma IsHonest(people: seq<Person>, p: Person, retired: bool)
    requires Cast(people, p) && Takes(p) && Proves(Configured(people), retired, p.Epub(), p.mode, p.proof)
    ensures Honest(Configured(people), p.Applies(), retired)
  {
    hide GoodIntro;
    hide GoodEnroll;
    hide Takes;
    hide Nonce;
    hide DeviceName;
    IntroIsGood(people, p);
    HelloIsSealed(people, p);
    EnrollIsGood(people, p);
    hide Configured;
    hide GetBytes;
  }

  /** A person who comes in PIN mode without a proof the session accepts is refused in no time. */
  lemma IsRefused(people: seq<Person>, p: Person, retired: bool, disk: Disk)
    requires Cast(people, p) && p.mode == "pin" && !Proves(Configured(people), retired, p.Epub(), p.mode, p.proof)
    ensures var r := Exchange(Configured(people), retired, p.Meets(), 0, disk);
            ResultOf(r) == (if retired then Ignore else PinFailure) && r.now == 0 && r.disk == disk
  {
    hide GoodIntro;
    hide Exchange;
    hide Nonce;
    hide DeviceName;
    hide GetBytes;
    hide Prompt;
    hide TotalWait;
    IntroIsGood(people, p);
    HelloIsSealed(people, p);
    IsPrompt(people, p);
    PinIsRefused(Configured(people), retired, p.Meets(), 0, disk, p.Applies(), p.First(), p.Last());
  }
}
