/** A key whose type the server accepts and the file scanner does not know: one whole connection that
    reports an enrolment no line of the file is then found to hold. */
module UnknownTypes {
  import opened Wrappers
  import opened Bytes
  import opened Text
  import opened Util
  import opened AuthKeys
  import opened Editing
  import Unbind
  import opened Frame
  import opened Stream
  import opened Framing
  import opened Server
  import opened Conversation
  import opened HonestClient
  import opened Receipts
  import opened Scenario

  const UNKNOWN_TYPE := "x-ed25519@h"

  /** The server's ed25519 test lets a type pass that the scanner does not know. */
  lemma VettedTypeMayBeUnknown(t: string)
    requires t == UNKNOWN_TYPE
    ensures Token(t) && '"' !in t && Contains(t, "ed25519") && !IsKeyType(t)
  {
    hide Contains;
    assert t[0] == 'x' && t[2..9] == "ed25519";
    ContainsAt(t, "ed25519", 2);
  }

  /** A key of that type: its canonical text is the type and the material. */
  function UnknownKey(material: string): SshKey {
    SshKey(UNKNOWN_TYPE, Some(UNKNOWN_TYPE + " " + material))
  }

  lemma UnknownKeyFields(material: string)
    requires Token(material)
    ensures Fields(UnknownKey(material).canonical.value) == [UNKNOWN_TYPE, material]
  {
    VettedTypeMayBeUnknown(UNKNOWN_TYPE);
    FieldsOfPair(UNKNOWN_TYPE, material);
    FieldsOfOne(material);
    hide Fields;
    hide Token;
    assert [UNKNOWN_TYPE] + [material] == [UNKNOWN_TYPE, material];
  }

  /** Whoever binds a new key of that type gets a receipt that the file does not bear out. */
  lemma UnknownKeyIsNotHeld(cfg: SessionConfig, retired: bool, env: ConnEnv, now: nat, disk: Disk, c: Applicant,
                            a1: seq<Arrival>, a2: seq<Arrival>, material: string)
    requires ProperSession(cfg) && View(disk).Some? && Holder(View(disk).value, material).None?
    requires Honest(cfg, c, retired) && Prompt(cfg, env, c, a1, a2, now)
    requires Token(material) && ':' !in material && c.key == UnknownKey(material)
    ensures var r := Exchange(cfg, retired, env, now, disk);
            && ResultOf(r).Enrolled?
            && Bodies(r.log) == [OfferValue(cfg.offer), DoneOk(ResultOf(r).comment)]
            && View(r.disk).Some? && Holder(View(r.disk).value, material) == None
  {
    hide Exchange;
    hide Honest;
    hide Prompt;
    hide ProperSession;
    hide Holder;
    hide View;
    hide LegibleKey;
    hide Bodies;
    hide OfferValue;
    hide DoneOk;
    hide Fields;
    hide IsKeyType;
    hide PlainKey;
    hide Contains;
    VettedTypeMayBeUnknown(UNKNOWN_TYPE);
    UnknownKeyFields(material);
    PlainForAnyDevice(cfg, c, material);
    QuoteFreeKeys(UNKNOWN_TYPE, material, BindComment(cfg, c.request.device));
    assert ':' in BindComment(cfg, c.request.device) by { ColonInside(cfg, c.request.device); }
    hide BindComment;
    EnrolledButNotHeld(cfg, retired, env, now, disk, c, a1, a2);
  }

  lemma PlainForAnyDevice(cfg: SessionConfig, c: Applicant, material: string)
    requires ProperSession(cfg) && Token(material)
    ensures PlainKey(UNKNOWN_TYPE, material, BindComment(cfg, c.request.device))
  {
    UnknownKeyFields(material);
    hide Fields;
    hide PlainKey;
    hide ProperSession;
    FieldsAreProper(cfg, UnknownKey(material).canonical.value, c.request.device);
  }

  lemma ColonInside(cfg: SessionConfig, device: string)
    ensures ':' in BindComment(cfg, device)
  {
    hide Slug;
    assert BindComment(cfg, device)[|cfg.markerId|] == ':';
  }

  // -- such a connection exists --

  function Stranger(): Person {
    Person(1, "token", Token16(), "k", "phone", UnknownKey("AAAA"))
  }

  lemma StrangerIsHonest()
    ensures var cfg, p := Configured([Stranger()]), Stranger();
            Honest(cfg, p.Applies(), false) && Prompt(cfg, p.Meets(), p.Applies(), p.First(), p.Last(), 0)
  {
    hide Fields;
    hide Contains;
    hide Honest;
    hide Prompt;
    hide DeviceName;
    VettedTypeMayBeUnknown(UNKNOWN_TYPE);
    UnknownKeyFields("AAAA");
    IsPrompt([Stranger()], Stranger());
    IsHonest([Stranger()], Stranger(), false);
  }

  /** A session, a client and its surroundings in which all of this happens, to a file that was not
      there before. */
  lemma ReceiptMayBeUntrue()
    ensures var cfg, p := Configured([Stranger()]), Stranger();
            var r := Exchange(cfg, false, p.Meets(), 0, Missing);
            && ResultOf(r).Enrolled?
            && Bodies(r.log) == [OfferValue(cfg.offer), DoneOk(ResultOf(r).comment)]
            && View(r.disk).Some? && Holder(View(r.disk).value, "AAAA") == None
  {
    hide Honest;
    hide Prompt;
    hide Exchange;
    hide Bodies;
    hide OfferValue;
    hide DoneOk;
    hide ProperSession;
    hide Configured;
    hide Token;
    hide DeviceName;
    var p := Stranger();
    StrangerIsHonest();
    SessionIsProper([p]);
    MaterialIsPlain("AAAA");
    MissingHoldsNothing("AAAA");
    assert p.Applies().key == UnknownKey("AAAA");
    hide UnknownKey;
    UnknownKeyIsNotHeld(Configured([p]), false, p.Meets(), 0, Missing, p.Applies(), p.First(), p.Last(), "AAAA");
  }

  lemma MaterialIsPlain(material: string)
    requires material == "AAAA"
    ensures Token(material) && ':' !in material
  {
  }

  lemma MissingHoldsNothing(material: string)
    ensures View(Missing).Some? && Holder(View(Missing).value, material).None?
  {
  }
}
