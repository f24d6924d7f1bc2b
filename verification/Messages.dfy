/** What the other end reads in the messages of `src/server.rs`, looked up by key, and what the server
    reads in an ENROLL. */
module Messages {
  import opened Wrappers
  import opened Numbers
  import opened Bytes
  import opened Seqs
  import opened Text
  import opened Frame
  import opened Server

  // -- maps --

  /** The first entry under a key is the one that counts. */
  lemma {:induction false} FirstEntryCounts(entries: seq<(Value, Value)>, key: string, i: nat)
    requires i < |entries| && entries[i].0 == Text(key)
    requires forall j :: 0 <= j < i ==> entries[j].0 != Text(key)
    ensures MapGet(Map(entries), key) == Some(entries[i].1)
  {
    if i > 0 {
      assert entries[1..][i - 1] == entries[i];
      FirstEntryCounts(entries[1..], key, i - 1);
    }
  }

  lemma {:induction false} NoEntryCounts(entries: seq<(Value, Value)>, key: string)
    requires forall j :: 0 <= j < |entries| ==> entries[j].0 != Text(key)
    ensures MapGet(Map(entries), key) == None
  {
    if entries != [] {
      NoEntryCounts(entries[1..], key);
    }
  }

  // -- OFFER --

  function ReadTexts(items: seq<Value>): Option<seq<string>> {
    if items == [] then Some([])
    else if !items[0].Text? then None
    else
      var rest :- ReadTexts(items[1..]);
      Some([items[0].text] + rest)
  }

  function GetTexts(value: Value, key: string): Option<seq<string>> {
    match MapGet(value, key)
    case Some(Array(items)) => ReadTexts(items)
    case _ => None
  }

  function GetNat(value: Value, key: string): Option<nat> {
    match MapGet(value, key)
    case Some(Integer(n)) => if n >= 0 then Some(n) else None
    case _ => None
  }

  /** The host record a client finds in an OFFER. */
  function ReadOffer(offer: Value): Option<OfferRecord> {
    var name :- GetText(offer, "name");
    var addrs :- GetTexts(offer, "addrs");
    var ssh :- MapGet(offer, "ssh");
    var user :- GetText(ssh, "user");
    var port :- GetNat(ssh, "port");
    var hostkeys :- GetTexts(ssh, "hostkeys");
    Some(OfferRecord(name, addrs, user, port, hostkeys))
  }

  lemma {:induction false} TextsRead(items: seq<string>)
    ensures ReadTexts(Texts(items)) == Some(items)
  {
    if items != [] {
      TextsRead(items[1..]);
      assert items == [items[0]] + items[1..];
      assert Texts(items)[1..] == Texts(items[1..]);
    }
  }

  /** The offer carries the whole host record: every field reads back under its own key. */
  lemma OfferReads(offer: OfferRecord)
    ensures ReadOffer(OfferValue(offer)) == Some(offer)
  {
    var v := OfferValue(offer);
    FirstEntryCounts(v.entries, "name", 0);
    FirstEntryCounts(v.entries, "addrs", 1);
    FirstEntryCounts(v.entries, "ssh", 2);
    var ssh := v.entries[2].1;
    FirstEntryCounts(ssh.entries, "user", 0);
    FirstEntryCounts(ssh.entries, "port", 1);
    FirstEntryCounts(ssh.entries, "hostkeys", 2);
    TextsRead(offer.addrs);
    TextsRead(offer.hostkeys);
    hide MapGet;
    hide ReadTexts;
    hide Texts;
  }

  // -- DONE --

  datatype Verdict = Granted(comment: string) | Refused(reason: string)

  /** What a client finds in a DONE. */
  function ReadDone(done: Value): Option<Verdict> {
    match MapGet(done, "ok")
    case Some(Bool(true)) =>
      var comment :- GetText(done, "comment");
      Some(Granted(comment))
    case Some(Bool(false)) =>
      var reason :- GetText(done, "err");
      Some(Refused(reason))
    case _ => None
  }

  /** A receipt reads as accepted under its comment, a refusal as refused for its reason. */
  lemma DoneReads(text: string)
    ensures ReadDone(DoneOk(text)) == Some(Granted(text))
    ensures ReadDone(DoneErr(text)) == Some(Refused(text))
  {
    var ok, err := DoneOk(text), DoneErr(text);
    FirstEntryCounts(ok.entries, "ok", 0);
    FirstEntryCounts(ok.entries, "comment", 1);
    FirstEntryCounts(err.entries, "ok", 0);
    FirstEntryCounts(err.entries, "err", 1);
    hide MapGet;
  }

  // -- ENROLL --

  /** A device name loses its control characters and whatever follows 64 characters that are left. */
  lemma DeviceNameIsClean(raw: string)
    ensures var clean := Filter((c: char) => !IsControl(c), raw);
            DeviceName(raw) <= clean && |DeviceName(raw)| == Min(|clean|, 64)
  {
    SameFilter(IsPrintable, (c: char) => !IsControl(c), raw);
  }

  lemma {:induction false} SameFilter<T(!new)>(p: T -> bool, q: T -> bool, s: seq<T>)
    requires forall x :: p(x) == q(x)
    ensures Filter(p, s) == Filter(q, s)
  {
    if s != [] {
      SameFilter(p, q, s[1..]);
    }
  }

  /** An ENROLL asks with its text under "pubkey", for the cleaned name under "device", or for none. */
  lemma EnrollReads(enroll: Value, request: Request)
    ensures RequestIn(enroll) == Some(request)
       <==> && GetText(enroll, "pubkey") == Some(request.pubkey)
            && var name := GetText(enroll, "device");
               request.device == DeviceName(if name.Some? then name.value else "")
  {
    hide GetText;
    hide DeviceName;
  }
}
