# A verified model of the bind session

`mpx bind` opens a short offer: a TCP listener, a QR code with a 16-byte token, and a spoken PIN. A
phone connects, proves that it has the token or the PIN over a sealed channel, reads the host record,
sends its SSH key, and, once the operator says yes, one line is added to `authorized_keys`.
`mpx unbind` takes such a line out again. This project models that path from the bytes of a socket to
the text of the file, and proves what holds over every run of it.

The model has four interlocking parts.

- **The file** (`AuthKeys`, `Parsing`, `Editing`, `Unbind`). The quote-aware line parser and the two
  edits work on text, at character level. `Editing` gives the file a meaning, an ordered list of
  trimmed lines with the key each one carries, and shows that the text edits are list edits. The
  comparison is by trimmed lines because a removal rewrites CRLF as LF and ends the last line.
- **The channel and the stream** (`Frame`, `Stream`, `Framing`). Nonces, counters, frame headers and
  the reader's deadline arithmetic are concrete. A socket is a list of arrivals (chunks, interruptions,
  failures), each after a wait. Cryptography is symbolic: a box is an injective term of key, nonce and
  plaintext, and opens only on an exact match.
- **The payload** (`Utf8`, `Payload`, `Codec`, and the text codecs in `Util`). `Codec` has the encoder
  and the cursor decoder as loops over mutable state; `Payload` has the grammar they are proved
  against. `Delivery`, `TextCodecs` and `Scalars` say in plain numbers, alphabets and bits where each
  byte stands and what arrives.
- **The session** (`Server`, `BindSession` and the modules after them). `Server` says what each frame
  leads to, as functions. `BindSession` is the code as it runs: a clock, a socket, a channel and a file
  that change step by step, and an accept loop, each method equal to its function. `Conversation`,
  `PeerLimits`, `Receipts`, `HonestClient`, `SessionSafety`, `Consent`, `KnownTypes` and `SpentPin` prove
  facts about one connection and about every run, and `Messages` what the other end reads. `Agreement` puts the same server beside an honest client and a
  hostile network, `LoopAgreement` carries its theorems over to the accept loop, `Admission` says what
  it takes to be let in, `Completion` shows that client and server do get through to the receipt, and
  `Nonces` says when their boxes can share a nonce. `Scenario` and `UnknownTypes` hold sessions small
  enough to write down.

`Wrappers`, `Seqs`, `Numbers`, `Bytes` and `Text` hold what the others share.

Everything outside the program is a parameter: what each read meets and how long it waits, whether
each write succeeds and what it costs, the operator's answer and how long it takes, whether the file
can be read and replaced, and the instant a cancel arrives. Theorems hold for all of them. Time is a
natural number of milliseconds that never goes backwards; reads, writes, the prompt, the sleeps and
explicit lags are what takes it. Each connection leaves a ghost log of clock readings, sealed frames,
proof checks, questions and writes, and the theorems about what happened when are about that log.

Library code is a parameter too (`Server.Library`): which term the bytes of a frame are, OpenSSH key
parsing, the contributory check of X25519, and the PIN proof. Nothing is assumed about it; where a
result depends on a key's type, the type stored in that run decides.

A line is *legible* (`Parsing.Legible`) when its key type passes the file scanner's key-type test, or
else when it is no comment and quotes hide every space in it. For a type without quotes only the first
counts. Whoever writes a line can check this before.

## What turned out not to hold everywhere

- README.md:135 of the repository says that three wrong PINs lock the session. The code
  (`src/server.rs:112-158`) only retires the PIN and keeps serving the token. The model follows the
  code: see `PeerLimits.RetirementOnlyStopsPins` and `SessionSafety.HonestClientEndsSession`.
- The SSH user and the path in an offline payload are cut at 255 bytes without regard to characters.
  When a cut splits a character the encoder's output is one its own decoder refuses.
  `Codec.CutMaySplitACharacter` gives such a payload, and `Codec.DecodeOfEncode` the exact condition.
- The server accepts any key algorithm whose name contains `ed25519`; the file scanner knows only
  types starting `ssh-`, `ecdsa-` or `sk-`. A key under another type is written, reported as enrolled
  and acknowledged, but cannot be found again, is not recognised by the next bind, and is not removed
  by the id printed for it. `UnknownTypes.ReceiptMayBeUntrue` is such a connection from end to
  end; `Receipts.ReceiptIsTrue`, `Unbind.BindIsIdempotent` and `SessionSafety.UnbindUndoesSession` have
  the exact condition.
- Wrong PINs from strangers can decide who is enrolled: three of them retire the PIN, and its owner is
  turned away from then on. `SpentPin.WrongPinsDecideWhoIsBound` is such a session, and
  `SpentPin.WrongPinsMissNobody` says exactly when they change nothing for anybody else: when no
  connection after retirement comes to a PIN comparison. Clients with the token are never touched.
- The id printed after a bind does not always undo it. For a key that was in the file already it takes
  out a line the session did not write when that line is marked, and for an unmarked comment
  (`alice@laptop`) the whole comment is printed as the id and the key stays:
  `Unbind.UnbindOfHeldKey`, and `SessionSafety.UnbindUndoesSession` for the session.
- An options field that itself starts like a key type, or like a comment, hides the key behind it:
  `Parsing.OptionedLineParses` is an if-and-only-if.
- Sequence numbers wrap at 2^64: `Frame.NonceRepeats` says exactly which seals then share a nonce.
- Nonces are unique within a connection, not within a session. Each INTRO makes the server derive the
  channel anew, counters at zero, so a replayed INTRO and HELLO are answered again under the same key
  and nonce, and with the mode rewritten the answers differ: `Nonces.ReplayedHelloReusesANonce`. One
  greeting of a key is exactly what its nonces bear (`Nonces.OneGreetingIsTheLimit`), and it is for
  keys greeted once that the ideal boxes of `Agreement` speak of one seal per nonce.

## Model

| member | source | states |
|---|---|---|
| Agreement.ServerAgreesWithClient | src/server.rs:220-381 | Under a network that drops, replays, reorders, reflects and injects frames and rewrites INTRO, without the client's channel keys: an enrolment on the client's channel means the client had opened an offer that reads, field by field, as the configured host record, asked for exactly that key and device, and that key, an ed25519 one, is what the file received under the session's marker and the device's slug. |
| Agreement.ClientAgreesWithServer | src/server.rs:375-400 | A client that opens DONE ok shares a run in which the server enrolled that client's own request after an offer that reads as the configured host record; the file now holds the key under the comment the client was given if and only if it held the key before or the line written is legible. |
| LoopAgreement.ClientAgreesWithLoop | src/server.rs:102-166 | The same of the accept loop: a client that opens DONE ok shares a session that ended bound under that comment, with its own request, and whose file holds the key under it if and only if it did before or the line is legible. |
| LoopAgreement.LoopAgreesWithClient | src/server.rs:102-166 | When the accept loop binds on the client's channel, the client had opened an offer that reads as the configured host record, and its own request is what the file received under the outcome's comment. |
| LoopAgreement.ExchangeIsARun | src/server.rs:220-381 | A connection of the loop, read frame by frame as the network delivers it, is a run of the agreement's server, with the same file and the same enrolment if any. |
| Messages.OfferReads | src/server.rs:283-314 | Name, addresses, user, port and host keys each read back from the OFFER under their own key: the client gets the whole configured record. |
| Messages.DoneReads | src/server.rs:383-398 | A receipt reads as accepted under its comment, a refusal as refused for its reason. |
| Messages.EnrollReads | src/server.rs:319-326 | An ENROLL asks with its text under "pubkey", for the cleaned name under "device", or for none. |
| Messages.DeviceNameIsClean | src/server.rs:322-326 | A device name is what is left without control characters, cut at 64 characters. |
| Messages.FirstEntryCounts | src/frame.rs:165-173 | Of several entries under a key the first one counts. |
| Completion.ReceiptIsReachable | src/server.rs:220-400 | Agreement is not vacuous: for every client with the right token and a request that is vetted, confirmed in time and stored, there is a run in which the network only delivers and the client ends with its receipt. |
| Agreement.StepKeeps | src/frame.rs:70-113 | The invariant behind agreement: whatever act the network, client or server takes, every box in the air is the client's HELLO or ENROLL or the server's OFFER, refusal or receipt under its own nonce, and the file differs from the start only by the recorded enrolment. |
| Agreement.FactArises | src/server.rs:318-381 | The decisive step: an ENROLL accepted on a key the network does not know is the client's own, sent after its own offer. |
| Agreement.EnrollBoxes | src/server.rs:318-400 | Everything sealed in answer to an ENROLL is under the sending key and the current number. |
| Agreement.StoredRequest | src/server.rs:318-362 | An enrolling answer stored the canonical type and material of the very key in that ENROLL, under the session's comment for the device it named. |
| SessionSafety.WholeRunAccounting | src/server.rs:102-166 | For every run, over any peers, keys and faults: an enrolment is exactly one append-or-find of the initial file, after which the first line with the key carries the reported comment if and only if the key was there before or its line is legible; every other outcome, and a session still running, leaves the file exactly as it started. |
| SessionSafety.UnbindUndoesSession | src/main.rs:362-367 | For every run on a file without the session's id that enrols: unbinding by the id printed for the comment removes exactly the new line and restores the file's lines from before the session if the line is legible, and otherwise finds nothing and leaves the key; if the key was there already the session wrote nothing, and the id does to that key what `UnbindOfHeldKey` says. |
| Unbind.UnbindOfHeldKey | src/main.rs:362-367 | The id printed for the comment of a key that was there takes all its lines if and only if each carries a mark with that id, which without duplicate keys is if and only if the comment is marked; a marked comment's id always takes some line. |
| SessionSafety.PinGuessingIsBounded | src/server.rs:111-155 | Over every run at most three wrong PINs are compared, the events are a prefix of two warnings and one retirement, and the PIN is retired exactly from the third failure on. |
| SessionSafety.NothingHappensLate | src/server.rs:118-165 | Over every run, each accept, each question to the operator and each write directly follows a clock reading below the deadline, and nothing is accepted once a cancel is in. |
| SessionSafety.SessionEnds | src/server.rs:118-165 | When every live iteration moves the clock on, wherever its time goes, the loop has ended after one iteration more than milliseconds were left. |
| SessionSafety.StepTakesTime | src/server.rs:118-165 | The clock never turns back; an iteration that leaves the session live fails to advance it if and only if nothing was waited for before its checks and the exchange it served took no time, and one that finds no connection takes 100 ms more than it waited. |
| SessionSafety.IgnoredPeersCannotSteer | src/server.rs:156-158 | Deleting every connection that ends ignored, with its time kept, changes neither outcome nor file nor what the operator is told. |
| SessionSafety.UnboundPeersCannotSteer | src/server.rs:140-158 | Deleting also every connection that ends in a wrong PIN, and with it those turned away because the PIN is spent, still changes neither outcome nor file: only connections that bind or are declined decide. |
| SpentPin.WrongPinsMissNobody | src/server.rs:140-158 | Deleting only the connections that end in a wrong PIN, their time kept, leaves the reply to every other connection as it was if and only if no connection served after retirement comes to a PIN comparison; then outcome and file are the same too. |
| SpentPin.TokenClientsAreUnaffected | src/server.rs:259-260 | When only clients of other modes than PIN are served after retirement, every reply of the run, its outcome and its file are those of the run without the wrong PINs. |
| SpentPin.SpentPinTurnsAway | src/server.rs:261-264 | Once the PIN is spent, a client that would have bound by PIN gets the retirement refusal, the session goes on and the file is untouched; with the PIN unspent the session ends with that client bound. |
| SpentPin.WrongPinsDecideWhoIsBound | src/server.rs:140-158 | One whole session: after three wrong PINs the PIN's owner is turned away and the token's owner is bound; without them the PIN's owner is. |
| SessionSafety.HonestClientEndsSession | src/server.rs:107-155 | From any live state a client that has the token, or the PIN while it is live, that is prompt within each window and is confirmed ends the session enrolled under its device name. |
| HonestClient.HonestClientIsEnrolled | src/server.rs:220-381 | The same for one connection, from frames that arrive in any chunks, INTRO and HELLO in their window and ENROLL in its own: no honest client is turned away, and the line stored is the one for the key it sent. |
| HonestClient.PinIsRefused | src/server.rs:261-273 | A prompt client in PIN mode whose proof does not count is refused as soon as HELLO is in: counted while the PIN is live, ignored once it is retired. |
| Conversation.ConnectionFacts | src/server.rs:220-400 | Every connection's sealed frames are a prefix of DONE err, of OFFER and DONE err, or of OFFER and DONE ok; OFFER is sealed only after a proof was accepted; any result but enrolled leaves the file as it was; a retired PIN is never compared; asking and storing follow a timely clock reading. |
| Conversation.OfferNeedsProof | src/server.rs:228-278 | A connection is made the offer if and only if its INTRO is version 1 with a contributory 32-byte key and a mode, and the HELLO read after it is the next box under that key and carries the token, or while the PIN is live the PIN's proof for that very key; it enrols only then, and without a sound INTRO it is sealed nothing. |
| Conversation.IntroIsVetted | src/server.rs:228-254 | Exactly the sound INTROs are answered, on the channel derived from the key they bring. |
| Admission.NobodyEntersUnproven | src/server.rs:254-278 | Over every run with a hostile network and for every key: an offer sealed to it or an enrolment on it means that a HELLO under that key with such a proof was delivered. |
| Conversation.ConfirmTruth | src/server.rs:337-381 | Whatever the operator, the clocks and the file do between ENROLL and DONE, result, receipt and file tell the same story. |
| Consent.AnswerDecides | src/server.rs:341-362 | Over every connection: two steps before any write the operator said yes, to the device reported; the result is declined if and only if the operator said no, and then nothing is written, the file is as before, and the client is told "declined on the host". |
| Consent.OperatorHasTheLastWord | src/server.rs:102-166 | Over every run: no write without that yes, the binding one was for the device bound, and the session ends declined if and only if the operator said no, with the file as it started. |
| Consent.EnrollVerdicts | src/server.rs:318-352 | The checks on ENROLL in their order, each with its result, its reason to the client and an untouched file: unparseable key, no ed25519, expired, declined, expired after the answer. |
| Consent.HelloVerdicts | src/server.rs:259-278 | A wrong token is not even answered, a wrong PIN is counted and told, a retired PIN is only told, and an unknown mode is left alone. |
| Consent.RunEndsFairly | src/server.rs:118-125 | A session that ends canceled does so with a cancel in, and one that ends expired without one and past the deadline. |
| Conversation.HelloFacts | src/server.rs:256-316 | HELLO leads to the offer only behind an accepted proof, to one counted wrong PIN with one refusal, or to at most a refusal; it never touches the file. |
| PeerLimits.OneWindowPerPeer | src/server.rs:187-319 | However a peer paces and cuts its bytes, INTRO and HELLO together end by five seconds from the start or by the offer's deadline, ENROLL by two minutes from the accepted proof or by the offer's deadline, and a peer without an accepted proof holds the server no longer than the first window and one refusal. |
| PeerLimits.RetirementOnlyStopsPins | src/server.rs:259-275 | Retiring the PIN leaves a connection's whole course unchanged if and only if it never came to a PIN comparison; every other connection gets the retirement refusal and no offer, even with the right PIN. |
| Receipts.ReceiptIsTrue | src/server.rs:360-381 | A connection that enrols sent OFFER and DONE ok, and the comment in DONE and in the result is that of the first line holding the key in the file as it now is, if and only if the key was there before or its line is legible. |
| Receipts.WrittenKeyIsHeld | src/authkeys.rs:132-155 | After a successful append-or-find the first line with that material carries the reported comment if and only if the key was there before or its line is legible; the entries are the old ones when it was there, and the old ones and the new line when not. |
| Receipts.HeldExactlyWhenTypeIsKnown | src/authkeys.rs:50-91 | An appended key is found again under its comment if and only if its line is legible, which for a type without quotes is if and only if the type passes the scanner's key-type test. |
| KnownTypes.OrdinaryKeyIsBound | src/server.rs:354-381 | Over every connection in which an honest client brings a new ssh-ed25519 key: it is enrolled under marker, id and the slug of its device, one line is added that parses to its three parts, the key is held under the comment reported, and the id printed for it takes out exactly that line. |
| Receipts.EnrolledButNotHeld | src/server.rs:332-381 | An honest client whose new key makes an illegible line is enrolled and gets DONE ok over a whole connection, and then no line of the file is found to hold its key. |
| UnknownTypes.UnknownKeyIsNotHeld | src/server.rs:332-381 | That happens to every new key of type `x-ed25519@h`, which passes the server's ed25519 test. |
| UnknownTypes.ReceiptMayBeUntrue | src/server.rs:332-381 | One whole session, client and surroundings in which it does, from INTRO to DONE ok. |
| Receipts.ConnectionIsProper | src/server.rs:354-362 | Every line a connection stores, whatever keys the library parses, is made of plain tokens under a comment of this session that the parser gives back unchanged. |
| BindSession.Run | src/server.rs:102-166 | The accept loop over mutable clock, file, failure counter and retired flag ends with the outcome, events, log, time and file of the specified run. |
| BindSession.Handle | src/server.rs:168-178 | Any error inside a connection becomes an ignored connection; time, file and log are those of the specified exchange. |
| BindSession.ReadIntro | src/server.rs:229-252 | Version, key, mode and the contributory check, read in turn with their early exits, equal the specified answer to INTRO. |
| BindSession.ServeConnection | src/server.rs:220-254 | INTRO under the shared pre-authentication deadline, and the rest of the exchange over the same socket, equal the specified exchange. |
| BindSession.ServeAfterIntro | src/server.rs:254-257 | HELLO is read on what is left of the same deadline, on a freshly derived channel. |
| BindSession.ServeHello | src/server.rs:256-316 | Proof check, PIN branches, new deadline and OFFER equal the specified answer, and the channel is left where ENROLL continues. |
| BindSession.ServeAfterHello | src/server.rs:318-319 | ENROLL is read on the longer clock and answered as specified. |
| BindSession.ServeEnroll | src/server.rs:318-335 | Missing fields, device clean-up, key parsing and the ed25519 test, with their refusals, equal the specified answer. |
| BindSession.ConfirmAndStore | src/server.rs:341-352 | Both clock checks around the operator's answer and their refusals equal the specified answer. |
| BindSession.StoreKey | src/server.rs:354-381 | The canonical fields, the one append-or-find, the error reply and the receipt, with its delivery reported apart, equal the specified answer. |
| BindSession.SendDone | src/server.rs:383-400 | DONE is sealed under the next number whether or not it gets out. |
| BindSession.CountPinFailure | src/server.rs:140-154 | Counter, retired flag and event after one more wrong PIN. |
| Frame.LinkIsExactlyOnce | src/frame.rs:70-112 | Between the two ends of one connection, for every interleaving of seals with opens on replayed, reflected, reordered or foreign terms, what each end accepted is a prefix of what the other sealed, and no key and nonce are used twice. |
| Frame.ServerAcceptsNext | src/frame.rs:85-92 | In such a run the server opens a term if and only if it is the next one the client sealed, and keeps its state otherwise. |
| Frame.ClientAcceptsNext | src/frame.rs:105-112 | The same for the client. |
| Frame.NonceInjective | src/frame.rs:70-74 | Distinct sequence numbers have distinct nonce bytes. |
| Frame.NonceRepeats | src/frame.rs:70-83 | Of any seals in a row, two share a nonce if and only if their places agree modulo 2^64. |
| Frame.NonceLayout | src/frame.rs:70-74 | Four zero bytes, then the number with its high byte first. |
| Nonces.NoncesNameWhenGreetedOnce | src/server.rs:228-254 | Over every run of client, server and hostile network, and for any client key the server is greeted with at most once, two boxes on that key's channel with the same key and nonce are the same box. |
| Nonces.ReplayedHelloReusesANonce | src/server.rs:254-275 | One HELLO delivered after each of two greetings of its key, the second with the mode rewritten, is answered under one key and nonce with the offer and with a refusal. |
| Nonces.OneGreetingIsTheLimit | src/frame.rs:54-83 | All runs with up to a given number of greetings of a key keep its nonces apart if and only if that number is at most one. |
| Frame.Channel.constructor | src/frame.rs:54-68 | Both directions start at number zero under keys bound to the shared secret and both public keys. |
| Frame.Channel.SealToClient | src/frame.rs:76-83 | One box under the server's key and number, which moves on; nothing else changes. |
| Frame.Channel.OpenFromClient | src/frame.rs:85-92 | The exact next box moves the counter on; anything else is an error that changes nothing. |
| Frame.Channel.SealToServer | src/frame.rs:96-103 | The client's counterpart of sealing. |
| Frame.Channel.OpenFromServer | src/frame.rs:105-112 | The client's counterpart of opening. |
| Framing.FramesSurviveFragmentation | src/frame.rs:129-146 | Any prefix of the encoding of any frames, split into any chunks with any interruptions, reads back as exactly the frames that lie whole within it, then an error. |
| Framing.UncutFramesAreWhole | src/frame.rs:141-146 | With the whole encoding present, every frame lies whole within it. |
| Framing.OversizedIsRefused | src/frame.rs:130-135 | A header announcing too much is refused after exactly its four bytes, however they were cut. |
| Framing.FrameLayout | src/frame.rs:141-146 | The length in four bytes, high byte first, and then the frame. |
| Framing.ReadExactServes | src/frame.rs:129-139 | Bytes that come in time are returned in order, and what follows them stays unread. |
| Framing.ReadExactStarves | src/frame.rs:129-139 | A stream that ends early is an error, after everything it held was read. |
| Framing.ReadExactEndsBy | src/server.rs:187-203 | A whole buffer fill, not one read, ends by the deadline it was given, for every pacing, chunking and failure. |
| Framing.ReadFrameEndsBy | src/server.rs:206-208 | The same for header and body together. |
| Stream.Deadlined.Read | src/server.rs:193-203 | A read gets what is left of the deadline as its timeout, and none once the deadline has passed. |
| Stream.Deadlined.ReadAll | src/frame.rs:129-139 | The buffer-filling loop equals the recursive specification of a complete read. |
| Stream.Deadlined.NextFrame | src/frame.rs:129-139 | Header, size test and body equal the specified frame read. |
| Codec.DecodeOfEncode | src/payload.rs:57-195 | Decoding an encoding, with anything after it, gives the payload's normal form if the 255-byte cuts fall between characters, and nothing otherwise. |
| Delivery.DecodedAsSent | src/payload.rs:62-185 | Whatever decodes from an encoding is the payload itself: its first three addresses, the longest whole-character prefix of its name that fits 32 bytes, user and path cut at 255, all else as sent. |
| Delivery.EncodingIsLaidOut | src/payload.rs:62-115 | Every byte of an encoding has its place: version 2, flag, key, token, port high byte first, addresses under family 4 or 6, counted name, and offline the rest. |
| Delivery.DecodedShape | src/payload.rs:122-185 | Whatever decodes is version 2 with its fixed fields in place and at most three addresses, and has an offline part if and only if the lowest flag bit is set. |
| Delivery.UrlCarries | src/payload.rs:58-120 | The URL is the scheme and the encoding in base64url, and nothing is read from any other. |
| Codec.CutMaySplitACharacter | src/payload.rs:89-91 | A payload whose encoding its own decoder refuses: the cut of the SSH user splits a character. |
| Codec.UrlRoundTrip | src/payload.rs:58-120 | The URL brings back the normal form exactly under that condition, and a second trip changes nothing. |
| Codec.UrlIsCanonical | src/payload.rs:117-120 | An accepted URL is the one its payload would be given if and only if nothing follows the payload, no unknown flag is set and the name fits. |
| Codec.NormIsIdempotent | src/payload.rs:62-115 | The normal form (three addresses, name cut at a character, empty path dropped) is its own normal form. |
| Codec.DecodeIgnoresWhatFollows | src/payload.rs:122-185 | Whatever decodes, decodes to the same payload with anything appended. |
| Codec.EncodingIsPrefixFree | src/payload.rs:269-286 | No proper prefix of any payload's encoding decodes. |
| Codec.DecodeIsCanonical | src/payload.rs:122-185 | For bytes decoded without remainder, re-encoding gives them back if and only if no unknown flag is set and the name is at most 32 bytes. |
| Codec.HandshakeLength | src/payload.rs:62-85 | A handshake payload is 54 bytes, 5 or 17 per kept address and the cut name, hence at most 137. |
| Codec.TruncatedNameIsLongest | src/payload.rs:189-195 | The name sent is a valid prefix of at most 32 bytes, and no longer valid prefix fits. |
| Codec.TruncateName | src/payload.rs:189-195 | The decrementing loop stops where the specification does. |
| Codec.EncodePayload | src/payload.rs:62-115 | The pushes and the address loop produce the bytes of the grammar. |
| Codec.DecodePayload | src/payload.rs:122-185 | The cursor decoder, with its early returns, equals the specified parse. |
| Codec.DecodeTail | src/payload.rs:154-173 | The offline part, read through the cursor, equals the specified parse of a tail. |
| Codec.Reader.TakeBytes | src/payload.rs:203-208 | The cursor hands out the next bytes and keeps the rest, or fails when there are too few. |
| Codec.Reader.U8 | src/payload.rs:210-212 | One byte from the cursor. |
| Codec.Reader.U16 | src/payload.rs:214-217 | A big-endian pair from the cursor. |
| Codec.Reader.Addrs | src/payload.rs:136-149 | The address loop equals the recursive parse of that many addresses. |
| Payload.ParseExact | src/payload.rs:122-185 | Parsing finds a record and a remainder if and only if the record is legal and the bytes are its printed form and that remainder. |
| Utf8.CutIsValid | src/payload.rs:188-195 | A valid string cut at a position is valid if and only if the position is a character boundary. |
| Scalars.ValidExactly | src/payload.rs:152-152 | Bytes are accepted as text if and only if they encode some string of Unicode scalar values. |
| AuthKeys.ScanPastOptions | src/authkeys.rs:69-91 | The two-flag scanner loop equals the recursive first-field specification, which the rows of `Parsing` pin down. |
| AuthKeys.SplitMarked | src/authkeys.rs:162-183 | The removal loop yields the selected keys in order and the text of all other lines. |
| AuthKeys.KeyFile.EnsureLine | src/authkeys.rs:132-155 | Report and new file of an append-or-find; an unreadable file is an error and is not written. |
| AuthKeys.KeyFile.RemoveMarked | src/authkeys.rs:158-188 | Report and new file of a removal; nothing is written when nothing is removed. |
| AuthKeys.KeyFile.WriteAtomically | src/authkeys.rs:190-218 | The new content appears whole or the file stays as it was. |
| Parsing.ScannerStopsAtFirstBreak | src/authkeys.rs:65-91 | The first field ends at the first whitespace outside quotes, and at the end of the line when there is none. |
| Parsing.OptionedLineParses | src/authkeys.rs:50-91 | For any legal options, quoted spaces, key-type look-alikes, escaped quotes and backslashes included, parsing gives back exactly type, material and comment if and only if the options field neither starts a comment nor passes for a key type. |
| Parsing.BareLineParses | src/authkeys.rs:50-91 | A line without options, of any type, parses back to what was printed if and only if its type passes the key-type test, or the line is no comment and quotes hide every space in it. |
| Parsing.KnownTypesParse | src/authkeys.rs:50-64 | A line whose type begins with "ssh-", "ecdsa-" or "sk-" parses to exactly its three parts, quotes in it or not. |
| Parsing.OtherFieldsAreSkipped | src/authkeys.rs:62-91 | A first field without quotes that begins with none of these, and with no "#", is skipped, whatever key follows. |
| Parsing.ParseIgnoresPadding | src/authkeys.rs:50-54 | Surrounding whitespace never changes what a line parses to. |
| Editing.RunRefines | src/authkeys.rs:110-188 | Any sequence of binds and unbinds on the text, write faults and unreadable files included, gives the reports and the entries of the same sequence on the abstract list. |
| Editing.UnmarkedLinesSurvive | src/authkeys.rs:158-188 | Over any run, whatever is enrolled, comments, foreign keys and unparseable lines survive in order; when every enrolment reads back and carries the marker nothing unmarked joins them. |
| Editing.DistinctExactly | src/authkeys.rs:129-154 | Over any run, legible or not, each key is held by at most one line throughout if and only if no enrolment appends a line that reads as a key which is there already. |
| Editing.MaterialsStayDistinct | src/authkeys.rs:129-145 | A file without duplicate keys never gets one, over any run of enrolments that read back. |
| Editing.RemovalAccounts | src/authkeys.rs:158-188 | What a removal reports and what it leaves split the old marked keys in order, losing and inventing none, and no other line changes. |
| Editing.KeyTextReads | src/authkeys.rs:151-151 | The appended line parses back to what was enrolled, an empty comment included, if and only if it is legible; otherwise the comment is lost, and a comment of one field is taken for the key material. |
| Editing.AppendedLineParses | src/authkeys.rs:151-151 | The line a bind appends under a type that begins like one parses back to exactly its parts. |
| Editing.HolderIsFirst | src/authkeys.rs:139-147 | Of several lines with a key the first one is the holder. |
| Text.LineEnds | src/authkeys.rs:139-139 | A line ends at a line feed, with or without one carriage return before it; a bare final carriage return is kept. |
| Unbind.UnbindUndoesBind | src/authkeys.rs:132-188 | On a file without the key and the id, bind then unbind by that id reports exactly that one key and restores the lines if the line written is legible, and otherwise reports nothing and leaves the file as bound. |
| Unbind.BindIsIdempotent | src/authkeys.rs:129-145 | Binding a key again, under any comment, reports the line that is there and writes nothing, if and only if the key was there before or its line is legible. |
| Unbind.UnbindIsIdempotent | src/authkeys.rs:158-188 | Unbinding again finds nothing and writes nothing. |
| Unbind.PrintedIdSelects | src/main.rs:627-632 | The id printed for any marked line is the one that removes that line. |
| Unbind.MarkerRoundTrip | src/authkeys.rs:114-118 | The marker parser takes the server's comment apart into exactly its id and slug. |
| Unbind.BareMarker | src/authkeys.rs:114-118 | A marker without a second colon is all id and names no device. |
| Unbind.MarkerCommentIsOneField | src/server.rs:360-360 | For every device name, the comment is a single whitespace-free field that starts with the marker. |
| Unbind.Run | src/main.rs:555-604 | Exit code, notice and file of every branch, on the arguments themselves: the marks are listed if and only if `--list` is given or neither an id nor `--all`; `--all` leaves no mark, an id leaves exactly the marks with another id in their order, each key taken is reported by id and device, and unmarked lines never change. |
| Util.DeviceSlug | src/util.rs:48-70 | The loop with its early break equals the slug specification. |
| TextCodecs.SlugJoinsWords | src/util.rs:48-70 | A slug is the name's runs of ASCII letters and digits, lowercased and joined by dashes, cut to 24 and not left ending in a dash; "device" when there are none. |
| TextCodecs.AsciiLetters | src/util.rs:52-53 | Which characters count as letters and digits, and how capitals are lowered. |
| Util.SlugShape | src/util.rs:46-70 | Every slug has 1 to 24 lowercase letters, digits and dashes, with no leading, trailing or doubled dash. |
| Util.SlugFixpoint | src/util.rs:46-70 | A string is its own slug if and only if it has that shape; slugging twice is slugging once. |
| Util.SlugSpellsName | src/util.rs:48-70 | A slug's letters are a prefix of the name's own, lowercased; a name without any becomes "device". |
| Util.HexDecodeExact | src/util.rs:20-44 | Hex decodes to given bytes if and only if it is their encoding, in either case. |
| TextCodecs.HexAt | src/util.rs:20-22 | Two lowercase digits for each byte, the high one first. |
| Util.B64UrlExact | src/util.rs:8-14 | Each byte string has exactly one accepted unpadded base64url spelling. |
| TextCodecs.RegroupKeepsBits | src/util.rs:8-10 | The sextets of an encoding are the bits of the bytes, six at a time, filled with zero bits at the end. |
| TextCodecs.SymbolIs | src/util.rs:8-10 | The URL-safe alphabet: capitals, small letters, digits, dash and underscore. |

## Left out

- X25519, HKDF, ChaCha20-Poly1305, constant-time comparison and key generation: library code, here
  injective symbolic terms and a predicate for the contributory check.
- CBOR bytes and OpenSSH key syntax: libraries, here parameters from bytes to terms and from text to
  keys.
- Real sockets, file permissions, scratch-file names and symlinks in the atomic write: operating-system
  calls, here a replacement that happens whole or not at all.
- Write timeouts: a write succeeds or fails after a cost of any size, which includes every timeout.
- The text of I/O errors in a refusal: two fixed messages stand for all of them.
- `src/announce.rs`, `src/clip.rs`, `src/qr.rs`, `src/hostinfo.rs`: mDNS, clipboard, QR and interface
  plumbing over libraries.
- `src/cancel.rs`: a cancel is the instant from which the flag reads true.
- The prompt on the terminal, argument parsing, output layout and test hooks of `src/main.rs`: the
  operator is an answer that takes any time, and the listing is the list of keys without its columns.
- Offline binding as a command: its two operations, the payload and the append, are modelled, its
  terminal dialogue is not.
- `examples/gen_vectors.rs`: fixed test vectors.
- Frame.Channel.SealToClient: counters wrap as in a release build; a debug build panics instead.
- Frame.LinkIsExactlyOnce: one connection, so one server end, of fewer than 2^64 moves;
  `Frame.NonceRepeats` says what happens beyond, and `Nonces.OneGreetingIsTheLimit` what a second
  server end on the same key does.
- Frame.ClientAcceptsNext: for the one server end of its connection; with a second end on the same
  key the client may be given that end's box of the same number instead.
- AuthKeys.KeyFile.WriteAtomically: creating the directory, file modes and the exclusive scratch file
  are not stated; only that the content is replaced whole or not at all.
- Editing.RunRefines: enrolments whose type, material or comment hold a line break are excluded; both
  callers pass fields that cannot hold one.
- Editing.MaterialsStayDistinct: for enrolments that read back; `Editing.DistinctExactly` has the exact
  condition for all others.
- SessionSafety.SessionEnds: an iteration that takes no time at all would not bring the deadline
  nearer; `SessionSafety.StepTakesTime` says exactly which those are.
