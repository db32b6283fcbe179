# A verified model of the secure-comms channel

Two parties talk over an untrusted network. A three-message handshake authenticates them by pinned
identity keys and hands each a channel. The channel encrypts every message under a key of its own
(symmetric ratchet), mixes a fresh Diffie-Hellman secret into its root key from time to time (DH ratchet),
pads plaintexts, and filters replays with a sliding window. Around it stand length-prefixed framing, file
transfer over the channel, and a limiter of failed handshakes. This project models that logic in Dafny and
proves what it promises, over whole runs and for all inputs.

## How the model is built

`SymbolicCrypto` gives keys, shared secrets and ciphertexts as free terms: `MsgOf(k)`, `NextOf(k)`,
`RootOf(root, dh)`, `ChainOf(root, dh)`, an unordered `DH{x, y}`, and `Sealed(key, nonce, header, payload)`
which opens only under exactly what sealed it. What an attacker can compute is the predicate `Knows`, which
is proved to be the least closure of what leaked. Freshly generated keys are parameters that a hypothesis
requires to be unused; the time trigger is a boolean parameter.

| file | what it holds |
|---|---|
| `ByteCodec`, `Padding`, `WireFormat`, `Transport` | the byte-level codecs: integers, padding, frame header, stream framing |
| `SortedMaps` | "delete the lowest keys of a dictionary until it fits", shared by the key cache and the chain table |
| `Ratchet` | sending and receiving chains as mutable objects, proved against functions on values; any-order delivery |
| `ReplayWindow` | the bitmap, proved to stand for the set of accepted counters |
| `SecureChannel` | module `Channel`: `encrypt` and `decrypt` as functions on a channel's state, and the class proved to do just that |
| `TwoParty` | two channels, the network, and each party's sending history |
| `Lockstep`, `LockstepRuns` | both ends agree, over every run in which ratchet steps do not cross |
| `Conversation` | strict turn-taking, as in the command-line programs, satisfies those hypotheses; the healing cadence |
| `Crossing`, `Overtaking` | what happens when ratchet steps do cross, and when a frame overtakes its epoch's announcement |
| `OnTheWire` | conversations as bytes on a stream |
| `Cadence` | when a party announces a new ratchet key, in terms of what it has sent and accepted |
| `Answers`, `Footprint` | every answer of `decrypt`, in any state, and how much a channel remembers |
| `Authenticity`, `Rejection` | an active attacker: what can be accepted, and what a rejected frame leaves behind |
| `KeyFreshness`, `Healing`, `Capture`, `Exposure` | no message key repeats; a fresh step heals a captured state; exactly what a captured state gives away, then, before and after |
| `Handshake`, `HandshakeNetwork` | the handshake, and agreement over any number of concurrent sessions |
| `EndToEnd` | an accepted handshake, at either end, carries conversations down to the bytes and accepts nothing foreign |
| `RateLimiter`, `RateLimiterRefinement`, `Throttling`, `AdmissionBound` | the two limiters, their equivalence, whom they block, and what they admit |
| `FileTransfer`, `FileDelivery` | inbound transfers as an object, reassembly under interleaving, and what becomes of texts, offers and chunks |

Code that updates fields in the repository is a class here, and each method's postcondition equates the
new state with a function of the old one; the theorems are about those functions.

## The hypotheses, and what happens without them

- *Lockstep* assumes that a party takes a ratchet step only when no announcement of the peer's is on its
  way, that plain frames do not overtake the announcement of their own epoch, and that ratchet keys are
  fresh. Frames may otherwise be lost, repeated and reordered, and announcements themselves may arrive in
  any order. It also assumes `window_size <= MAX_SKIP + 1`; the rekey interval need be bounded by
  `MAX_SKIP + 1` only for the statement that no frame is ever too far ahead. The defaults (1024 and 20)
  meet both.
- Crossing steps are not just unproved: `StepOpensIffNotCrossing` says that a step's announcement opens at
  the peer then and there if and only if no announcement of either party was on its way when the step was
  taken, and `CrossingIsForever` that after a crossing nothing that either party sends in an epoch the
  other had not adopted is ever opened.
  Authenticity, key freshness and the results about captured states hold under crossing steps too.
- A plain frame that overtakes its announcement is rejected but moves the chain before it
  (`OvertakenAnnouncement`); the announcement still opens, and then the frame does (`OvertakenOpensLater`).
- `secure_channel.py:8-9` says that a compromise exposes traffic only up to the next rekey. It does up to the
  next rekey of the captured party: `CompromiseEndsWithOwnStep` says that an attacker follows every step the
  peer takes before it has adopted one of the captured party's.
- *Sent* means returned by `encrypt` in an earlier event of the run. Each party's history is only a
  convenience of the proofs: `SentIsCarried` and `CarriedWasSent` say that it carries exactly the frames
  that were sent, with their texts.
- The repository's README (lines 35-42) promises that a captured ratchet state exposes no earlier message
  of the same epoch. A party keeps its ephemeral key of the handshake as its ratchet key until its first
  ratchet step (`handshake.py:132-138`), and from that key every key of the first epoch of both directions
  can be computed again. `HandshakeKeyLeaksAll` gives the input, `CapturedPastIsSafeIffStepped` the exact
  condition for what was sent, `CapturedReceivedIsSafeIffStepped` for what was received, and
  `CapturedChannelLeaks` everything that a captured state gives away otherwise.
- The handshake's transcript names nobody. `NamesAreNotBound` gives an input on which the two ends hold
  fitting channels and disagree about who is talking; `ResponderAttributesRightly` says exactly when the
  responder is right.
- `secure_channel.py:241-246` says that a forged packet must not be able to use up a counter. The replay
  window indeed never moves for one. But `decrypt` asks the receiving chain for the message key
  (line 276) before it checks the tag (line 288), and asking consumes the key. `GarbageBurnsCounter` gives
  the input, and `RejectionSparesUnlessBurning` the exact condition under which a rejected frame leaves a
  genuine one readable.
- `secure_channel.py:66-70` and the repository's README say that a frame of a pruned epoch fails with a
  clear error. When every retained chain starts above the frame's counter, `max()` at line 271 gets no
  elements and raises a plain `ValueError`, which the receive loops do not catch. The model keeps this as an
  outcome of its own, `NoChain`; `EveryAnswer` says when it occurs in any state, `DeliverExactly` when in
  lockstep.
- Two honest parties complete the handshake if and only if each has the other's key pinned under the name the
  other gives (`HonestHandshakeCompletes`). The separator of the transcript is a byte that keys may hold:
  `SeparatorIsAmbiguous` gives an input on which a genuine signature covers a key of the wrong size, which
  ends in an error that nobody catches. Under an honest pinned key other than its own a responder never
  meets it (`ResponderMeetsNoOddKey`), and an initiator only as `InitiatorMeetsOddKeyOnly` says.
- A responder that has its own key pinned under the name the initiator claims accepts its own signature
  back (`OwnKeyPinnedProvesNothing`), so responder agreement is stated for pinned keys other than its own.
- Every completed handshake meets the starting conditions (`HandshakeStartsSession`, `StartsInLockstep`,
  `HandshakePutsInTouch`), and the invariants are kept from there, so none of the theorems is about states
  that cannot be reached.
- The limiters agree for nondecreasing timestamps. Times are real numbers: the two eviction comparisons
  (`rate_limiter.py:67` and `rate_limiter.py:182`) coincide only in exact arithmetic.

## Model

| member | source | states |
|---|---|---|
| `EndToEnd.InitiatorAcceptanceCarries` | handshake.py:155-205 | An initiator that finishes under an honest pinned key has a peer session whose channel, with its own, carries every turn-taking conversation exactly over a byte stream, accepts from a network outside the session only frames the other end's `encrypt` returned, and is safe for the past once stepped. |
| `EndToEnd.ResponderAcceptanceCarries` | handshake.py:233-280 | The same from the responder's acceptance, whose peer session has finished. |
| `EndToEnd.HonestHandshakeCarries` | handshake.py:146-280 | Two honest parties who have each other's keys pinned, over a network that delivers three messages, both finish, know each other by name, and hold a session that promises all that an acceptance does. |
| `EndToEnd.WithoutEphemeralsOutside` | handshake.py:188-198 | A network that holds neither ephemeral key and no symmetric key of the session is outside it, whatever it holds of other sessions. |
| `LockstepRuns.LockstepDelivery` | secure_channel.py:163-357 | After any orderly run from complementary channels, a frame that the peer's `encrypt` returned at any time in it and that may arrive now meets its exact outcome; if it opens, to the text of that send. |
| `LockstepRuns.DeliveredWasSent` | secure_channel.py:163-192 | Every frame an orderly run delivers was returned by the peer's `encrypt` in an earlier event. |
| `Lockstep.DeliverExactly` | secure_channel.py:221-357 | In lockstep, a delivery is stale, a duplicate, an early announcement, of a pruned epoch, too far ahead, or opened to exactly its plaintext, each exactly when it should be; failures leave no trace and lockstep is kept. |
| `Lockstep.SendKeepsLock` | secure_channel.py:163-217 | Sending, with or without a ratchet step, keeps both ends in lockstep if no step crosses. |
| `LockstepRuns.RunKeepsLock` | secure_channel.py:163-403 | Lockstep and the record of used keys are kept by every orderly run. |
| `LockstepRuns.StartsInLockstep` | handshake.py:126-138 | Channels that fit each other start in lockstep. |
| `LockstepRuns.RootsAgree` | secure_channel.py:197-198 | One side has always adopted everything the other announced, and the other's root key is its own folded over the announcements still in flight. |
| `LockstepRuns.StepOpensIffNotCrossing` | secure_channel.py:326-328 | In lockstep, a step's announcement opens at the peer then and there if and only if no announcement of either party was in flight; otherwise its tag fails. |
| `LockstepRuns.BoundedEpochsNeverDesync` | secure_channel.py:270-284 | With a rekey interval up to MAX_SKIP + 1, a fresh frame of a retained epoch, or the announcement of the next, decrypts to its plaintext. |
| `LockstepRuns.DefaultsNeverDesync` | secure_channel.py:105-108 | The default window and rekey interval meet the bounds for that. |
| `Crossing.CrossingIsForever` | secure_channel.py:194-209 | After a step that crosses an announcement of the peer's, in every run of honest frames neither party adopts another announcement, and every frame that announces a key or was sent in an epoch its receiver had not adopted by then is rejected. |
| `Overtaking.OvertakenAnnouncement` | secure_channel.py:270-298 | A plain frame that overtakes its epoch's announcement is rejected as too far ahead, without a trace, or for its tag, having moved the newest chain, and only it, beyond the end of that chain's epoch. |
| `Overtaking.OvertakenOpensLater` | secure_channel.py:262-317 | After that the announcement still opens and, repeated after it, so does the frame, unless it is more than MAX_SKIP + 1 places into its epoch. |
| `Lockstep.RoutedToOwnEpoch` | secure_channel.py:271-273 | The lookup for a frame of an adopted epoch finds that epoch's own start, or nothing if it was pruned; never another epoch. |
| `Lockstep.RetainedGrows` | secure_channel.py:359-363 | Pruning after an adoption keeps exactly the starts of the last three epochs. |
| `Lockstep.FreshKeyIsAvailable` | ratchet.py:129-166 | A counter the window calls fresh is ahead of its chain or has its key in the cache: eviction never drops a key the window would accept. |
| `Lockstep.AnnouncementOpens` | secure_channel.py:262-317 | The next announcement opens and is adopted with the sender's own root and chain; one further ahead fails its tag and changes nothing. |
| `Lockstep.NextAnnouncement` | secure_channel.py:314-357 | Accepting the next announcement yields its plaintext and keeps lockstep. |
| `TwoParty.SendMakesFrame` | secure_channel.py:183-192 | `encrypt` yields a frame exactly when counter and plaintext fit, and it is the frame that the history (epoch, place, key, header) determines. |
| `TwoParty.SendKeepsSender` | secure_channel.py:164-185 | A send keeps the sending half at the end of a well-ordered history whose epochs own distinct keys and bounded lengths. |
| `TwoParty.EpochsStayShort` | secure_channel.py:165-203 | Over any run, against any network, no epoch carries more than max(1, rekey_interval) frames. |
| `TwoParty.SentIsCarried` | secure_channel.py:183-192 | Over any run, a frame that `encrypt` returned is carried by the sender's history ever after, with its text. |
| `TwoParty.CarriedWasSent` | secure_channel.py:183-192 | Over any run, a frame that a history carries was returned by `encrypt` in an earlier send of the text it carries. |
| `Conversation.MessageIsHeard` | client.py:105-119 | In strict turn-taking each message whose frame fits the transport is opened to what was said, and its two events meet the hypotheses of lockstep. |
| `Conversation.ConversationIsHeard` | server.py:104-118 | In a conversation of any length, of messages whose frames fit the transport, every message is heard as it was said. |
| `OnTheWire.ConversationOverStream` | client.py:105-119 | The frames of one party, written as bytes and framed into a stream, are read back as written, and what stands in a message's place is parsed to the frame that the partner opens to its text. |
| `OnTheWire.WrittenIsUnderstood` | secure_channel.py:179-239 | The bytes of a frame are parsed back to it and are as many as its size says, for any encoding lossless on its ciphertext. |
| `Conversation.FrameTakes` | secure_channel.py:179-192 | A message's frame has a writable header and takes exactly the bytes that its length, its padding and its announcement account for. |
| `Conversation.EveryTurnHeals` | secure_channel.py:341-351 | Once any message announced a key, the first message of every later turn announces a fresh one. |
| `Conversation.SameTurnFollowsSchedule` | secure_channel.py:164-181 | A further message of the same turn announces a key exactly when the count or the time trigger says so. |
| `Conversation.HandshakePutsInTouch` | handshake.py:126-138 | Channels that fit each other start a conversation with nothing outstanding. |
| `Cadence.AnnouncesExactly` | secure_channel.py:163-192 | Over any run from a handshake, against any network, a send takes a ratchet step and its frame announces the new key if and only if the time is due, the interval's worth of sends has gone by since the party's last step, or it has accepted a new key of the peer since then. |
| `Cadence.ChannelRemembers` | secure_channel.py:140-151 | Over any run from a handshake, a step is owed exactly when a new key of the peer was accepted since the party's last step, and both message counts are the sends since then. |
| `Cadence.FirstFrameIsPlain` | secure_channel.py:145-151 | After a handshake nobody owes a step: a party's first frame, with no new key accepted and the time not due, has flag 0, no key and counter 0. |
| `Answers.EveryAnswer` | secure_channel.py:221-317 | In any state, for any frame, which plaintext or error `decrypt` answers with, in terms of the counters accepted so far, the starts and positions of the chains, and what the body was sealed under. |
| `Answers.EveryAnswerInRun` | secure_channel.py:221-317 | The same after any run against any network, where the accepted counters are those of the frames accepted in it. |
| `Answers.MalformedExactly` | secure_channel.py:222-234 | For every byte string: it is answered as malformed, and changes nothing, if and only if it has fewer than 9 bytes, or flag 1 and fewer than 41, or a flag above 1. |
| `Answers.EncryptErrors` | secure_channel.py:183-192 | `encrypt` fails for its counter exactly at 2^64, else for its length exactly above 2^32 - 1 bytes when padding; its state moves on all the same. |
| `Footprint.RunStaysCompact` | secure_channel.py:359-363 | Over any run, against any network, a channel keeps at most three receiving chains with at most 1024 skipped keys each, and a bitmap below 2^window_size. |
| `Footprint.NewIsCompact` | secure_channel.py:127-159 | A new channel is within these bounds. |
| `Authenticity.AcceptOnlySent` | secure_channel.py:221-317 | Against a network that holds neither the handshake secret nor a symmetric key of the session, but may hold keys and replay ciphertexts of others, an accepted frame is the peer's, header and all, opened to what the peer sent under that counter, which was not accepted before. |
| `Authenticity.OnlyPeerFramesAccepted` | secure_channel.py:221-317 | For every acceptance of every run, with crossing steps and such a network: the frame was returned by the peer's `encrypt` in an earlier event and opens to the text of that send. |
| `Authenticity.AcceptedOnce` | secure_channel.py:367-403 | Over any such run no party accepts a counter twice. |
| `Rejection.RejectionIsTransactional` | secure_channel.py:221-317 | A rejected frame leaves everything as it was, except that a plain frame with a bad tag or padding may move the one chain it was routed to, along its own sequence. |
| `Rejection.RejectionSparesUnlessBurning` | secure_channel.py:270-298 | A frame that would have been accepted still is after a rejection, with the same plaintext, if and only if the rejected frame did not use up its message key: by asking for the same one, or by filling the cache beyond it. |
| `Rejection.RejectionsSpareUnlessOneBurns` | secure_channel.py:270-298 | The same for any list of rejected frames before it: it is accepted if and only if none of them, in its turn, used up its key. |
| `Rejection.GarbageBurnsCounter` | secure_channel.py:241-298 | Bytes that are no ciphertext, under the header of a plain frame yet to arrive, are rejected and leave that frame undecryptable. |
| `Rejection.RunKeepsCachesBehind` | ratchet.py:148-155 | Over any run, against any network, no cached key is ahead of its chain. |
| `Rejection.InertFramesChangeNothing` | secure_channel.py:249-267 | Striking all rejected announcements of unknown keys from a run changes neither the final states nor any other output. |
| `KeyFreshness.MessageKeysNeverRepeat` | secure_channel.py:183-209 | Over any run with fresh ratchet keys, all message keys drawn by both parties are pairwise distinct. |
| `Healing.PostCompromiseHealing` | secure_channel.py:194-209 | After a full leak of one party's state at any point of a run, and any later step of that party with a fresh key, no root, chain or message key descended from the step, on either side, is in the attacker's closure. |
| `Exposure.CompromiseEndsWithOwnStep` | ratchet.py:15-24 | Of the epochs begun after the capture the attacker reads none of the captured party's, and of the peer's exactly those begun before that party's first step; until the peer adopts the step it begins no other. |
| `Exposure.CapturedReceivedIsSafeIffStepped` | ratchet.py:7-13 | After any orderly run from a handshake, a captured state puts the keys of what its party has received and accepted in reach if and only if the party has not taken a ratchet step. |
| `EndToEnd.EstablishedIsShaken` | handshake.py:126-138 | What a handshake establishes is where that result starts from. |
| `Capture.CapturedChannelLeaks` | ratchet.py:63-71 | A captured channel whose ratchet key is not the handshake's gives away, of all chains begun so far, exactly the message keys its chains have not reached and those in its caches. |
| `Capture.HandshakeKeyLeaksAll` | handshake.py:126-138 | A state that still holds a private key of the handshake gives away every message key, used or not, of the chains the handshake began. |
| `Capture.CapturedPastIsSafeIffStepped` | secure_channel.py:194-209 | After any run, against any network, a captured state puts the keys of what its party has sent in reach if and only if the party has not taken a ratchet step since the handshake. |
| `SymbolicCrypto.KnowsIsLeastClosure` | ratchet.py:63-90 | The attacker's knowledge is the least set holding the leak and closed under every derivation. |
| `SymbolicCrypto.MixedKeyIsSecret` | ratchet.py:74-90 | A key into which an unknown Diffie-Hellman secret was mixed is unknown, if nothing leaked was mixed with it. |
| `Ratchet.AnyOrderAgreement` | ratchet.py:129-166 | For any list of `key_for` calls: successes return the sender's key for that index, no index succeeds twice, within reach an index succeeds exactly when not got before, and the cache never exceeds MAX_SKIP. |
| `Ratchet.KeyForKeepsInv` | ratchet.py:129-166 | One call keeps every passed index handed out, cached, or more than MAX_SKIP behind. |
| `Ratchet.KeyForOutcome` | ratchet.py:129-146 | When a call succeeds, in terms of what was handed out before. |
| `Ratchet.EvictedIsFarBehind` | ratchet.py:160-166 | Eviction reaches only indices more than MAX_SKIP behind. |
| `Ratchet.NthSend` | ratchet.py:109-113 | The n-th `next` yields the n-th key of the chain's KDF sequence. |
| `Ratchet.CapturedChainLeaks` | ratchet.py:124-158 | A captured receiving chain gives away exactly the keys ahead of it and those in its cache. |
| `Ratchet.SendingChain.Next` | ratchet.py:109-113 | The object does one step of the specified chain. |
| `Ratchet.ReceivingChain.KeyFor` | ratchet.py:129-158 | The object's key, error, cache and position are the specified ones, in at most MAX_SKIP + 1 KDF steps. |
| `Ratchet.ReceivingChain.StepThrough` | ratchet.py:148-155 | The derivation loop caches every key it passes and returns the last. |
| `Ratchet.ReceivingChain.EvictExcessSkipped` | ratchet.py:160-166 | What remains of the cache is its MAX_SKIP highest entries. |
| `SortedMaps.TrimToHighest` | secure_channel.py:359-363 | Deleting the first entries in sorted order leaves exactly the highest ones. |
| `ReplayWindow.FilterRefinesAcceptedSet` | secure_channel.py:367-403 | For any offers, the bitmap stands for the accepted counters in the window, and a counter passes if and only if it is above the highest or in the window and never accepted. |
| `ReplayWindow.FilterStaysNarrow` | secure_channel.py:391-403 | For any offers the bitmap stays below 2^size (a window of size 0 takes one bit). |
| `ReplayWindow.MarkRepresents` | secure_channel.py:391-403 | Marking a counter adds exactly that counter to what the bitmap stands for. |
| `ReplayWindow.CheckIsVerdict` | secure_channel.py:367-389 | The bit test answers the question about the set of accepted counters. |
| `WireFormat.ParseBuild` | secure_channel.py:179-192 | A written header is read back as it was, with the body untouched. |
| `WireFormat.BuildParse` | secure_channel.py:221-239 | What is read is exactly what was on the wire, and each error says which frames it covers. |
| `WireFormat.HeaderLayout` | secure_channel.py:15-17 | Flag, key and big-endian counter stand in this order, at these offsets. |
| `Channel.SecureChannel.constructor` | secure_channel.py:113-159 | The object starts as the specified new channel. |
| `Channel.SecureChannel.Encrypt` | secure_channel.py:163-192 | The object's new state and frame are those of the specification, errors after the state moved included; a replaced sending chain is a new object. |
| `Channel.SecureChannel.PerformSendRatchetStep` | secure_channel.py:194-217 | The object takes the specified ratchet step with a new sending chain. |
| `Channel.SecureChannel.Decrypt` | secure_channel.py:221-317 | The object's new state and result are those of the specification, on every path; chains it adds are new objects. |
| `Channel.SecureChannel.ReceiveAnnounced` | secure_channel.py:262-333 | The candidate step touches nothing unless the frame opens. |
| `Channel.SecureChannel.ReceivePlain` | secure_channel.py:270-317 | The routed chain moves first, the window only if the frame opens. |
| `Channel.SecureChannel.CommitReceiveRatchetStep` | secure_channel.py:335-363 | The committed step replaces root and peer key, files the chain, prunes, and owes a reply. |
| `Channel.SecureChannel.MarkSeen` | secure_channel.py:391-403 | The object's bitmap and highest counter move as specified. |
| `Channel.DecryptKeepsSending` | secure_channel.py:221-317 | Nothing received moves the sending half, except that a reply may become owed. |
| `Handshake.TranscriptSpells` | handshake.py:102-103 | What both ends sign, byte by byte: the label, the initiator's key, a bar, the responder's key. |
| `Handshake.TranscriptBinds` | handshake.py:102-103 | Equal transcripts have equal ephemeral keys, once one half is known to have the same length on both sides. |
| `HandshakeNetwork.InitiatorAgreement` | handshake.py:155-205 | Over any interleaving of sessions with a hostile network: accepting under an honest pinned key means its holder has a responder session with the same two ephemeral keys and the fitting channel. |
| `HandshakeNetwork.ResponderAgreement` | handshake.py:233-280 | The same for the responder, whose peer is then a finished initiator, if the pinned key is not its own. |
| `HandshakeNetwork.HonestHandshakeCompletes` | handshake.py:146-280 | Over a network that delivers, each finish succeeds if and only if the peer's key is pinned under the name the peer gives; then each end holds the other's name and the channels fit. |
| `HandshakeNetwork.ResponderMeetsNoOddKey` | handshake.py:233-267 | Over any interleaving of sessions with a hostile network, a responder with an honest key other than its own pinned under the claimed name never meets the uncaught error of a key of the wrong size. |
| `HandshakeNetwork.InitiatorMeetsOddKeyOnly` | handshake.py:155-190 | An initiator under an honest pinned key meets it only if that key's holder has answered a first message whose key was of the same wrong size. |
| `HandshakeNetwork.SeparatorIsAmbiguous` | handshake.py:102-103 | An input on which it does: the separator read as part of either key. |
| `HandshakeNetwork.OwnKeyPinnedProvesNothing` | handshake.py:233-280 | With its own key pinned under the claimed name, a responder accepts its own signature as the initiator's. |
| `HandshakeNetwork.NamesAreNotBound` | handshake.py:102-103 | With the network's name on the first message and its signature on the third, both ends accept, their channels fit, and the responder attributes its own to the network. |
| `HandshakeNetwork.ResponderAttributesRightly` | handshake.py:233-280 | A responder that shares its ephemeral keys with an honest initiator pins that initiator's key under the claimed name if and only if the key it pins is honest. |
| `HandshakeNetwork.ChannelsFit` | handshake.py:106-138 | The two derived channels are complementary: send and receive keys crossed, same root, crossed ratchet keys. |
| `HandshakeNetwork.HandshakeStartsSession` | handshake.py:126-138 | Such channels meet the starting conditions of the authenticity, freshness and lockstep theorems. |
| `RateLimiter.InMemoryLimiter.IsBlocked` | rate_limiter.py:46-54 | Answer and new state are the specified ones; afterwards the key is in the table if and only if it is blocked, and nothing else has changed. |
| `RateLimiter.InMemoryLimiter.SecondsUntilUnblocked` | rate_limiter.py:56-61 | Positive exactly when `is_blocked` would answer yes; after that time it would answer no, and at any earlier moment still yes. |
| `RateLimiter.InMemoryLimiter.RecordFailure` | rate_limiter.py:63-79 | The deque loop keeps what the specification keeps, and blocks when it does. |
| `RateLimiter.InMemoryLimiter.RecordSuccess` | rate_limiter.py:81-86 | Everything about the key is forgotten. |
| `RateLimiter.SqliteLimiter.constructor` | rate_limiter.py:112-145 | Opening a file creates the tables it lacks and changes nothing that is in it. |
| `RateLimiter.SqliteLimiter.IsBlocked` | rate_limiter.py:147-158 | Answer and new tables are the specified ones; afterwards the key's row is there if and only if it is blocked, and nothing else has changed. |
| `RateLimiter.SqliteLimiter.SecondsUntilUnblocked` | rate_limiter.py:160-167 | Positive exactly when `is_blocked` would answer yes; after that time it would answer no, and at any earlier moment still yes. |
| `RateLimiter.SqliteLimiter.RecordFailure` | rate_limiter.py:169-202 | Insert, sweep of all keys, count and upsert leave the specified tables. |
| `RateLimiter.SqliteLimiter.RecordSuccess` | rate_limiter.py:204-207 | All rows of the key are deleted. |
| `RateLimiterRefinement.SameAnswers` | rate_limiter.py:89-110 | From agreeing states, on any calls with nondecreasing times, both limiters give identical answers, wherever the persistent one restarts. |
| `RateLimiterRefinement.SameAnswersFromStart` | rate_limiter.py:89-110 | The same from empty limiters. |
| `RateLimiterRefinement.FailureLeavesNoGarbage` | rate_limiter.py:172-183 | After a failure the file holds no attempt outside the window and no block that is over, of any key. |
| `Throttling.BlockedExactly` | rate_limiter.py:46-86 | After any calls with nondecreasing times either limiter answers "blocked" if and only if less than one cooldown ago the key's failures filled the quota of a window, counted since its last success or block, with no success since; and the wait is what is left of that cooldown. |
| `Throttling.ModerateKeysStayFree` | rate_limiter.py:63-79 | A key that at no failure had failed as often as the quota within the window is never blocked. |
| `Throttling.EnoughFailuresBlock` | rate_limiter.py:63-79 | Among calls without a success of the key, as many failures as the quota within one window bring a block, whatever came before. |
| `Throttling.SuccessForgets` | rate_limiter.py:81-86 | After a success, later answers about the key are those of a new limiter. |
| `AdmissionBound.AdmittedFailuresBounded` | rate_limiter.py:63-79 | With every failure gated by `is_blocked`, a stretch of length L up to the window holds at most max_attempts * (floor(L / cooldown) + 1) failures of a key without successes, whichever limiter answers. |
| `Transport.SendBytes` | transport.py:40-50 | Exactly one frame is appended to the stream, or nothing if it is oversized. |
| `Transport.RecvExact` | transport.py:53-60 | However `recv` splits the stream, the next n bytes are returned and no more consumed, or the close is reported. |
| `Transport.RecvBytes` | transport.py:63-78 | The frame whose encoding heads the stream is read and no more consumed; a claim beyond the limit is refused after its four bytes, however long the rest. |
| `Transport.ReadWhatArrivedWhole` | transport.py:53-78 | Wherever the stream of sent frames is cut, reading yields the frames that arrived whole, in order, then the closed connection. |
| `Transport.ReadAllExactly` | transport.py:53-78 | For every stream, hostile ones included: repeated reading yields exactly the frames within the limit that stand encoded at its head, and stops at the error that follows them. |
| `Transport.ReadsOnlyFrames` | transport.py:63-78 | For every stream: a frame is read if and only if it is within the limit and its encoding is a prefix, and just that prefix is consumed. |
| `Transport.OversizedClaimStops` | transport.py:66-77 | For every stream: a claim beyond the limit is reported, with only its four bytes consumed, exactly when it stands at the head; the close exactly when neither it nor a whole frame does. |
| `Transport.ReadAllSent` | transport.py:40-78 | A stream that arrives completely yields exactly the list of frames sent. |
| `Transport.ReadCutShort` | transport.py:53-60 | A frame cut short anywhere is never taken for a frame. |
| `Padding.PadRoundTrip` | padding.py:40-63 | Every plaintext up to 2^32 - 1 bytes survives padding and unpadding, with zeros as filler; longer ones are refused. |
| `Padding.PaddedLength` | padding.py:66-71 | The padded length is the least admissible size, grows with the message, is less than twice the framed size above the smallest bucket, and is equal within a bucket. |
| `Padding.BucketIsLeast` | padding.py:66-71 | No smaller admissible size holds the framed message. |
| `Padding.UnpadAccepts` | padding.py:52-63 | Unpadding yields a text if and only if its length prefix and the text begin the message. |
| `FileTransfer.FileArrives` | gui.py:734-837 | An accepted offer and its chunks, interleaved with any other traffic: open and exact until the last chunk, then delivered with the sent bytes and closed. |
| `FileTransfer.TransferTracks` | gui.py:779-816 | A transfer short of its size holds exactly the data of its own chunks. |
| `FileTransfer.HandleKeepsAccounts` | gui.py:718-837 | For arbitrary input at most four transfers are open, and none of them has reached its size. |
| `FileTransfer.DeliveredAsOffered` | gui.py:818-837 | For arbitrary input, what is delivered fills the offered size and has the offered digest. |
| `FileDelivery.TextsAreShown` | gui.py:718-732 | For any plaintexts, texts among offers, chunks and anything else: the texts shown are exactly those with first byte 1, in order. |
| `FileDelivery.TextsAreShownUntilEnd` | gui.py:690-703 | If a message ends the worker, exactly the texts before the first such message are shown. |
| `FileDelivery.TextsDisturbNothing` | gui.py:718-732 | Without the texts the same transfers are open with the same contents, and the same is said about them. |
| `FileDelivery.OffersAreAccountedFor` | gui.py:734-837 | For arbitrary input: offers accepted, plus transfers open before, are transfers open after, plus those closed with a notice that says how, plus those replaced under their own id. |
| `FileDelivery.OfferIsAnswered` | gui.py:734-777 | Each offer that does not end the worker gets one notice, which says why it was refused, or that it was accepted and a transfer opened. |
| `FileDelivery.ChunkIsAnswered` | gui.py:779-837 | A chunk closes its transfer if and only if the disk fails or all that has arrived reaches the size; delivery or failed integrity is decided by the digest of all of it. |
| `FileDelivery.QuietExactly` | gui.py:718-790 | Nothing is said, and nothing changes, exactly for an empty plaintext, an unknown type, a chunk of no open transfer, and an offer that ends the worker. |
| `FileDelivery.SentChunksArrive` | gui.py:85-86 | If the chunk messages of an id among all that arrives, however interleaved, are those that were sent, its chunks are the file's in order. |
| `FileDelivery.SentFileArrives` | gui.py:875-931 | The plaintexts that `SendFile` returns, the chunks arriving among any others: the offer is accepted, the last chunk delivers the file, and every text in between is shown. |
| `FileTransfer.SplitJoins` | gui.py:919-923 | The pieces of a file are nonempty, all but the last of exactly the chunk size, and join to the file. |
| `FileTransfer.ChunkTravels` | gui.py:85-86 | A chunk survives its encoding, and padded and sealed it fits a transport frame. |
| `FileTransfer.SendFile` | gui.py:875-931 | The plaintexts of the file: its offer and then its chunks, or nothing for an empty or oversized one. |
| `FileTransfer.InboundTransfers.HandlePlaintext` | gui.py:718-732 | Dispatch on the first byte moves state and notices as specified and keeps the accounts; exactly an offer with such an error ends the worker. |
| `FileTransfer.InboundTransfers.HandleFileOffer` | gui.py:734-777 | An offer opens a transfer or is refused as specified; one whose parsing raises an error that is not caught changes nothing and is reported as such. |
| `FileTransfer.InboundTransfers.HandleFileChunk` | gui.py:779-837 | A chunk extends, completes, fails or is dropped as specified. |
| `FileTransfer.InboundTransfers.AbortInboundTransfers` | gui.py:839-849 | No transfer stays open. |

## Left out

- The inside of the cryptographic primitives (`crypto_utils.py`): they are free constructors. Low-order X25519 points, which make the library's exchange raise an error, and the size limit of AES-GCM are not modelled. The handshake's salt, the concatenation of two 32-byte keys, is a pair.
- The bytes of a ciphertext: `Channel.SecureChannel.Decrypt` takes a parsed frame; `OnTheWire` writes and parses frames for any encoding of ciphertexts that is lossless on the frames of the conversation and adds a 16-byte tag.
- Wall-clock time in the channel: whether the time trigger is due is a boolean input of each send.
- Healing against an active attacker who uses the captured keys at once to take over the session: `Healing.PostCompromiseHealing` is about one who listens.
- After a crossing, what becomes of frames of epochs already adopted, whose chains go on as before.
- Lockstep.DeliverExactly: does not cover plain frames that overtake the announcement of their own epoch, because they break the agreement of chain and window that it keeps; `Overtaking` says what one of them does in lockstep and what follows.
- Concurrent writers of one rate-limit file, journal modes and index creation; clocks that run backwards.
- JSON, hexadecimal and UTF-8 encodings: offers and handshake messages are values, parsed or malformed.
- An error in making the download directory, which `gui.py:760` does not catch either; and what is left behind when the worker ends on an uncaught error.
- File destinations, partial-file removal and the disk itself: `FileTransfer` takes "the disk accepted this" as an input; SHA-256 is symbolic.
- Messages whose frame exceeds the transport's limit: `send_bytes` refuses them after `encrypt` has moved on, and the conversation theorems assume there are none.
- FileTransfer.InboundTransfers.AbortInboundTransfers: does not model closing the handles and deleting the partial files, because files on disk are not part of this model.
- The receive loops that join socket, `decrypt` and message handling (`gui.py:690-703`, `client.py:109-119`, `server.py:104-118`): `Answers` says which answer each frame gets, `FileDelivery.Handled` at which message the GUI's loop ends; the loops themselves are not composed.
- Threads, reconnection, widgets and event routing in `gui.py`, and the rest of `client.py` and `server.py`.
- `identity.py` beyond a map of pinned keys, `history.py`, and `audit_log.py`, whose calls do not affect any state.
