/** The whole path: a handshake over a hostile network, accepted under an honest pinned key, and then the
    channel it hands over, down to the bytes on the stream. */
module EndToEnd {
  import opened Wrappers
  import opened SymbolicCrypto
  import opened Ratchet
  import opened Channel
  import opened Authenticity
  import opened KeyFreshness
  import opened Handshake
  import opened OnTheWire
  import Capture
  import Conversation
  import Exposure
  import Net = HandshakeNetwork
  import Transport
  import TwoParty

  /** The two channels at the start of their session, with `others` the ratchet keys seen elsewhere. */
  function SessionStart(a: Chan, b: Chan, others: set<PubKey>): TwoParty.Sys {
    TwoParty.Sys(TwoParty.Start(a), TwoParty.Start(b), others + {a.myPriv.pub, b.myPriv.pub})
  }

  // ----- what a session is good for

  /** The speaker of message `n` writes all its frames on one stream. The stream is read back as written, and
      what stands in this message's place is opened by the partner to what was said. */
  ghost predicate HeardAt(cfg: Config, sys: TwoParty.Sys, ts: seq<Conversation.Talk>, n: nat, enc: Encode, dec: Decode)
    requires n < |ts|
  {
    var now := Conversation.After(cfg, sys, ts[..n]);
    var wire := AllWritten(FramesBy(cfg, sys, ts, ts[n].who), enc);
    var k := |FramesBy(cfg, sys, ts[..n], ts[n].who)|;
    && Transport.Sendable(wire) && Transport.ReadAll(Transport.EncodeAll(wire)) == (wire, Transport.ConnectionClosed)
    && k < |wire|
    && Decrypted(cfg, TwoParty.Peer(now, ts[n].who).ch, Understood(wire[k], dec)).1 == Success(ts[n].text)
  }

  ghost predicate Lossless(cfg: Config, sys: TwoParty.Sys, ts: seq<Conversation.Talk>, enc: Encode, dec: Decode) {
    forall who, p | p in FramesBy(cfg, sys, ts, who) :: Encodes(enc, dec, p)
  }

  /** Every turn-taking conversation is heard as it is said. */
  ghost predicate CarriesConversations(cfg: Config, sys: TwoParty.Sys) {
    forall ts: seq<Conversation.Talk>, n: nat, enc, dec |
      n < |ts| && Conversation.SayableAll(cfg, sys, ts) && Lossless(cfg, sys, ts, enc, dec) ::
      HeardAt(cfg, sys, ts, n, enc, dec)
  }

  /** What event `k` accepts, `encrypt` returned to the other end in an earlier send, of the text it opens to. */
  predicate PeersOwnAt(cfg: Config, sys: TwoParty.Sys, es: seq<TwoParty.Event>, k: nat)
    requires k < |es| && es[k].Receive?
  {
    exists j: nat, from | j < k && from != es[k].who ::
      && TwoParty.SentAt(cfg, sys, es, j, from, es[k].frame)
      && var now := TwoParty.Run(cfg, sys, es[..k]);
         Decrypted(cfg, TwoParty.Mine(now, es[k].who).ch, es[k].frame).1 == Success(es[j].text)
  }

  /** No network outside the session gets anything accepted but what the other end sent. */
  ghost predicate AcceptsOnlyPeers(cfg: Config, d0: Secret, sys: TwoParty.Sys) {
    forall adv: Leak, es, k: nat |
      Outside(adv, d0) && AdversarialRun(cfg, d0, adv, sys, es) && AcceptedAt(cfg, sys, es, k) ::
      PeersOwnAt(cfg, sys, es, k)
  }

  /** At any point of any run with fresh ratchet keys, a captured state gives away the party's past sending if
      and only if the party has not taken a ratchet step. */
  ghost predicate KeepsSecrets(cfg: Config, sys: TwoParty.Sys) {
    forall es, p, c: nat | FreshRun(cfg, sys, es) && c < |TwoParty.Mine(TwoParty.Run(cfg, sys, es), p).sent.log| ::
      PastSafeIffStepped(TwoParty.Mine(TwoParty.Run(cfg, sys, es), p), c)
  }

  predicate PastSafeIffStepped(s: TwoParty.Side, c: nat)
    requires c < |s.sent.log|
  {
    && TwoParty.InEpoch(s.sent, s.sent.log[c].epoch, c)
    && (Knows(Capture.CapturedAlone(s.ch), DrawnKey(s.sent, c)) <==> |s.sent.epochs| == 1)
  }

  /** Everything above, for the session that two handshake sessions established. */
  ghost predicate Good(cfg: Config, i: Net.Session, a: Chan, r: Net.Session, b: Chan, others: set<PubKey>) {
    && CarriesConversations(cfg, SessionStart(a, b, others))
    && AcceptsOnlyPeers(cfg, Exchange(i.Eph(), r.Eph().pub), SessionStart(a, b, others))
    && KeepsSecrets(cfg, SessionStart(a, b, others))
  }

  // ----- sessions that a handshake established

  /** Both ends of a session came out of one handshake. */
  predicate Established(i: Net.Session, a: Chan, r: Net.Session, b: Chan) {
    && Net.Partners(i, b.myPriv.pub.raw, a, r, b)
    && a == InitiatorChannel(i.ini, b.myPriv.pub.raw) && b == ResponderChannel(r.res)
  }

  lemma EstablishedStarts(cfg: Config, i: Net.Session, a: Chan, r: Net.Session, b: Chan, others: set<PubKey>,
                          d0: Secret)
    requires Established(i, a, r, b) && d0 == Exchange(i.Eph(), r.Eph().pub)
    ensures Conversation.InTouch(cfg, SessionStart(a, b, others))
    ensures AuthSys(cfg, d0, SessionStart(a, b, others))
    ensures FreshSys(SessionStart(a, b, others))
    ensures Capture.SysKeepsShape(d0, SessionStart(a, b, others))
  {
    Net.HandshakeStartsSession(cfg, i, b.myPriv.pub.raw, a, r, b, others + {a.myPriv.pub, b.myPriv.pub});
    Conversation.HandshakePutsInTouch(cfg, a, b, others + {a.myPriv.pub, b.myPriv.pub});
  }

  /** And it is where the results about captured states start from. */
  lemma EstablishedIsShaken(cfg: Config, i: Net.Session, a: Chan, r: Net.Session, b: Chan, others: set<PubKey>,
                            d0: Secret)
    requires Established(i, a, r, b) && d0 == Exchange(i.Eph(), r.Eph().pub)
    ensures Exposure.HandshakePair(d0, a, b)
    ensures Exposure.Shaken(cfg, d0, SessionStart(a, b, others))
  {
    Exposure.PairIsShaken(cfg, d0, a, b, others + {a.myPriv.pub, b.myPriv.pub});
  }

  lemma TouchCarries(cfg: Config, sys: TwoParty.Sys)
    requires Conversation.InTouch(cfg, sys) && cfg.windowSize <= MAX_SKIP + 1
    ensures CarriesConversations(cfg, sys)
  {
    forall ts: seq<Conversation.Talk>, n: nat, enc, dec |
      n < |ts| && Conversation.SayableAll(cfg, sys, ts) && Lossless(cfg, sys, ts, enc, dec)
      ensures HeardAt(cfg, sys, ts, n, enc, dec)
    {
      var frames := FramesBy(cfg, sys, ts, ts[n].who);
      ConversationOverStream(cfg, sys, ts, n, enc, dec, frames, AllWritten(frames, enc),
                             |FramesBy(cfg, sys, ts[..n], ts[n].who)|, Conversation.After(cfg, sys, ts[..n]));
    }
  }

  lemma AcceptedIsPeers(cfg: Config, d0: Secret, adv: Leak, sys: TwoParty.Sys, es: seq<TwoParty.Event>, k: nat)
    requires AuthSys(cfg, d0, sys) && sys.a.sent.log == sys.b.sent.log == [] && Outside(adv, d0)
    requires AdversarialRun(cfg, d0, adv, sys, es) && AcceptedAt(cfg, sys, es, k)
    ensures PeersOwnAt(cfg, sys, es, k)
  {
    var from := Conversation.Other(es[k].who);
    var j := OnlyPeerFramesAccepted(cfg, d0, adv, sys, es, k, from);
  }

  lemma AuthenticAcceptsOnlyPeers(cfg: Config, d0: Secret, sys: TwoParty.Sys)
    requires AuthSys(cfg, d0, sys) && sys.a.sent.log == sys.b.sent.log == []
    ensures AcceptsOnlyPeers(cfg, d0, sys)
  {
    forall adv: Leak, es, k: nat |
      Outside(adv, d0) && AdversarialRun(cfg, d0, adv, sys, es) && AcceptedAt(cfg, sys, es, k)
      ensures PeersOwnAt(cfg, sys, es, k)
    {
      AcceptedIsPeers(cfg, d0, adv, sys, es, k);
    }
  }

  lemma FreshKeepsSecrets(cfg: Config, d0: Secret, sys: TwoParty.Sys)
    requires AuthSys(cfg, d0, sys) && FreshSys(sys) && Capture.SysKeepsShape(d0, sys)
    ensures KeepsSecrets(cfg, sys)
  {
    forall es, p, c: nat | FreshRun(cfg, sys, es) && c < |TwoParty.Mine(TwoParty.Run(cfg, sys, es), p).sent.log|
      ensures PastSafeIffStepped(TwoParty.Mine(TwoParty.Run(cfg, sys, es), p), c)
    {
      Capture.CapturedPastIsSafeIffStepped(cfg, d0, sys, es, TwoParty.Run(cfg, sys, es), p, c);
    }
  }

  lemma EstablishedIsGood(cfg: Config, i: Net.Session, a: Chan, r: Net.Session, b: Chan, others: set<PubKey>)
    requires Established(i, a, r, b) && cfg.windowSize <= MAX_SKIP + 1
    ensures Good(cfg, i, a, r, b, others)
  {
    var d0, sys := Exchange(i.Eph(), r.Eph().pub), SessionStart(a, b, others);
    EstablishedStarts(cfg, i, a, r, b, others, d0);
    TouchCarries(cfg, sys);
    AuthenticAcceptsOnlyPeers(cfg, d0, sys);
    FreshKeepsSecrets(cfg, d0, sys);
  }

  /** Main result: an initiator finishes its handshake under an honest pinned key. Then the holder of that key
      has a session whose channel makes, with the initiator's, a pair that carries every conversation, from
      which no network outside the session gets anything accepted but what an end sent, and whose captured
      states are safe for the past once stepped. */
  lemma InitiatorAcceptanceCarries(cfg: Config, honest: set<IdKey>, es: seq<Net.NetEvent>, net: Net.Net,
                                   i: nat, trust: TrustStore, msg2: Message2, mine: Chan, others: set<PubKey>)
    returns (j: nat, theirs: Chan)
    requires Net.PossibleRun(honest, es) && net == Net.NetRun(es)
    requires Net.Possible(net, honest, Net.FinishInitiator(i, trust, msg2))
    requires InitiatorFinish(net.sessions[i].me, trust, net.sessions[i].ini, msg2).Success?
    requires InitiatorFinish(net.sessions[i].me, trust, net.sessions[i].ini, msg2).value.1 == mine
    requires trust[msg2.name] in honest && cfg.windowSize <= MAX_SKIP + 1
    ensures j < |net.sessions| && net.sessions[j].me.key == trust[msg2.name]
    ensures Established(net.sessions[i], mine, net.sessions[j], theirs)
    ensures Good(cfg, net.sessions[i], mine, net.sessions[j], theirs, others)
  {
    j := Net.InitiatorAgreement(honest, es, net, i, trust, msg2);
    theirs := ResponderChannel(net.sessions[j].res);
    EstablishedIsGood(cfg, net.sessions[i], mine, net.sessions[j], theirs, others);
  }

  /** The same from the responder's end, whose peer has then finished. */
  lemma ResponderAcceptanceCarries(cfg: Config, honest: set<IdKey>, es: seq<Net.NetEvent>, net: Net.Net,
                                   i: nat, trust: TrustStore, msg3: Message3, mine: Chan, others: set<PubKey>)
    returns (j: nat, theirs: Chan)
    requires Net.PossibleRun(honest, es) && net == Net.NetRun(es)
    requires Net.Possible(net, honest, Net.FinishResponder(i, trust, msg3))
    requires ResponderFinish(trust, net.sessions[i].res, msg3).Success?
    requires ResponderFinish(trust, net.sessions[i].res, msg3).value == mine
    requires trust[net.sessions[i].res.peerName] in honest
    requires trust[net.sessions[i].res.peerName] != net.sessions[i].me.key
    requires cfg.windowSize <= MAX_SKIP + 1
    ensures j < |net.sessions| && net.sessions[j].Initiated? && net.sessions[j].chan == theirs
    ensures net.sessions[j].me.key == trust[net.sessions[i].res.peerName]
    ensures Established(net.sessions[j], theirs, net.sessions[i], mine)
    ensures Good(cfg, net.sessions[j], theirs, net.sessions[i], mine, others)
  {
    j := Net.ResponderAgreement(honest, es, net, i, trust, msg3);
    Net.RunKeepsNetInv(honest, es);
    theirs := net.sessions[j].chan;
    EstablishedIsGood(cfg, net.sessions[j], theirs, net.sessions[i], mine, others);
  }

  /** Completeness, end to end: two honest parties, each with the other's key pinned under the other's name, and a
      network that delivers the three messages. Both finish, the responder knows the initiator by its name, and
      the session is as good as any that an acceptance promises. */
  lemma HonestHandshakeCarries(cfg: Config, alice: Identity, bob: Identity, a: PrivKey, b: PrivKey,
                               aliceTrust: TrustStore, bobTrust: TrustStore, others: set<PubKey>,
                               msg1: Message1, st1: InitiatorState, msg2: Message2, st2: ResponderState)
    returns (i: Net.Session, r: Net.Session)
    requires a != b && |a.pub.raw| == EPK_SIZE && |b.pub.raw| == EPK_SIZE && cfg.windowSize <= MAX_SKIP + 1
    requires Net.Pinned(aliceTrust, bob.name, bob.key) && Net.Pinned(bobTrust, alice.name, alice.key)
    requires (msg1, st1) == InitiatorStart(alice, a) && (msg2, st2) == ResponderRespond(bob, msg1, b)
    ensures i.Initiated? && r.Responded? && i.me == alice && r.me == bob && r.res.peerName == alice.name
    ensures InitiatorFinish(alice, aliceTrust, st1, msg2).Success?
    ensures InitiatorFinish(alice, aliceTrust, st1, msg2).value.1 == i.chan
    ensures ResponderFinish(bobTrust, st2, InitiatorFinish(alice, aliceTrust, st1, msg2).value.0) == Success(r.chan)
    ensures Established(i, i.chan, r, r.chan) && Good(cfg, i, i.chan, r, r.chan, others)
  {
    Net.HonestHandshakeCompletes(alice, bob, a, b, aliceTrust, bobTrust, st1, st2, msg1, msg2);
    i := Net.Initiated(alice, st1, b.pub.raw, InitiatorChannel(st1, b.pub.raw));
    r := Net.Responded(bob, st2, ResponderChannel(st2));
    EstablishedIsGood(cfg, i, i.chan, r, r.chan, others);
  }

  /** A network without either ephemeral key, and without symmetric keys of the session, is outside it. */
  lemma WithoutEphemeralsOutside(adv: Leak, a: PrivKey, b: PrivKey)
    requires a !in adv.privs && b !in adv.privs
    requires forall k | k in adv.keys :: HandshakeSecret(k) != Exchange(a, b.pub)
    ensures Outside(adv, Exchange(a, b.pub))
  {
    forall p | p in adv.privs ensures p.pub !in Exchange(a, b.pub).ends {
      assert p != a && p != b;
    }
  }
}
