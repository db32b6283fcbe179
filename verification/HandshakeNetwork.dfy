/** Any number of handshakes at once over a network that reads, drops, reorders and makes up messages:
    an honest acceptance under an honest pinned key has a peer session behind it. */
module HandshakeNetwork {
  import opened ByteCodec
  import opened Wrappers
  import opened SymbolicCrypto
  import opened Channel
  import opened TwoParty
  import opened LockstepRuns
  import opened Authenticity
  import opened KeyFreshness
  import opened Handshake

  /** One run of the protocol by an honest party, as initiator or as responder. */
  datatype Session =
    | Initiating(me: Identity, ini: InitiatorState)
    | Initiated(me: Identity, ini: InitiatorState, peerEpk: Bytes, chan: Chan)
    | Responding(me: Identity, res: ResponderState)
    | Responded(me: Identity, res: ResponderState, chan: Chan)
  {
    function Eph(): PrivKey {
      if Initiating? || Initiated? then ini.ephPriv else res.ephPriv
    }
  }

  /** All honest sessions, and every signature honest parties have put on the wire. */
  datatype Net = Net(sessions: seq<Session>, signatures: set<Signature>)

  /** What honest parties do. Messages come from the network; trust stores are whatever they are by then. */
  datatype NetEvent =
    | Start(me: Identity, eph: PrivKey)
    | Respond(me: Identity, msg1: Message1, eph: PrivKey)
    | FinishInitiator(i: nat, trust: TrustStore, msg2: Message2)
    | FinishResponder(i: nat, trust: TrustStore, msg3: Message3)

  /** An ephemeral key pair is generated anew for each session. */
  predicate FreshEphemeral(net: Net, eph: PrivKey) {
    |eph.pub.raw| == EPK_SIZE && forall s | s in net.sessions :: s.Eph() != eph
  }

  /** The network cannot sign for an honest identity: it can only repeat signatures it has seen. */
  predicate Unforged(net: Net, honest: set<IdKey>, sig: Signature) {
    sig.Signed? && sig.signer in honest ==> sig in net.signatures
  }

  predicate Possible(net: Net, honest: set<IdKey>, e: NetEvent) {
    match e
    case Start(_, eph) => FreshEphemeral(net, eph)
    case Respond(_, _, eph) => FreshEphemeral(net, eph)
    case FinishInitiator(i, _, msg2) =>
      i < |net.sessions| && net.sessions[i].Initiating? && Unforged(net, honest, msg2.sig)
    case FinishResponder(i, _, msg3) =>
      i < |net.sessions| && net.sessions[i].Responding? && Unforged(net, honest, msg3.sig)
  }

  function Move(net: Net, e: NetEvent): Net {
    match e
    case Start(me, eph) => net.(sessions := net.sessions + [Initiating(me, InitiatorStart(me, eph).1)])
    case Respond(me, msg1, eph) =>
      var (msg2, st) := ResponderRespond(me, msg1, eph);
      Net(net.sessions + [Responding(me, st)], net.signatures + {msg2.sig})
    case FinishInitiator(i, trust, msg2) =>
      if i >= |net.sessions| || !net.sessions[i].Initiating? then net else
      var s := net.sessions[i];
      (match InitiatorFinish(s.me, trust, s.ini, msg2)
       case Failure(_) => net
       case Success((msg3, chan)) =>
         Net(net.sessions[i := Initiated(s.me, s.ini, msg2.epk, chan)], net.signatures + {msg3.sig}))
    case FinishResponder(i, trust, msg3) =>
      if i >= |net.sessions| || !net.sessions[i].Responding? then net else
      var s := net.sessions[i];
      (match ResponderFinish(trust, s.res, msg3)
       case Failure(_) => net
       case Success(chan) => net.(sessions := net.sessions[i := Responded(s.me, s.res, chan)]))
  }

  function NetRun(es: seq<NetEvent>): Net {
    if es == [] then Net([], {}) else Move(NetRun(es[..|es| - 1]), es[|es| - 1])
  }

  predicate PossibleRun(honest: set<IdKey>, es: seq<NetEvent>) {
    forall i | 0 <= i < |es| :: Possible(NetRun(es[..i]), honest, es[i])
  }

  // ----- what every run keeps

  /** The session put this signature on the wire: responders sign at once, initiators when they finish. */
  predicate MadeBy(sig: Signature, s: Session) {
    match s
    case Initiating(_, _) => false
    case Initiated(me, ini, peerEpk, _) => sig == Signed(me.key, Transcript(ini.ephPriv.pub.raw, peerEpk))
    case Responding(me, res) => sig == Signed(me.key, Transcript(res.peerEpk, res.ephPriv.pub.raw))
    case Responded(me, res, _) => sig == Signed(me.key, Transcript(res.peerEpk, res.ephPriv.pub.raw))
  }

  predicate WellFormed(s: Session) {
    && |s.Eph().pub.raw| == EPK_SIZE
    && (s.Initiated? ==> |s.peerEpk| == EPK_SIZE && s.chan == InitiatorChannel(s.ini, s.peerEpk))
    && (s.Responded? ==> |s.res.peerEpk| == EPK_SIZE && s.chan == ResponderChannel(s.res))
  }

  ghost predicate NetInv(net: Net) {
    && (forall i | 0 <= i < |net.sessions| :: WellFormed(net.sessions[i]))
    && (forall i, j | 0 <= i < j < |net.sessions| :: net.sessions[i].Eph() != net.sessions[j].Eph())
    && (forall sig | sig in net.signatures :: exists i :: 0 <= i < |net.sessions| && MadeBy(sig, net.sessions[i]))
  }

  /** Signatures keep their maker when sessions are added or finish. */
  lemma MakersStay(net: Net, net': Net, added: set<Signature>)
    requires NetInv(net) && |net.sessions| <= |net'.sessions| && net'.signatures == net.signatures + added
    requires forall i, sig | 0 <= i < |net.sessions| && MadeBy(sig, net.sessions[i]) :: MadeBy(sig, net'.sessions[i])
    requires forall sig | sig in added :: exists i :: 0 <= i < |net'.sessions| && MadeBy(sig, net'.sessions[i])
    ensures forall sig | sig in net'.signatures :: exists i :: 0 <= i < |net'.sessions| && MadeBy(sig, net'.sessions[i])
  {
    forall sig | sig in net'.signatures ensures exists i :: 0 <= i < |net'.sessions| && MadeBy(sig, net'.sessions[i]) {
      if sig in net.signatures {
        var i :| 0 <= i < |net.sessions| && MadeBy(sig, net.sessions[i]);
        assert MadeBy(sig, net'.sessions[i]);
      }
    }
  }

  lemma OpeningKeepsInv(net: Net, honest: set<IdKey>, e: NetEvent)
    requires NetInv(net) && Possible(net, honest, e) && (e.Start? || e.Respond?)
    ensures NetInv(Move(net, e))
  {
    var net' := Move(net, e);
    var n := |net.sessions|;
    if e.Respond? {
      assert MadeBy(ResponderRespond(e.me, e.msg1, e.eph).0.sig, net'.sessions[n]);
      MakersStay(net, net', {ResponderRespond(e.me, e.msg1, e.eph).0.sig});
    } else {
      MakersStay(net, net', {});
    }
  }

  lemma FinishKeepsInv(net: Net, honest: set<IdKey>, e: NetEvent)
    requires NetInv(net) && Possible(net, honest, e) && (e.FinishInitiator? || e.FinishResponder?)
    ensures NetInv(Move(net, e))
  {
    var net' := Move(net, e);
    var s, s' := net.sessions[e.i], net'.sessions[e.i];
    if net' != net {
      assert s'.Eph() == s.Eph() && WellFormed(s');
      if e.FinishInitiator? {
        assert MadeBy(InitiatorFinish(s.me, e.trust, s.ini, e.msg2).value.0.sig, s');
        MakersStay(net, net', {InitiatorFinish(s.me, e.trust, s.ini, e.msg2).value.0.sig});
      } else {
        MakersStay(net, net', {});
      }
    }
  }

  lemma {:induction false} RunKeepsNetInv(honest: set<IdKey>, es: seq<NetEvent>)
    requires PossibleRun(honest, es)
    ensures NetInv(NetRun(es))
  {
    if es != [] {
      var before, e := es[..|es| - 1], es[|es| - 1];
      assert PossibleRun(honest, before) by {
        forall i | 0 <= i < |before| ensures Possible(NetRun(before[..i]), honest, before[i]) {
          assert before[..i] == es[..i];
        }
      }
      RunKeepsNetInv(honest, before);
      if e.Start? || e.Respond? { OpeningKeepsInv(NetRun(before), honest, e); }
      else { FinishKeepsInv(NetRun(before), honest, e); }
    }
  }

  // ----- agreement

  predicate Pinned(trust: TrustStore, name: string, key: IdKey) {
    name in trust && trust[name] == key
  }

  /** An initiator's and a responder's session ran with each other: the same two ephemeral keys, in
      opposite roles, and channels that fit. */
  predicate Partners(i: Session, iEpk: Bytes, iChan: Chan, r: Session, rChan: Chan) {
    && (i.Initiating? || i.Initiated?) && (r.Responding? || r.Responded?)
    && i.Eph() != r.Eph()
    && r.res.peerEpk == i.Eph().pub.raw && iEpk == r.Eph().pub.raw
    && Complementary(iChan, rChan)
  }

  lemma ChannelsFit(st: InitiatorState, rt: ResponderState)
    requires rt.peerEpk == st.ephPriv.pub.raw
    ensures Complementary(InitiatorChannel(st, rt.ephPriv.pub.raw), ResponderChannel(rt))
  {
    assert Exchange(st.ephPriv, PubKey(rt.ephPriv.pub.raw)) == Exchange(rt.ephPriv, PubKey(st.ephPriv.pub.raw));
  }

  lemma SameEphSameSession(net: Net, i: nat, j: nat)
    requires NetInv(net) && i < |net.sessions| && j < |net.sessions|
    requires net.sessions[i].Eph().pub.raw == net.sessions[j].Eph().pub.raw
    ensures i == j
  {
    assert net.sessions[i].Eph() == net.sessions[j].Eph();
  }

  /** Main result, initiator: accepting under an honest pinned key means that the holder of that key has a
      responder session with exactly these two ephemeral keys, whose channel fits the one accepted. */
  lemma InitiatorAgreement(honest: set<IdKey>, es: seq<NetEvent>, net: Net, i: nat, trust: TrustStore, msg2: Message2)
    returns (j: nat)
    requires PossibleRun(honest, es) && net == NetRun(es)
    requires Possible(net, honest, FinishInitiator(i, trust, msg2))
    requires InitiatorFinish(net.sessions[i].me, trust, net.sessions[i].ini, msg2).Success?
    requires trust[msg2.name] in honest
    ensures j < |net.sessions| && (net.sessions[j].Responding? || net.sessions[j].Responded?)
    ensures net.sessions[j].me.key == trust[msg2.name]
    ensures Partners(net.sessions[i], msg2.epk,
                     InitiatorFinish(net.sessions[i].me, trust, net.sessions[i].ini, msg2).value.1,
                     net.sessions[j], ResponderChannel(net.sessions[j].res))
  {
    RunKeepsNetInv(honest, es);
    var s := net.sessions[i];
    var k :| 0 <= k < |net.sessions| && MadeBy(msg2.sig, net.sessions[k]);
    j := k;
    var t := net.sessions[j];
    assert WellFormed(s) && WellFormed(t);
    if t.Initiated? {
      TranscriptBinds(s.ini.ephPriv.pub.raw, msg2.epk, t.ini.ephPriv.pub.raw, t.peerEpk);
      SameEphSameSession(net, i, j);
    } else {
      TranscriptBinds(s.ini.ephPriv.pub.raw, msg2.epk, t.res.peerEpk, t.res.ephPriv.pub.raw);
      ChannelsFit(s.ini, t.res);
      assert i != j;
    }
  }

  /** Main result, responder: accepting under an honest pinned key other than its own means that the holder
      of that key has a finished initiator session with exactly these two keys and the fitting channel. */
  lemma ResponderAgreement(honest: set<IdKey>, es: seq<NetEvent>, net: Net, i: nat, trust: TrustStore, msg3: Message3)
    returns (j: nat)
    requires PossibleRun(honest, es) && net == NetRun(es)
    requires Possible(net, honest, FinishResponder(i, trust, msg3))
    requires ResponderFinish(trust, net.sessions[i].res, msg3).Success?
    requires trust[net.sessions[i].res.peerName] in honest
    requires trust[net.sessions[i].res.peerName] != net.sessions[i].me.key
    ensures j < |net.sessions| && net.sessions[j].Initiated?
    ensures net.sessions[j].me.key == trust[net.sessions[i].res.peerName]
    ensures Partners(net.sessions[j], net.sessions[j].peerEpk, net.sessions[j].chan,
                     net.sessions[i], ResponderFinish(trust, net.sessions[i].res, msg3).value)
  {
    RunKeepsNetInv(honest, es);
    var s := net.sessions[i];
    var k :| 0 <= k < |net.sessions| && MadeBy(msg3.sig, net.sessions[k]);
    j := k;
    var t := net.sessions[j];
    assert WellFormed(s) && WellFormed(t);
    if t.Initiated? {
      TranscriptBinds(s.res.peerEpk, s.res.ephPriv.pub.raw, t.ini.ephPriv.pub.raw, t.peerEpk);
      ChannelsFit(t.ini, s.res);
      assert i != j;
    } else {
      TranscriptBinds(s.res.peerEpk, s.res.ephPriv.pub.raw, t.res.peerEpk, t.res.ephPriv.pub.raw);
      SameEphSameSession(net, i, j);
    }
  }

  /** Why "other than its own": a responder that has its own key pinned under the claimed name accepts the
      signature it just sent as the initiator's, so there the last message proves nothing. */
  lemma OwnKeyPinnedProvesNothing(me: Identity, msg1: Message1, eph: PrivKey, trust: TrustStore)
    requires |msg1.epk| == EPK_SIZE && msg1.name in trust && trust[msg1.name] == me.key
    ensures var (msg2, st) := ResponderRespond(me, msg1, eph);
            ResponderFinish(trust, st, Message3(msg2.sig)).Success?
  {
  }

  // ----- completeness

  /** The keys of a channel, all of one secret and of the two ephemeral keys in this order, by what they are for. */
  predicate KeyedFor(c: Chan, secret: Secret, epkInitiator: PubKey, epkResponder: PubKey, sends: Label,
                     receives: Label)
  {
    && c.send.chainKey == Hkdf(secret, epkInitiator, epkResponder, sends)
    && 0 in c.recv && c.recv[0].chainKey == Hkdf(secret, epkInitiator, epkResponder, receives)
    && c.root == Hkdf(secret, epkInitiator, epkResponder, RootKey)
  }

  /** Two honest parties shake hands over a network that delivers what they send. Each finish succeeds if and
      only if the peer's key is the one pinned under the name that the peer gives; and when both do, each end
      holds the other under that name and the two channels fit. */
  lemma HonestHandshakeCompletes(alice: Identity, bob: Identity, a: PrivKey, b: PrivKey,
                                 aliceTrust: TrustStore, bobTrust: TrustStore,
                                 st1: InitiatorState, st2: ResponderState, msg1: Message1, msg2: Message2)
    requires |a.pub.raw| == EPK_SIZE && |b.pub.raw| == EPK_SIZE
    requires (msg1, st1) == InitiatorStart(alice, a) && (msg2, st2) == ResponderRespond(bob, msg1, b)
    ensures InitiatorFinish(alice, aliceTrust, st1, msg2).Success? <==> Pinned(aliceTrust, bob.name, bob.key)
    ensures InitiatorFinish(alice, aliceTrust, st1, msg2).Success? ==>
              var (msg3, aliceChan) := InitiatorFinish(alice, aliceTrust, st1, msg2).value;
              && (ResponderFinish(bobTrust, st2, msg3).Success? <==> Pinned(bobTrust, alice.name, alice.key))
              && (ResponderFinish(bobTrust, st2, msg3).Success? ==>
                    && Complementary(aliceChan, ResponderFinish(bobTrust, st2, msg3).value)
                    && KeyedFor(aliceChan, DH({a.pub, b.pub}), a.pub, b.pub, InitiatorToResponder, ResponderToInitiator)
                    && aliceChan.myPriv == a && ResponderFinish(bobTrust, st2, msg3).value.myPriv == b)
    ensures msg2.name == bob.name && st2.peerName == alice.name
  {
    ChannelsFit(st1, st2);
  }

  // ----- which error it is

  /** The signature is that key's, over the bytes that both ends are to sign. */
  predicate SignsFor(key: IdKey, sig: Signature, epkInitiator: Bytes, epkResponder: Bytes) {
    sig == Signed(key, PREFIX + epkInitiator + [SEPARATOR] + epkResponder)
  }

  /** The errors of an initiator's finish, for any message: a `HandshakeError`, which counts as a failed
      attempt, if and only if the name is not pinned or the pinned key did not sign; `NotAKey`, which nobody
      catches, if and only if it did sign for a key of the wrong size. */
  lemma InitiatorErrors(me: Identity, trust: TrustStore, st: InitiatorState, msg2: Message2)
    ensures var r := InitiatorFinish(me, trust, st, msg2);
            var signed := msg2.name in trust && SignsFor(trust[msg2.name], msg2.sig, st.ephPriv.pub.raw, msg2.epk);
            && (r == Failure(UnknownIdentity) <==> msg2.name !in trust)
            && (r == Failure(BadSignature) <==> msg2.name in trust && !signed)
            && (r == Failure(NotAKey) <==> signed && |msg2.epk| != 32)
            && (r.Success? <==> signed && |msg2.epk| == 32)
  {
  }

  lemma ResponderErrors(trust: TrustStore, st: ResponderState, msg3: Message3)
    ensures var r := ResponderFinish(trust, st, msg3);
            var signed := st.peerName in trust
                          && SignsFor(trust[st.peerName], msg3.sig, st.peerEpk, st.ephPriv.pub.raw);
            && (r == Failure(UnknownIdentity) <==> st.peerName !in trust)
            && (r == Failure(BadSignature) <==> st.peerName in trust && !signed)
            && (r == Failure(NotAKey) <==> signed && |st.peerEpk| != 32)
            && (r.Success? <==> signed && |st.peerEpk| == 32)
  {
  }

  /** Another's signature over a responder's transcript covers an initiator's key of the right size. */
  lemma OthersSignSizedKeys(s: Session, t: Session, sig: Signature)
    requires WellFormed(s) && WellFormed(t) && s.Responding? && MadeBy(sig, t)
    requires sig.transcript == Transcript(s.res.peerEpk, s.res.ephPriv.pub.raw)
    requires sig.signer != s.me.key && (t.Eph() == s.Eph() ==> t == s)
    ensures |s.res.peerEpk| == EPK_SIZE
  {
    if t.Initiated? {
      TranscriptBinds(s.res.peerEpk, s.res.ephPriv.pub.raw, t.ini.ephPriv.pub.raw, t.peerEpk);
    } else {
      TranscriptBinds(s.res.peerEpk, s.res.ephPriv.pub.raw, t.res.peerEpk, t.res.ephPriv.pub.raw);
    }
  }

  /** Under an honest pinned key other than its own, a responder never meets the error that nobody catches. */
  lemma ResponderMeetsNoOddKey(honest: set<IdKey>, es: seq<NetEvent>, net: Net, i: nat, trust: TrustStore,
                               msg3: Message3)
    requires PossibleRun(honest, es) && net == NetRun(es)
    requires Possible(net, honest, FinishResponder(i, trust, msg3))
    requires net.sessions[i].res.peerName in trust ==>
               trust[net.sessions[i].res.peerName] in honest - {net.sessions[i].me.key}
    ensures ResponderFinish(trust, net.sessions[i].res, msg3) != Failure(NotAKey)
  {
    var s := net.sessions[i];
    ResponderErrors(trust, s.res, msg3);
    if s.res.peerName in trust && SignsFor(trust[s.res.peerName], msg3.sig, s.res.peerEpk, s.res.ephPriv.pub.raw) {
      RunKeepsNetInv(honest, es);
      var k :| 0 <= k < |net.sessions| && MadeBy(msg3.sig, net.sessions[k]);
      OthersSignSizedKeys(s, net.sessions[k], msg3.sig);
    }
  }

  /** An initiator meets it only if the holder of the pinned key has answered a first message whose key was
      itself of the wrong size, and of just the size that the initiator is given. */
  lemma InitiatorMeetsOddKeyOnly(honest: set<IdKey>, es: seq<NetEvent>, net: Net, i: nat, trust: TrustStore,
                                 msg2: Message2)
    returns (j: nat)
    requires PossibleRun(honest, es) && net == NetRun(es)
    requires Possible(net, honest, FinishInitiator(i, trust, msg2))
    requires InitiatorFinish(net.sessions[i].me, trust, net.sessions[i].ini, msg2) == Failure(NotAKey)
    requires trust[msg2.name] in honest
    ensures j < |net.sessions| && net.sessions[j].Responding? && net.sessions[j].me.key == trust[msg2.name]
    ensures |net.sessions[j].res.peerEpk| == |msg2.epk| != EPK_SIZE
  {
    RunKeepsNetInv(honest, es);
    var s := net.sessions[i];
    InitiatorErrors(s.me, trust, s.ini, msg2);
    var k :| 0 <= k < |net.sessions| && MadeBy(msg2.sig, net.sessions[k]);
    j := k;
    var t := net.sessions[j];
    assert WellFormed(s) && WellFormed(t);
    if t.Initiated? {
      TranscriptBinds(s.ini.ephPriv.pub.raw, msg2.epk, t.ini.ephPriv.pub.raw, t.peerEpk);
    } else {
      assert |Transcript(s.ini.ephPriv.pub.raw, msg2.epk)| == |Transcript(t.res.peerEpk, t.res.ephPriv.pub.raw)|;
    }
  }

  /** And it can: the separator may be read as part of either key. */
  lemma SeparatorIsAmbiguous(alice: Identity, bob: Identity, a: PrivKey, b: PrivKey, trust: TrustStore,
                             msg1: Message1, msg2: Message2)
    requires |a.pub.raw| == EPK_SIZE && |b.pub.raw| == EPK_SIZE && Pinned(trust, bob.name, bob.key)
    requires msg1 == InitiatorStart(alice, a).0.(epk := a.pub.raw + [SEPARATOR])
    requires msg2 == ResponderRespond(bob, msg1, b).0.(epk := [SEPARATOR] + b.pub.raw)
    ensures InitiatorFinish(alice, trust, InitiatorStart(alice, a).1, msg2) == Failure(NotAKey)
  {
    assert PREFIX + (a.pub.raw + [SEPARATOR]) + [SEPARATOR] + b.pub.raw
        == PREFIX + a.pub.raw + [SEPARATOR] + ([SEPARATOR] + b.pub.raw);
  }

  // ----- agreement on keys is not agreement on names

  /** The input on which the two ends disagree about who is talking: a network that owns a pinned identity
      puts its name on the initiator's first message and its signature on the third. The initiator ends
      up with `bob`, `bob` with the network's name, and their channels fit. */
  lemma NamesAreNotBound(alice: Identity, bob: Identity, mallory: Identity, a: PrivKey, b: PrivKey,
                         aliceTrust: TrustStore, bobTrust: TrustStore, msg1: Message1, msg2: Message2, msg3: Message3)
    requires |a.pub.raw| == EPK_SIZE && |b.pub.raw| == EPK_SIZE
    requires bob.name in aliceTrust && aliceTrust[bob.name] == bob.key
    requires mallory.name in bobTrust && bobTrust[mallory.name] == mallory.key != alice.key
    requires msg1 == InitiatorStart(alice, a).0.(name := mallory.name)
    requires msg2 == ResponderRespond(bob, msg1, b).0
    requires msg3 == Message3(Signed(mallory.key, Transcript(a.pub.raw, b.pub.raw)))
    ensures InitiatorFinish(alice, aliceTrust, InitiatorStart(alice, a).1, msg2).Success?
    ensures ResponderFinish(bobTrust, ResponderRespond(bob, msg1, b).1, msg3).Success?
    ensures Complementary(InitiatorFinish(alice, aliceTrust, InitiatorStart(alice, a).1, msg2).value.1,
                          ResponderFinish(bobTrust, ResponderRespond(bob, msg1, b).1, msg3).value)
    ensures bobTrust[ResponderRespond(bob, msg1, b).1.peerName] != alice.key
  {
    ChannelsFit(InitiatorStart(alice, a).1, ResponderRespond(bob, msg1, b).1);
  }

  /** Exactly when a responder attributes its channel to the right party: for a session that shares its two
      ephemeral keys with an initiator of honest identity, the key it pins under the claimed name is that
      initiator's if and only if it is an honest one. */
  lemma ResponderAttributesRightly(honest: set<IdKey>, es: seq<NetEvent>, net: Net, i: nat, trust: TrustStore,
                                   msg3: Message3, k: nat)
    requires PossibleRun(honest, es) && net == NetRun(es)
    requires Possible(net, honest, FinishResponder(i, trust, msg3))
    requires ResponderFinish(trust, net.sessions[i].res, msg3).Success?
    requires trust[net.sessions[i].res.peerName] != net.sessions[i].me.key
    requires k < |net.sessions| && (net.sessions[k].Initiating? || net.sessions[k].Initiated?)
    requires net.sessions[k].Eph().pub.raw == net.sessions[i].res.peerEpk && net.sessions[k].me.key in honest
    ensures trust[net.sessions[i].res.peerName] == net.sessions[k].me.key <==>
            trust[net.sessions[i].res.peerName] in honest
  {
    if trust[net.sessions[i].res.peerName] in honest {
      var j := ResponderAgreement(honest, es, net, i, trust, msg3);
      RunKeepsNetInv(honest, es);
      SameEphSameSession(net, j, k);
    }
  }

  // ----- what the channel theorems start from

  /** Channels that fit and come out of the handshake satisfy the hypotheses of the lockstep, authenticity
      and freshness theorems, with the shared secret of the two ephemeral keys as the session's secret. */
  lemma HandshakeStartsSession(cfg: Config, i: Session, iEpk: Bytes, iChan: Chan, r: Session, rChan: Chan,
                               used: set<PubKey>)
    requires Partners(i, iEpk, iChan, r, rChan)
    requires iChan == InitiatorChannel(i.ini, iEpk) && rChan == ResponderChannel(r.res)
    requires {i.Eph().pub, r.Eph().pub} <= used
    ensures Complementary(iChan, rChan)
    ensures AuthSys(cfg, Exchange(i.Eph(), r.Eph().pub), Sys(TwoParty.Start(iChan), TwoParty.Start(rChan), used))
    ensures FreshSys(Sys(TwoParty.Start(iChan), TwoParty.Start(rChan), used))
  {
    var d0 := Exchange(i.Eph(), r.Eph().pub);
    assert Exchange(r.Eph(), i.Eph().pub) == d0;
    StartIsAuthentic(cfg, d0, iChan, iChan.send.chainKey, rChan.send.chainKey, iChan.root);
    StartIsAuthentic(cfg, d0, rChan, rChan.send.chainKey, iChan.send.chainKey, rChan.root);
  }
}
