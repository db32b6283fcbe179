/** Against a network that drops, repeats, reorders, alters and forges frames: whatever a party accepts,
    its peer sent, unaltered, and no counter is accepted twice. Nothing is assumed about the order of
    delivery, and ratchet steps may cross. */
module Authenticity {
  import opened ByteCodec
  import opened Wrappers
  import opened SymbolicCrypto
  import opened Ratchet
  import opened ReplayWindow
  import opened Channel
  import opened TwoParty
  import Padding
  import SortedMaps

  // ----- where a receiving chain's keys come from

  /** All of a chain's material grew from the seed `o`. */
  predicate GrownFrom(c: RecvState, o: Key) {
    && Origin(c.chainKey) == o
    && forall i | i in c.skipped :: Origin(c.skipped[i]) == o
  }

  lemma {:induction false} OriginDecides(k: Key)
    ensures HandshakeSecret(k) == HandshakeSecret(Origin(k))
    ensures Depth(k) == Depth(Origin(k))
    ensures Origin(Origin(k)) == Origin(k)
  {
    match k
    case NextOf(c) => OriginDecides(c);
    case MsgOf(c) => OriginDecides(c);
    case _ =>
  }

  lemma RecvKeyGrownFrom(c: RecvState, n: nat, o: Key)
    requires GrownFrom(c, o)
    ensures GrownFrom(RecvKey(c, n).0, o)
    ensures RecvKey(c, n).1.Success? ==> Origin(RecvKey(c, n).1.value) == o
  {
    if n >= c.next {
      OriginOfChainKey(c.chainKey, n - c.next + 1);
      OriginOfChainKey(c.chainKey, n - c.next);
      SkippedGrownFrom(c, n, o);
    }
  }

  lemma {:induction false} SkippedGrownFrom(c: RecvState, n: nat, o: Key)
    requires GrownFrom(c, o) && c.next <= n
    ensures forall i | i in SkippedUpTo(c, n) :: Origin(SkippedUpTo(c, n)[i]) == o
    decreases n
  {
    if c.next < n {
      SkippedGrownFrom(c, n - 1, o);
      OriginOfChainKey(c.chainKey, n - 1 - c.next);
    }
  }

  // ----- what each side keeps, on its own, against any network

  /** A seed of the session: it hangs off the handshake secret `d0`, no deeper than the root key. */
  predicate SessionSeed(o: Key, d0: Secret, root: Key) {
    Origin(o) == o && HandshakeSecret(o) == d0 && Depth(o) <= Depth(root)
  }

  /** The chain grew from a seed of the session that is none of the party's own sending seeds. */
  predicate ForeignChain(h: History, d0: Secret, root: Key, c: RecvState) {
    && GrownFrom(c, Origin(c.chainKey))
    && SessionSeed(Origin(c.chainKey), d0, root)
    && forall i | 0 <= i < |h.epochs| :: h.epochs[i].seed != Origin(c.chainKey)
  }

  predicate ReceivesForeign(h: History, d0: Secret, root: Key, recv: map<nat, RecvState>) {
    forall k | k in recv :: ForeignChain(h, d0, root, recv[k])
  }

  predicate OwnSeeds(h: History, d0: Secret, root: Key) {
    forall i | 0 <= i < |h.epochs| :: SessionSeed(h.epochs[i].seed, d0, root)
  }

  ghost predicate AuthSide(cfg: Config, d0: Secret, s: Side) {
    && Recording(s)
    && HandshakeSecret(s.ch.root) == d0
    && OwnSeeds(s.sent, d0, s.ch.root)
    && ReceivesForeign(s.sent, d0, s.ch.root, s.ch.recv)
    && Represents(cfg.windowSize, s.ch.window, s.accepted)
  }

  lemma DeeperRoot(h: History, d0: Secret, root: Key, dh: Secret, recv: map<nat, RecvState>)
    requires OwnSeeds(h, d0, root) && ReceivesForeign(h, d0, root, recv)
    ensures OwnSeeds(h, d0, RootOf(root, dh)) && ReceivesForeign(h, d0, RootOf(root, dh), recv)
  {
    forall k | k in recv ensures ForeignChain(h, d0, RootOf(root, dh), recv[k]) {
      assert ForeignChain(h, d0, root, recv[k]);
    }
  }

  lemma StepKeepsSeeds(h: History, d0: Secret, root: Key, dh: Secret, recv: map<nat, RecvState>, e: Epoch, text: Bytes)
    requires OwnSeeds(h, d0, root) && ReceivesForeign(h, d0, root, recv) && HandshakeSecret(root) == d0
    requires e.seed == ChainOf(root, dh)
    ensures OwnSeeds(Extend(h, Some(e), text), d0, RootOf(root, dh))
    ensures ReceivesForeign(Extend(h, Some(e), text), d0, RootOf(root, dh), recv)
  {
    var h' := Extend(h, Some(e), text);
    forall k | k in recv ensures ForeignChain(h', d0, RootOf(root, dh), recv[k]) {
      assert ForeignChain(h, d0, root, recv[k]);
      assert Depth(e.seed) > Depth(root);
    }
  }

  lemma SendKeepsAuth(cfg: Config, d0: Secret, s: Side, text: Bytes, timeDue: bool, newPriv: PrivKey)
    requires AuthSide(cfg, d0, s)
    ensures AuthSide(cfg, d0, SendSide(cfg, s, text, timeDue, newPriv))
  {
    var step := NewEpoch(cfg, s.ch, timeDue, newPriv);
    SendKeepsRecording(cfg, s, text, timeDue, newPriv);
    if step.Some? {
      StepKeepsSeeds(s.sent, d0, s.ch.root, Exchange(newPriv, s.ch.peerPub), s.ch.recv, step.value, text);
    } else {
      PlainSendKeepsSeeds(s.sent, d0, s.ch.root, s.ch.recv, text);
    }
  }

  lemma PlainSendKeepsSeeds(h: History, d0: Secret, root: Key, recv: map<nat, RecvState>, text: Bytes)
    requires OwnSeeds(h, d0, root) && ReceivesForeign(h, d0, root, recv)
    ensures OwnSeeds(Extend(h, None, text), d0, root) && ReceivesForeign(Extend(h, None, text), d0, root, recv)
  {
    forall k | k in recv ensures ForeignChain(Extend(h, None, text), d0, root, recv[k]) {
      assert ForeignChain(h, d0, root, recv[k]);
    }
  }

  // ----- receiving: the key a frame is tried under

  /** The key under which `decrypt` tries to open a fresh frame, if it gets that far. */
  function TriedKey(c: Chan, p: Frame): Option<Key>
    requires p.Parsed?
  {
    if AnnouncesNewKey(c, p) then Some(MessageKey(ChainOf(c.root, Exchange(c.myPriv, p.aad.announce.value)), 0))
    else match Route(c.recv.Keys, p.aad.counter)
      case None => None
      case Some(start) =>
        var key := RecvKey(c.recv[start], p.aad.counter - start).1;
        if key.Success? then Some(key.value) else None
  }

  /** Accepting means: the counter was fresh, and the frame opened under the key it was tried under. */
  lemma AcceptedOpened(cfg: Config, c: Chan, p: Frame)
    requires Decrypted(cfg, c, p).1.Success?
    ensures p.Parsed? && Check(cfg.windowSize, c.window, p.aad.counter) == Fresh
    ensures TriedKey(c, p).Some? && Decrypted(cfg, c, p).1 == Unsealed(cfg, TriedKey(c, p).value, p)
  {
    if p.Parsed? && AnnouncesNewKey(c, p) {
      FirstKey(ChainOf(c.root, Exchange(c.myPriv, p.aad.announce.value)));
    }
  }

  /** `k` is a secret of the session, and not one that the party whose history is `h` seals under. */
  predicate ForeignKey(h: History, d0: Secret, k: Key) {
    && HandshakeSecret(k) == d0
    && forall i | 0 <= i < |h.epochs| :: h.epochs[i].seed != Origin(k)
  }

  lemma CandidateKeyIsForeign(h: History, d0: Secret, root: Key, dh: Secret)
    requires HandshakeSecret(root) == d0 && OwnSeeds(h, d0, root)
    ensures ForeignKey(h, d0, MessageKey(ChainOf(root, dh), 0))
  {
    assert Origin(MessageKey(ChainOf(root, dh), 0)) == ChainOf(root, dh);
    assert Depth(ChainOf(root, dh)) > Depth(root);
  }

  lemma ChainKeyIsForeign(h: History, d0: Secret, root: Key, c: RecvState, n: nat)
    requires ForeignChain(h, d0, root, c) && RecvKey(c, n).1.Success?
    ensures ForeignKey(h, d0, RecvKey(c, n).1.value)
  {
    RecvKeyGrownFrom(c, n, Origin(c.chainKey));
    OriginDecides(RecvKey(c, n).1.value);
  }

  lemma TriedKeyIsForeign(h: History, d0: Secret, c: Chan, p: Frame)
    requires p.Parsed? && TriedKey(c, p).Some?
    requires HandshakeSecret(c.root) == d0 && OwnSeeds(h, d0, c.root) && ReceivesForeign(h, d0, c.root, c.recv)
    ensures ForeignKey(h, d0, TriedKey(c, p).value)
  {
    if AnnouncesNewKey(c, p) {
      CandidateKeyIsForeign(h, d0, c.root, Exchange(c.myPriv, p.aad.announce.value));
    } else {
      var start := Route(c.recv.Keys, p.aad.counter).value;
      ChainKeyIsForeign(h, d0, c.root, c.recv[start], p.aad.counter - start);
    }
  }

  // ----- receiving: what is kept

  lemma AskedStaysForeign(h: History, d0: Secret, root: Key, c: RecvState, n: nat)
    requires ForeignChain(h, d0, root, c)
    ensures ForeignChain(h, d0, root, RecvKey(c, n).0)
  {
    RecvKeyGrownFrom(c, n, Origin(c.chainKey));
  }

  lemma ReplacedKeepsForeign(h: History, d0: Secret, root: Key, recv: map<nat, RecvState>, start: nat, chain: RecvState)
    requires ReceivesForeign(h, d0, root, recv) && ForeignChain(h, d0, root, chain)
    ensures ReceivesForeign(h, d0, root, recv[start := chain])
  {
  }

  lemma AdoptedKeepsForeign(h: History, d0: Secret, root: Key, dh: Secret, recv: map<nat, RecvState>, start: nat,
                            chain: RecvState)
    requires ReceivesForeign(h, d0, root, recv) && HandshakeSecret(root) == d0 && OwnSeeds(h, d0, root)
    requires chain == RecvState(NextOf(ChainOf(root, dh)), 1, map[])
    ensures ReceivesForeign(h, d0, RootOf(root, dh), SortedMaps.KeepHighest(recv[start := chain], MAX_RETAINED_CHAINS))
  {
    DeeperRoot(h, d0, root, dh, recv);
    CandidateKeyIsForeign(h, d0, root, dh);
    assert Origin(chain.chainKey) == ChainOf(root, dh);
    assert ForeignChain(h, d0, RootOf(root, dh), chain);
  }

  /** What the receiving half keeps: `decrypt` leaves only session material in the table, whatever the frame. */
  lemma DecryptKeepsForeign(cfg: Config, h: History, d0: Secret, c: Chan, p: Frame)
    requires HandshakeSecret(c.root) == d0 && OwnSeeds(h, d0, c.root) && ReceivesForeign(h, d0, c.root, c.recv)
    ensures HandshakeSecret(Decrypted(cfg, c, p).0.root) == d0
    ensures OwnSeeds(h, d0, Decrypted(cfg, c, p).0.root)
    ensures ReceivesForeign(h, d0, Decrypted(cfg, c, p).0.root, Decrypted(cfg, c, p).0.recv)
  {
    if p.Parsed? && Check(cfg.windowSize, c.window, p.aad.counter) == Fresh {
      if AnnouncesNewKey(c, p) {
        AnnouncedKeepsForeign(cfg, h, d0, c, p);
      } else {
        PlainKeepsForeign(cfg, h, d0, c, p);
      }
    }
  }

  lemma AnnouncedKeepsForeign(cfg: Config, h: History, d0: Secret, c: Chan, p: Frame)
    requires HandshakeSecret(c.root) == d0 && OwnSeeds(h, d0, c.root) && ReceivesForeign(h, d0, c.root, c.recv)
    requires AnnouncesNewKey(c, p)
    ensures HandshakeSecret(DecryptAnnounced(cfg, c, p).0.root) == d0
    ensures OwnSeeds(h, d0, DecryptAnnounced(cfg, c, p).0.root)
    ensures ReceivesForeign(h, d0, DecryptAnnounced(cfg, c, p).0.root, DecryptAnnounced(cfg, c, p).0.recv)
  {
    var dh := Exchange(c.myPriv, p.aad.announce.value);
    FirstKey(ChainOf(c.root, dh));
    DeeperRoot(h, d0, c.root, dh, c.recv);
    AdoptedKeepsForeign(h, d0, c.root, dh, c.recv, p.aad.counter, RecvState(NextOf(ChainOf(c.root, dh)), 1, map[]));
  }

  lemma PlainKeepsForeign(cfg: Config, h: History, d0: Secret, c: Chan, p: Frame)
    requires ReceivesForeign(h, d0, c.root, c.recv) && p.Parsed?
    ensures DecryptPlain(cfg, c, p).0.root == c.root
    ensures ReceivesForeign(h, d0, c.root, DecryptPlain(cfg, c, p).0.recv)
  {
    var route := Route(c.recv.Keys, p.aad.counter);
    if route.Some? {
      var n, asked := p.aad.counter - route.value, c.recv[route.value];
      AskedStaysForeign(h, d0, c.root, asked, n);
      ReplacedKeepsForeign(h, d0, c.root, c.recv, route.value, RecvKey(asked, n).0);
      DecryptPlainRouted(cfg, c, p, route.value, n, asked);
    }
  }

  /** The window stands for the accepted counters, and an accepted counter is new. */
  lemma ReceiveKeepsWindow(cfg: Config, s: Side, p: Frame)
    requires Represents(cfg.windowSize, s.ch.window, s.accepted)
    ensures Represents(cfg.windowSize, ReceiveSide(cfg, s, p).ch.window, ReceiveSide(cfg, s, p).accepted)
    ensures Decrypted(cfg, s.ch, p).1.Success? ==>
              && p.Parsed? && p.aad.counter !in s.accepted
              && ReceiveSide(cfg, s, p).accepted == s.accepted + {p.aad.counter}
  {
    WindowMoves(cfg, s.ch, p);
    if p.Parsed? {
      CheckIsVerdict(cfg.windowSize, s.ch.window, s.accepted, p.aad.counter);
      MarkRepresents(cfg.windowSize, s.ch.window, s.accepted, p.aad.counter);
    }
  }

  lemma WindowMoves(cfg: Config, c: Chan, p: Frame)
    ensures Decrypted(cfg, c, p).1.Failure? ==> Decrypted(cfg, c, p).0.window == c.window
    ensures Decrypted(cfg, c, p).1.Success? ==>
              && p.Parsed? && Check(cfg.windowSize, c.window, p.aad.counter) == Fresh
              && Decrypted(cfg, c, p).0.window == Mark(cfg.windowSize, c.window, p.aad.counter)
  {
    if p.Parsed? && !AnnouncesNewKey(c, p) {
      var route := Route(c.recv.Keys, p.aad.counter);
      if route.Some? {
        DecryptPlainRouted(cfg, c, p, route.value, p.aad.counter - route.value, c.recv[route.value]);
      }
    }
  }

  lemma ReceiveKeepsAuth(cfg: Config, d0: Secret, s: Side, p: Frame)
    requires AuthSide(cfg, d0, s)
    ensures AuthSide(cfg, d0, ReceiveSide(cfg, s, p))
  {
    ReceiveKeepsRecording(cfg, s, p);
    DecryptKeepsForeign(cfg, s.sent, d0, s.ch, p);
    ReceiveKeepsWindow(cfg, s, p);
  }

  // ----- the network, and what it can get accepted

  /** A frame the network can produce for the session of handshake secret `d0`: malformed bytes, bytes that
      are no ciphertext, any ciphertext of another session, any that either party of this one ever sent
      under any header, or one sealed under a key the attacker can compute. */
  ghost predicate Injectable(cfg: Config, d0: Secret, a: History, b: History, adv: Leak, p: Frame) {
    p.Parsed? ==>
      || p.body.Garbage?
      || HandshakeSecret(p.body.key) != d0
      || Knows(adv, p.body.key)
      || (exists c: nat, f: Frame :: (Carries(cfg, a, c, f) || Carries(cfg, b, c, f)) && f.body == p.body)
  }

  /** The attacker holds neither the handshake secret nor any symmetric key of its session. Keys of other
      sessions he may hold. */
  predicate Outside(adv: Leak, d0: Secret) {
    !KnowsSecret(adv, d0) && forall k | k in adv.keys :: HandshakeSecret(k) != d0
  }

  lemma SealedUnderOwnSeed(cfg: Config, h: History, c: nat, f: Frame)
    requires Carries(cfg, h, c, f)
    ensures f.body.Sealed? && f.body.aad == f.aad && f.aad.counter == c
    ensures Origin(f.body.key) == Origin(h.epochs[h.log[c].epoch].seed)
  {
    OriginOfChainKey(h.epochs[h.log[c].epoch].seed, c - h.epochs[h.log[c].epoch].start);
  }

  /** Main result, one delivery: with the handshake secret out of the attacker's reach, an accepted frame
      is one that the peer sent, header and all; it yields the plaintext the peer sent under that counter,
      and the counter was not accepted before. */
  lemma AcceptOnlySent(cfg: Config, d0: Secret, x: Side, y: Side, adv: Leak, p: Frame)
    requires AuthSide(cfg, d0, x) && AuthSide(cfg, d0, y)
    requires Outside(adv, d0)
    requires Injectable(cfg, d0, x.sent, y.sent, adv, p) && Decrypted(cfg, y.ch, p).1.Success?
    ensures p.Parsed? && Carries(cfg, x.sent, p.aad.counter, p) && p.aad.counter !in y.accepted
    ensures Decrypted(cfg, y.ch, p).1.value == x.sent.log[p.aad.counter].text
  {
    AcceptedOpened(cfg, y.ch, p);
    var key := TriedKey(y.ch, p).value;
    assert p.body.Sealed? && p.body.key == key && p.body.aad == p.aad;
    TriedKeyIsForeign(y.sent, d0, y.ch, p);
    assert !Knows(adv, key) by {
      if Knows(adv, key) { SessionKeyNeedsHandshakeSecret(adv, key); }
    }
    var c: nat, f: Frame :| (Carries(cfg, x.sent, c, f) || Carries(cfg, y.sent, c, f)) && f.body == p.body;
    assert !Carries(cfg, y.sent, c, f) by {
      if Carries(cfg, y.sent, c, f) {
        SealedUnderOwnSeed(cfg, y.sent, c, f);
      }
    }
    SealedUnderOwnSeed(cfg, x.sent, c, f);
    assert p == f;
    Padding.PadRoundTrip(x.sent.log[c].text);
    CheckIsVerdict(cfg.windowSize, y.ch.window, y.accepted, c);
  }

  // ----- whole runs

  ghost predicate AuthSys(cfg: Config, d0: Secret, sys: Sys) {
    AuthSide(cfg, d0, sys.a) && AuthSide(cfg, d0, sys.b)
  }

  /** A pair of channels as the handshake leaves them: keys of one handshake, a seed for each direction. */
  predicate FreshSession(d0: Secret, c: Chan, sendKey: Key, recvKey: Key, root: Key) {
    && c == NewChannel(sendKey, recvKey, root, c.myPriv, c.peerPub)
    && sendKey != recvKey
    && SessionSeed(sendKey, d0, root) && SessionSeed(recvKey, d0, root) && HandshakeSecret(root) == d0
  }

  lemma StartIsAuthentic(cfg: Config, d0: Secret, c: Chan, sendKey: Key, recvKey: Key, root: Key)
    requires FreshSession(d0, c, sendKey, recvKey, root)
    ensures AuthSide(cfg, d0, Start(c))
  {
    EmptyRepresents(cfg.windowSize);
  }

  ghost predicate AdversarialRun(cfg: Config, d0: Secret, adv: Leak, sys: Sys, es: seq<Event>) {
    forall i: nat | i < |es| :: InjectableAt(cfg, d0, adv, sys, es, i)
  }

  ghost predicate InjectableAt(cfg: Config, d0: Secret, adv: Leak, sys: Sys, es: seq<Event>, i: nat)
    requires i < |es|
  {
    var now := Run(cfg, sys, es[..i]);
    es[i].Receive? ==> Injectable(cfg, d0, now.a.sent, now.b.sent, adv, es[i].frame)
  }

  lemma {:induction false} RunKeepsAuth(cfg: Config, d0: Secret, sys: Sys, es: seq<Event>)
    requires AuthSys(cfg, d0, sys)
    ensures AuthSys(cfg, d0, Run(cfg, sys, es))
  {
    if es != [] {
      var before := Run(cfg, sys, es[..|es| - 1]);
      RunKeepsAuth(cfg, d0, sys, es[..|es| - 1]);
      match es[|es| - 1]
      case Send(who, text, timeDue, newPriv) => SendKeepsAuth(cfg, d0, Mine(before, who), text, timeDue, newPriv);
      case Receive(who, p) => ReceiveKeepsAuth(cfg, d0, Mine(before, who), p);
    }
  }

  /** The i-th event of the run is a delivery that `decrypt` accepts. */
  predicate AcceptedAt(cfg: Config, sys: Sys, es: seq<Event>, i: nat) {
    && i < |es| && es[i].Receive?
    && Decrypted(cfg, Mine(Run(cfg, sys, es[..i]), es[i].who).ch, es[i].frame).1.Success?
  }

  /** Main result over runs: whatever the network does, each accepted frame is one that `encrypt` returned to
      the peer in an earlier send, and it opens to the text of that send. */
  lemma OnlyPeerFramesAccepted(cfg: Config, d0: Secret, adv: Leak, sys: Sys, es: seq<Event>, i: nat, from: Party)
    returns (j: nat)
    requires AuthSys(cfg, d0, sys) && sys.a.sent.log == sys.b.sent.log == [] && Outside(adv, d0)
    requires AdversarialRun(cfg, d0, adv, sys, es) && AcceptedAt(cfg, sys, es, i) && from != es[i].who
    ensures j < i && SentAt(cfg, sys, es, j, from, es[i].frame)
    ensures Decrypted(cfg, Mine(Run(cfg, sys, es[..i]), es[i].who).ch, es[i].frame).1 == Success(es[j].text)
  {
    var before := Run(cfg, sys, es[..i]);
    RunKeepsAuth(cfg, d0, sys, es[..i]);
    var c := AcceptedIsCarried(cfg, d0, adv, sys, es, i, before, Mine(before, from), Mine(before, es[i].who));
    j := CarriedWasSentBefore(cfg, sys, es, i, from, Mine(before, from), c, es[i].frame);
  }

  lemma AcceptedIsCarried(cfg: Config, d0: Secret, adv: Leak, sys: Sys, es: seq<Event>, i: nat, before: Sys,
                          x: Side, y: Side)
    returns (c: nat)
    requires AuthSys(cfg, d0, before) && Outside(adv, d0) && i < |es| && before == Run(cfg, sys, es[..i])
    requires AdversarialRun(cfg, d0, adv, sys, es) && AcceptedAt(cfg, sys, es, i)
    requires x == Peer(before, es[i].who) && y == Mine(before, es[i].who)
    ensures Carries(cfg, x.sent, c, es[i].frame)
    ensures Decrypted(cfg, y.ch, es[i].frame).1 == Success(x.sent.log[c].text)
  {
    assert InjectableAt(cfg, d0, adv, sys, es, i);
    assert Injectable(cfg, d0, x.sent, y.sent, adv, es[i].frame);
    AcceptOnlySent(cfg, d0, x, y, adv, es[i].frame);
    c := es[i].frame.aad.counter;
  }

  lemma StepKeepsAccepted(cfg: Config, sys: Sys, e: Event, who: Party)
    ensures Mine(sys, who).accepted <= Mine(Step(cfg, sys, e), who).accepted
  {
    if e.Receive? && e.who == who {
      assert Mine(sys, who).accepted <= ReceiveSide(cfg, Mine(sys, who), e.frame).accepted;
    }
  }

  lemma {:induction false} RunKeepsAccepted(cfg: Config, sys: Sys, es: seq<Event>, who: Party)
    ensures Mine(sys, who).accepted <= Mine(Run(cfg, sys, es), who).accepted
  {
    if es != [] {
      RunKeepsAccepted(cfg, sys, es[..|es| - 1], who);
      StepKeepsAccepted(cfg, Run(cfg, sys, es[..|es| - 1]), es[|es| - 1], who);
    }
  }

  lemma AcceptedStays(cfg: Config, sys: Sys, es: seq<Event>, i: nat, j: nat, who: Party, before: Side, after: Side)
    requires i <= j <= |es|
    requires before == Mine(Run(cfg, sys, es[..i]), who) && after == Mine(Run(cfg, sys, es[..j]), who)
    ensures before.accepted <= after.accepted
  {
    RunContinues(cfg, sys, es, i, j);
    RunKeepsAccepted(cfg, Run(cfg, sys, es[..i]), es[i..j], who);
  }

  lemma AcceptedIsRecorded(cfg: Config, d0: Secret, sys: Sys, es: seq<Event>, i: nat, before: Side, after: Side)
    requires AuthSys(cfg, d0, sys) && AcceptedAt(cfg, sys, es, i)
    requires before == Mine(Run(cfg, sys, es[..i]), es[i].who) && after == Mine(Run(cfg, sys, es[..i + 1]), es[i].who)
    ensures es[i].frame.Parsed?
    ensures es[i].frame.aad.counter !in before.accepted && es[i].frame.aad.counter in after.accepted
  {
    RunKeepsAuth(cfg, d0, sys, es[..i]);
    ReceiveKeepsWindow(cfg, before, es[i].frame);
    RunStep(cfg, sys, es, i);
  }

  /** And no party accepts a counter twice, even when frames are replayed. */
  lemma AcceptedOnce(cfg: Config, d0: Secret, sys: Sys, es: seq<Event>, i: nat, j: nat)
    requires AuthSys(cfg, d0, sys) && i < j && AcceptedAt(cfg, sys, es, i) && AcceptedAt(cfg, sys, es, j)
    requires es[i].who == es[j].who
    ensures es[i].frame.Parsed? && es[j].frame.Parsed? && es[i].frame.aad.counter != es[j].frame.aad.counter
  {
    var who := es[i].who;
    var next, now := Mine(Run(cfg, sys, es[..i + 1]), who), Mine(Run(cfg, sys, es[..j]), who);
    AcceptedIsRecorded(cfg, d0, sys, es, i, Mine(Run(cfg, sys, es[..i]), who), next);
    AcceptedIsRecorded(cfg, d0, sys, es, j, now, Mine(Run(cfg, sys, es[..j + 1]), who));
    AcceptedStays(cfg, sys, es, i + 1, j, who, next, now);
  }
}
