/** What the whole state of a channel gives away when it is captured: exactly the message keys it has yet to
    use, provided its party has replaced the ratchet key of the handshake; otherwise everything. */
module Capture {
  import opened ByteCodec
  import opened SymbolicCrypto
  import opened Ratchet
  import opened Channel
  import opened TwoParty
  import opened Authenticity
  import opened KeyFreshness
  import Healing

  /** What a captured state hands the attacker. */
  function CapturedAlone(c: Chan): Leak {
    Healing.Captured(c, {})
  }

  // ----- the two kinds of key that a session's other keys grow from

  predicate IsRoot(k: Key) {
    match k
    case Hkdf(_, _, _, info) => info == RootKey
    case RootOf(r, _) => IsRoot(r)
    case _ => false
  }

  predicate IsSeed(k: Key) {
    (k.Hkdf? && k.info != RootKey) || (k.ChainOf? && IsRoot(k.root))
  }

  /** `k` can be computed from `base` and Diffie-Hellman secrets. */
  predicate Descends(k: Key, base: Key) {
    k == base ||
    match k
    case Hkdf(_, _, _, _) => false
    case RootOf(r, _) => Descends(r, base)
    case ChainOf(r, _) => Descends(r, base)
    case NextOf(c) => Descends(c, base)
    case MsgOf(c) => Descends(c, base)
  }

  /** Without the handshake secret, whatever is known of a session descends from a key that leaked. */
  lemma {:induction false} KnownDescends(l: Leak, k: Key) returns (base: Key)
    requires Knows(l, k) && !KnowsSecret(l, HandshakeSecret(k))
    ensures base in l.keys && Descends(k, base)
  {
    base := k;
    if k !in l.keys {
      match k
      case RootOf(r, _) => base := KnownDescends(l, r);
      case ChainOf(r, _) => base := KnownDescends(l, r);
      case NextOf(c) => base := KnownDescends(l, c);
      case MsgOf(c) => base := KnownDescends(l, c);
    }
  }

  lemma {:induction false} RootDescends(k: Key, base: Key)
    requires IsRoot(k) && Descends(k, base)
    ensures IsRoot(base) && Depth(base) <= Depth(k)
  {
    if k != base { RootDescends(k.root, base); }
  }

  /** A chain key descends from earlier keys of its chain and from roots before its seed, and nothing else. */
  lemma {:induction false} ChainDescends(seed: Key, n: nat, base: Key) returns (m: nat)
    requires IsSeed(seed) && Descends(ChainKey(seed, n), base)
    ensures (m <= n && base == ChainKey(seed, m)) || (IsRoot(base) && Depth(base) < Depth(seed))
  {
    m := n;
    if base != ChainKey(seed, n) {
      if n == 0 {
        RootDescends(seed.root, base);
      } else {
        m := ChainDescends(seed, n - 1, base);
      }
    }
  }

  lemma SeedIsOrigin(seed: Key, n: nat)
    requires IsSeed(seed)
    ensures Origin(seed) == seed && Origin(ChainKey(seed, n)) == seed && Origin(MessageKey(seed, n)) == seed
    ensures !IsRoot(ChainKey(seed, n)) && !ChainKey(seed, n).MsgOf?
  {
    OriginOfChainKey(seed, n);
  }

  lemma {:induction false} LaterIsKnown(l: Leak, seed: Key, m: nat, n: nat)
    requires Knows(l, ChainKey(seed, m)) && m <= n
    ensures Knows(l, ChainKey(seed, n)) && Knows(l, MessageKey(seed, n))
    decreases n
  {
    if m < n { LaterIsKnown(l, seed, m, n - 1); }
  }

  // ----- channels whose keys are of these kinds

  /** The chain stands on the KDF sequence of the seed it grew from. */
  predicate Seeded(c: RecvState) {
    IsSeed(Origin(c.chainKey)) && OnSequence(c, Origin(c.chainKey))
  }

  predicate AllSeeded(recv: map<nat, RecvState>) {
    forall k | k in recv :: Seeded(recv[k])
  }

  /** `own` is the seed of the sending chain, and `at` its position. */
  predicate Shaped(c: Chan, own: Key, at: nat) {
    IsRoot(c.root) && IsSeed(own) && c.send.chainKey == ChainKey(own, at) && AllSeeded(c.recv)
  }

  /** Some receiving chain has yet to hand out index `i` of the sequence of `seed`. */
  predicate Awaits(recv: map<nat, RecvState>, seed: Key, i: nat) {
    exists k | k in recv :: Origin(recv[k].chainKey) == seed && (i >= recv[k].next || i in recv[k].skipped)
  }

  /** Which state key a message key can descend from. */
  lemma LeaksOnlyPending(c: Chan, own: Key, at: nat, seed: Key, i: nat, base: Key)
    requires Shaped(c, own, at) && IsSeed(seed) && Depth(seed) <= Depth(c.root)
    requires base in Healing.StateKeys(c) && Descends(MessageKey(seed, i), base)
    ensures (seed == own && i >= at) || Awaits(c.recv, seed, i)
  {
    if base == MessageKey(seed, i) {
      MessageKeyInState(c, own, at, seed, i);
    } else {
      var m := ChainDescends(seed, i, base);
      SeedIsOrigin(seed, m);
      ChainKeyInState(c, own, at, seed, i, m, base);
    }
  }

  predicate KeyOf(c: RecvState, base: Key) {
    base == c.chainKey || exists j :: j in c.skipped && base == c.skipped[j]
  }

  lemma KeyOfSomeChain(c: Chan, base: Key) returns (k: nat)
    requires base in Healing.StateKeys(c) && base != c.root && base != c.send.chainKey
    ensures k in c.recv && KeyOf(c.recv[k], base)
  {
    k :| k in c.recv && KeyOf(c.recv[k], base);
  }

  lemma MessageKeyInState(c: Chan, own: Key, at: nat, seed: Key, i: nat)
    requires Shaped(c, own, at) && IsSeed(seed) && MessageKey(seed, i) in Healing.StateKeys(c)
    ensures Awaits(c.recv, seed, i)
  {
    SeedIsOrigin(own, at);
    SeedIsOrigin(seed, i);
    var k := KeyOfSomeChain(c, MessageKey(seed, i));
    var o := Origin(c.recv[k].chainKey);
    assert Seeded(c.recv[k]);
    SeedIsOrigin(o, c.recv[k].next);
    var j :| j in c.recv[k].skipped && MessageKey(seed, i) == c.recv[k].skipped[j];
    SeedIsOrigin(o, j);
    ChainKeyInjective(seed, i, o, j);
  }

  lemma ChainKeyReceived(c: RecvState, seed: Key, i: nat, m: nat, base: Key)
    requires Seeded(c) && IsSeed(seed) && Origin(seed) == seed
    requires m <= i && base == ChainKey(seed, m) && !base.MsgOf? && !IsRoot(base) && KeyOf(c, base)
    ensures Origin(c.chainKey) == seed && i >= c.next
  {
    SeedIsOrigin(Origin(c.chainKey), c.next);
    ChainKeyInjective(seed, m, Origin(c.chainKey), c.next);
  }

  lemma ChainKeyIsNoRoot(c: RecvState, base: Key)
    requires Seeded(c) && KeyOf(c, base)
    ensures !IsRoot(base)
  {
    SeedIsOrigin(Origin(c.chainKey), c.next);
  }

  lemma ChainKeyInState(c: Chan, own: Key, at: nat, seed: Key, i: nat, m: nat, base: Key)
    requires Shaped(c, own, at) && IsSeed(seed) && Depth(seed) <= Depth(c.root) && Origin(seed) == seed
    requires base in Healing.StateKeys(c)
    requires || (m <= i && base == ChainKey(seed, m) && !IsRoot(base) && !base.MsgOf?)
             || (IsRoot(base) && Depth(base) < Depth(seed))
    ensures (seed == own && i >= at) || Awaits(c.recv, seed, i)
  {
    SeedIsOrigin(own, at);
    if base == c.send.chainKey {
      ChainKeyInjective(seed, m, own, at);
    } else if base != c.root {
      var k := KeyOfSomeChain(c, base);
      assert Seeded(c.recv[k]);
      ChainKeyIsNoRoot(c.recv[k], base);
      ChainKeyReceived(c.recv[k], seed, i, m, base);
    }
  }

  lemma PendingLeaks(c: Chan, own: Key, at: nat, seed: Key, i: nat, l: Leak)
    requires Shaped(c, own, at) && Healing.StateKeys(c) <= l.keys
    requires (seed == own && i >= at) || Awaits(c.recv, seed, i)
    ensures Knows(l, MessageKey(seed, i))
  {
    if seed == own && i >= at {
      LaterIsKnown(l, own, at, i);
    } else {
      var k :| k in c.recv && Origin(c.recv[k].chainKey) == seed && (i >= c.recv[k].next || i in c.recv[k].skipped);
      assert Seeded(c.recv[k]);
      assert c.recv[k].chainKey in Healing.StateKeys(c);
      if i in c.recv[k].skipped {
        assert c.recv[k].skipped[i] in Healing.StateKeys(c);
      } else {
        LaterIsKnown(l, seed, c.recv[k].next, i);
      }
    }
  }

  /** Exactly what a captured channel gives away, as long as its ratchet key is no end of the handshake
      secret: of all the chains begun so far, the message keys its sending chain has not reached, those its
      receiving chains have not reached, and those waiting in their caches. */
  lemma CapturedChannelLeaks(c: Chan, own: Key, at: nat, seed: Key, i: nat)
    requires Shaped(c, own, at) && IsSeed(seed) && Depth(seed) <= Depth(c.root)
    requires c.myPriv.pub !in HandshakeSecret(seed).ends
    ensures Knows(CapturedAlone(c), MessageKey(seed, i)) <==> (seed == own && i >= at) || Awaits(c.recv, seed, i)
  {
    var l := CapturedAlone(c);
    SeedIsOrigin(seed, i);
    OriginDecides(MessageKey(seed, i));
    if Knows(l, MessageKey(seed, i)) {
      var base := KnownDescends(l, MessageKey(seed, i));
      LeaksOnlyPending(c, own, at, seed, i, base);
    }
    if (seed == own && i >= at) || Awaits(c.recv, seed, i) {
      PendingLeaks(c, own, at, seed, i, l);
    }
  }

  /** The input on which forward secrecy fails: a state that still holds a private key of the handshake gives
      away every message key, used or not, of both chains that the handshake began. */
  lemma HandshakeKeyLeaksAll(c: Chan, seed: Key, i: nat)
    requires seed.Hkdf? && c.myPriv.pub in seed.secret.ends
    ensures Knows(CapturedAlone(c), MessageKey(seed, i))
  {
    LaterIsKnown(CapturedAlone(c), seed, 0, i);
  }

  // ----- over runs

  /** The first epoch is the handshake's; its ratchet key is gone as soon as there is a second. */
  predicate KeepsShape(d0: Secret, s: Side) {
    && s.sent.epochs != [] && AtEnd(s.sent, s.ch)
    && IsRoot(s.ch.root) && AllSeeded(s.ch.recv) && SeedsOf(s.sent.epochs)
    && (s.ch.myPriv.pub in d0.ends <==> |s.sent.epochs| == 1)
    && (forall i | 0 <= i < |s.sent.epochs| :: Depth(s.sent.epochs[i].seed) <= Depth(s.ch.root))
  }

  predicate SeedsOf(epochs: seq<Epoch>) {
    && (forall i | 0 <= i < |epochs| :: IsSeed(epochs[i].seed))
    && (epochs != [] ==> epochs[0].seed.Hkdf?)
    && (forall i, j | 0 <= i < j < |epochs| :: Depth(epochs[i].seed) < Depth(epochs[j].seed))
  }

  lemma SendKeepsShape(cfg: Config, d0: Secret, s: Side, used: set<PubKey>,
                       text: Bytes, timeDue: bool, newPriv: PrivKey)
    requires KeepsShape(d0, s) && d0.ends <= used && (StepDue(cfg, s.ch, timeDue) ==> newPriv.pub !in used)
    ensures KeepsShape(d0, SendSide(cfg, s, text, timeDue, newPriv))
  {
    SendStaysAtEnd(s.sent, cfg, s.ch, text, timeDue, newPriv);
  }

  lemma AskedStaysSeeded(c: RecvState, n: nat)
    requires Seeded(c)
    ensures Seeded(RecvKey(c, n).0)
  {
    KeyForOnSequence(c, Origin(c.chainKey), n);
    SeedIsOrigin(Origin(c.chainKey), RecvKey(c, n).0.next);
  }

  lemma NewChainIsSeeded(root: Key, dh: Secret)
    requires IsRoot(root)
    ensures Seeded(RecvState(NextOf(ChainOf(root, dh)), 1, map[]))
  {
    assert ChainKey(ChainOf(root, dh), 1) == NextOf(ChainKey(ChainOf(root, dh), 0));
    assert Origin(NextOf(ChainOf(root, dh))) == ChainOf(root, dh);
  }

  lemma AnnouncedKeepsSeeded(cfg: Config, c: Chan, p: Frame)
    requires IsRoot(c.root) && AllSeeded(c.recv) && AnnouncesNewKey(c, p)
    ensures IsRoot(DecryptAnnounced(cfg, c, p).0.root) && AllSeeded(DecryptAnnounced(cfg, c, p).0.recv)
  {
    var dh := Exchange(c.myPriv, p.aad.announce.value);
    FirstKey(ChainOf(c.root, dh));
    NewChainIsSeeded(c.root, dh);
  }

  lemma PlainKeepsSeeded(cfg: Config, c: Chan, p: Frame)
    requires AllSeeded(c.recv) && p.Parsed?
    ensures DecryptPlain(cfg, c, p).0.root == c.root && AllSeeded(DecryptPlain(cfg, c, p).0.recv)
  {
    var route := Route(c.recv.Keys, p.aad.counter);
    if route.Some? {
      AskedStaysSeeded(c.recv[route.value], p.aad.counter - route.value);
      DecryptPlainRouted(cfg, c, p, route.value, p.aad.counter - route.value, c.recv[route.value]);
    }
  }

  lemma DecryptKeepsSeeded(cfg: Config, c: Chan, p: Frame)
    requires IsRoot(c.root) && AllSeeded(c.recv)
    ensures IsRoot(Decrypted(cfg, c, p).0.root) && AllSeeded(Decrypted(cfg, c, p).0.recv)
  {
    if p.Parsed? {
      if AnnouncesNewKey(c, p) {
        AnnouncedKeepsSeeded(cfg, c, p);
      } else {
        PlainKeepsSeeded(cfg, c, p);
      }
    }
  }

  lemma ReceiveKeepsShape(cfg: Config, d0: Secret, s: Side, p: Frame)
    requires KeepsShape(d0, s)
    ensures KeepsShape(d0, ReceiveSide(cfg, s, p))
  {
    ReceiveStaysAtEnd(cfg, s, p);
    DecryptKeepsSeeded(cfg, s.ch, p);
    DecryptKeepsSending(cfg, s.ch, p);
  }

  predicate SysKeepsShape(d0: Secret, sys: Sys) {
    d0.ends <= sys.used && KeepsShape(d0, sys.a) && KeepsShape(d0, sys.b)
  }

  lemma StepKeepsShape(cfg: Config, d0: Secret, sys: Sys, e: Event)
    requires SysKeepsShape(d0, sys) && FreshKeys(cfg, sys, e)
    ensures SysKeepsShape(d0, Step(cfg, sys, e))
  {
    match e
    case Send(who, text, timeDue, newPriv) => SendKeepsShape(cfg, d0, Mine(sys, who), sys.used, text, timeDue, newPriv);
    case Receive(who, p) => ReceiveKeepsShape(cfg, d0, Mine(sys, who), p);
  }

  lemma {:induction false} RunKeepsShape(cfg: Config, d0: Secret, sys: Sys, es: seq<Event>)
    requires SysKeepsShape(d0, sys) && FreshRun(cfg, sys, es)
    ensures SysKeepsShape(d0, Run(cfg, sys, es))
  {
    if es != [] {
      FreshPrefix(cfg, sys, es);
      RunKeepsShape(cfg, d0, sys, es[..|es| - 1]);
      StepKeepsShape(cfg, d0, Run(cfg, sys, es[..|es| - 1]), es[|es| - 1]);
    }
  }

  /** A party's own past keys, given what its run has kept. */
  lemma SentKeysKept(cfg: Config, d0: Secret, s: Side, c: nat)
    requires KeepsShape(d0, s) && AuthSide(cfg, d0, s) && c < |s.sent.log|
    requires forall i, j | 0 <= i < j < |s.sent.epochs| :: s.sent.epochs[i].seed != s.sent.epochs[j].seed
    requires InEpoch(s.sent, s.sent.log[c].epoch, c)
    ensures Knows(CapturedAlone(s.ch), DrawnKey(s.sent, c)) <==> |s.sent.epochs| == 1
  {
    var e, at := s.sent.epochs[s.sent.log[c].epoch], |s.sent.log| - Last(s.sent).start;
    assert SessionSeed(e.seed, d0, s.ch.root);
    if |s.sent.epochs| == 1 {
      HandshakeKeyLeaksAll(s.ch, e.seed, c - e.start);
    } else {
      CapturedChannelLeaks(s.ch, Last(s.sent).seed, at, e.seed, c - e.start);
      OwnSeedIsNotAwaited(cfg, d0, s, s.sent.log[c].epoch, c - e.start);
    }
  }

  lemma OwnSeedIsNotAwaited(cfg: Config, d0: Secret, s: Side, j: nat, i: nat)
    requires AuthSide(cfg, d0, s) && j < |s.sent.epochs|
    ensures !Awaits(s.ch.recv, s.sent.epochs[j].seed, i)
  {
    forall k | k in s.ch.recv ensures Origin(s.ch.recv[k].chainKey) != s.sent.epochs[j].seed {
      assert ForeignChain(s.sent, d0, s.ch.root, s.ch.recv[k]);
    }
  }

  /** Main result: after any run, against any network, with fresh ratchet keys, capture one party's whole
      state. The keys of what it has sent are in the attacker's reach if and only if it has not taken a
      ratchet step since the handshake. */
  lemma CapturedPastIsSafeIffStepped(cfg: Config, d0: Secret, sys: Sys, es: seq<Event>, end: Sys, who: Party, c: nat)
    requires AuthSys(cfg, d0, sys) && FreshSys(sys) && SysKeepsShape(d0, sys)
    requires FreshRun(cfg, sys, es) && end == Run(cfg, sys, es) && c < |Mine(end, who).sent.log|
    ensures InEpoch(Mine(end, who).sent, Mine(end, who).sent.log[c].epoch, c)
    ensures Knows(CapturedAlone(Mine(end, who).ch), DrawnKey(Mine(end, who).sent, c)) <==>
            |Mine(end, who).sent.epochs| == 1
  {
    RunKeepsAuth(cfg, d0, sys, es);
    RunKeepsFresh(cfg, sys, es);
    RunKeepsShape(cfg, d0, sys, es);
    FreshFromEitherSide(end, who);
    SentKeysKept(cfg, d0, Mine(end, who), c);
  }
}
