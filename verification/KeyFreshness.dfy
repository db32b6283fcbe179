/** What follows from ratchet keys being fresh alone, over any run and against any network: no two message
    keys are equal, and every key in memory was derived from keys that existed before it. */
module KeyFreshness {
  import opened ByteCodec
  import opened SymbolicCrypto
  import opened Ratchet
  import opened ReplayWindow
  import opened Channel
  import opened TwoParty
  import opened Authenticity

  /** `o` seeds a chain, and everything mixed into it is among `used`. */
  predicate KnownSeed(o: Key, used: set<PubKey>) {
    Origin(o) == o && Within(o, used)
  }

  predicate KnownSeeds(epochs: seq<Epoch>, used: set<PubKey>) {
    forall i | 0 <= i < |epochs| :: KnownSeed(epochs[i].seed, used)
  }

  predicate KnownPrivs(epochs: seq<Epoch>, used: set<PubKey>) {
    forall i | 0 <= i < |epochs| :: epochs[i].priv.pub in used
  }

  predicate KnownChain(c: RecvState, used: set<PubKey>) {
    GrownFrom(c, Origin(c.chainKey)) && Within(Origin(c.chainKey), used)
  }

  predicate KnownChains(recv: map<nat, RecvState>, used: set<PubKey>) {
    forall k | k in recv :: KnownChain(recv[k], used)
  }

  /** Every key the channel holds was derived from keys in `used`. */
  predicate KnownChan(c: Chan, used: set<PubKey>) {
    && Within(c.root, used) && KnownChains(c.recv, used)
    && c.myPriv.pub in used && c.peerPub in used
  }

  predicate DistinctSeeds(a: seq<Epoch>, b: seq<Epoch>) {
    && (forall i, j | 0 <= i < j < |a| :: a[i].seed != a[j].seed)
    && (forall i, j | 0 <= i < j < |b| :: b[i].seed != b[j].seed)
    && (forall i, j | 0 <= i < |a| && 0 <= j < |b| :: a[i].seed != b[j].seed)
  }

  predicate DistinctPrivs(a: seq<Epoch>, b: seq<Epoch>) {
    forall i, j | 0 <= i < |a| && 0 <= j < |b| :: a[i].priv != b[j].priv
  }

  predicate FreshSide(s: Side, used: set<PubKey>) {
    && s.sent.epochs != [] && LoggedInEpoch(s.sent) && AtEnd(s.sent, s.ch)
    && KnownSeeds(s.sent.epochs, used) && KnownPrivs(s.sent.epochs, used)
    && KnownChan(s.ch, used)
  }

  predicate FreshPair(x: Side, y: Side, used: set<PubKey>) {
    && FreshSide(x, used) && FreshSide(y, used)
    && DistinctSeeds(x.sent.epochs, y.sent.epochs)
    && DistinctPrivs(x.sent.epochs, y.sent.epochs)
  }

  predicate FreshSys(sys: Sys) {
    FreshPair(sys.a, sys.b, sys.used)
  }

  lemma FreshFromEitherSide(sys: Sys, who: Party)
    ensures FreshPair(Mine(sys, who), Peer(sys, who), sys.used) <==> FreshSys(sys)
  {
  }

  // ----- more keys in use never hurts

  lemma UsedGrowsSeeds(epochs: seq<Epoch>, small: set<PubKey>, large: set<PubKey>)
    requires KnownSeeds(epochs, small) && small <= large
    ensures KnownSeeds(epochs, large)
  {
    forall i | 0 <= i < |epochs| ensures KnownSeed(epochs[i].seed, large) {
      WithinMonotone(epochs[i].seed, small, large);
    }
  }

  lemma UsedGrowsChan(c: Chan, small: set<PubKey>, large: set<PubKey>)
    requires KnownChan(c, small) && small <= large
    ensures KnownChan(c, large)
  {
    WithinMonotone(c.root, small, large);
    forall k | k in c.recv ensures KnownChain(c.recv[k], large) {
      assert KnownChain(c.recv[k], small);
      WithinMonotone(Origin(c.recv[k].chainKey), small, large);
    }
  }

  lemma UsedGrowsSide(s: Side, small: set<PubKey>, large: set<PubKey>)
    requires FreshSide(s, small) && small <= large
    ensures FreshSide(s, large)
  {
    UsedGrowsSeeds(s.sent.epochs, small, large);
    UsedGrowsChan(s.ch, small, large);
  }

  // ----- sending

  /** A seed made with a key outside `used` differs from every seed made within `used`. */
  lemma FreshSeedDiffers(epochs: seq<Epoch>, used: set<PubKey>, root: Key, newPriv: PrivKey, peerPub: PubKey)
    requires KnownSeeds(epochs, used) && newPriv.pub !in used
    ensures forall i | 0 <= i < |epochs| :: epochs[i].seed != ChainOf(root, Exchange(newPriv, peerPub))
  {
    var d := Exchange(newPriv, peerPub);
    assert newPriv.pub in d.ends;
    forall i | 0 <= i < |epochs| ensures epochs[i].seed != ChainOf(root, d) {
      assert KnownSeed(epochs[i].seed, used);
    }
  }

  lemma FreshPrivDiffers(epochs: seq<Epoch>, used: set<PubKey>, newPriv: PrivKey)
    requires KnownPrivs(epochs, used) && newPriv.pub !in used
    ensures forall i | 0 <= i < |epochs| :: epochs[i].priv != newPriv
  {
    forall i | 0 <= i < |epochs| ensures epochs[i].priv != newPriv { assert epochs[i].priv.pub in used; }
  }

  lemma StepKeepsChan(c: Chan, used: set<PubKey>, newPriv: PrivKey)
    requires KnownChan(c, used)
    ensures KnownChan(SendStep(c, newPriv), used + {newPriv.pub})
    ensures KnownSeed(SendStep(c, newPriv).send.chainKey, used + {newPriv.pub})
  {
    UsedGrowsChan(c, used, used + {newPriv.pub});
  }

  /** The `used` set after a send. */
  function UsedAfter(cfg: Config, c: Chan, timeDue: bool, newPriv: PrivKey, used: set<PubKey>): set<PubKey> {
    if StepDue(cfg, c, timeDue) then used + {newPriv.pub} else used
  }

  lemma SendKeepsFreshSide(cfg: Config, s: Side, used: set<PubKey>, text: Bytes, timeDue: bool, newPriv: PrivKey)
    requires FreshSide(s, used)
    ensures FreshSide(SendSide(cfg, s, text, timeDue, newPriv), UsedAfter(cfg, s.ch, timeDue, newPriv, used))
  {
    var step := NewEpoch(cfg, s.ch, timeDue, newPriv);
    var used' := UsedAfter(cfg, s.ch, timeDue, newPriv, used);
    ExtendInEpoch(s.sent, step, text);
    SendStaysAtEnd(s.sent, cfg, s.ch, text, timeDue, newPriv);
    UsedGrowsSeeds(s.sent.epochs, used, used');
    if step.Some? { StepKeepsChan(s.ch, used, newPriv); }
  }

  // ----- receiving

  lemma AskedStaysKnown(c: RecvState, used: set<PubKey>, n: nat)
    requires KnownChain(c, used)
    ensures KnownChain(RecvKey(c, n).0, used)
  {
    RecvKeyGrownFrom(c, n, Origin(c.chainKey));
  }

  lemma ReplacedStaysKnown(c: Chan, used: set<PubKey>, start: nat, chain: RecvState)
    requires KnownChan(c, used) && KnownChain(chain, used)
    ensures KnownChan(c.(recv := c.recv[start := chain]), used)
  {
  }

  lemma AdoptedStaysKnown(c: Chan, used: set<PubKey>, pub: PubKey, start: nat, chain: RecvState)
    requires KnownChan(c, used)
    requires chain == RecvState(NextOf(ChainOf(c.root, Exchange(c.myPriv, pub))), 1, map[])
    ensures KnownChan(CommitStep(c, RootOf(c.root, Exchange(c.myPriv, pub)), chain, pub, start), used + {pub})
  {
    UsedGrowsChan(c, used, used + {pub});
    assert KnownChain(chain, used + {pub});
  }

  lemma AnnouncedKeepsKnown(cfg: Config, c: Chan, used: set<PubKey>, p: Frame)
    requires KnownChan(c, used) && AnnouncesNewKey(c, p)
    ensures KnownChan(DecryptAnnounced(cfg, c, p).0, used + {p.aad.announce.value})
  {
    var pub := p.aad.announce.value;
    var seed := ChainOf(c.root, Exchange(c.myPriv, pub));
    FirstKey(seed);
    AdoptedStaysKnown(c, used, pub, p.aad.counter, RecvState(NextOf(seed), 1, map[]));
    UsedGrowsChan(c, used, used + {pub});
  }

  lemma PlainKeepsKnown(cfg: Config, c: Chan, used: set<PubKey>, p: Frame)
    requires KnownChan(c, used) && p.Parsed?
    ensures KnownChan(DecryptPlain(cfg, c, p).0, used)
  {
    var route := Route(c.recv.Keys, p.aad.counter);
    if route.Some? {
      var n, asked := p.aad.counter - route.value, c.recv[route.value];
      AskedStaysKnown(asked, used, n);
      ReplacedStaysKnown(c, used, route.value, RecvKey(asked, n).0);
      DecryptPlainRouted(cfg, c, p, route.value, n, asked);
    }
  }

  /** The `used` set after a delivery. */
  function UsedAfterFrame(p: Frame, used: set<PubKey>): set<PubKey> {
    if p.Parsed? && p.aad.announce.Some? then used + {p.aad.announce.value} else used
  }

  lemma DecryptKeepsKnown(cfg: Config, c: Chan, used: set<PubKey>, p: Frame)
    requires KnownChan(c, used)
    ensures KnownChan(Decrypted(cfg, c, p).0, UsedAfterFrame(p, used))
  {
    UsedGrowsChan(c, used, UsedAfterFrame(p, used));
    if p.Parsed? && Check(cfg.windowSize, c.window, p.aad.counter) == Fresh {
      if AnnouncesNewKey(c, p) {
        AnnouncedKeepsKnown(cfg, c, used, p);
      } else {
        PlainKeepsKnown(cfg, c, UsedAfterFrame(p, used), p);
      }
    }
  }

  lemma ReceiveKeepsFreshSide(cfg: Config, s: Side, used: set<PubKey>, p: Frame)
    requires FreshSide(s, used)
    ensures FreshSide(ReceiveSide(cfg, s, p), UsedAfterFrame(p, used))
  {
    ReceiveStaysAtEnd(cfg, s, p);
    DecryptKeepsKnown(cfg, s.ch, used, p);
    UsedGrowsSeeds(s.sent.epochs, used, UsedAfterFrame(p, used));
  }

  lemma ReceiveStaysAtEnd(cfg: Config, s: Side, p: Frame)
    requires s.sent.epochs != [] && AtEnd(s.sent, s.ch)
    ensures ReceiveSide(cfg, s, p).sent == s.sent && ReceiveSide(cfg, s, p).ch == Decrypted(cfg, s.ch, p).0
    ensures AtEnd(s.sent, ReceiveSide(cfg, s, p).ch)
  {
    DecryptKeepsSending(cfg, s.ch, p);
  }

  // ----- whole runs

  lemma SendKeepsDistinct(cfg: Config, x: Side, y: Side, used: set<PubKey>,
                          text: Bytes, timeDue: bool, newPriv: PrivKey)
    requires FreshSide(x, used) && FreshSide(y, used)
    requires DistinctSeeds(x.sent.epochs, y.sent.epochs) && DistinctPrivs(x.sent.epochs, y.sent.epochs)
    requires StepDue(cfg, x.ch, timeDue) ==> newPriv.pub !in used
    ensures DistinctSeeds(SendSide(cfg, x, text, timeDue, newPriv).sent.epochs, y.sent.epochs)
    ensures DistinctPrivs(SendSide(cfg, x, text, timeDue, newPriv).sent.epochs, y.sent.epochs)
  {
    if StepDue(cfg, x.ch, timeDue) {
      FreshSeedDiffers(x.sent.epochs, used, x.ch.root, newPriv, x.ch.peerPub);
      FreshSeedDiffers(y.sent.epochs, used, x.ch.root, newPriv, x.ch.peerPub);
      FreshPrivDiffers(y.sent.epochs, used, newPriv);
    }
  }

  lemma SendKeepsFresh(cfg: Config, x: Side, y: Side, used: set<PubKey>, text: Bytes, timeDue: bool, newPriv: PrivKey)
    requires FreshPair(x, y, used) && (StepDue(cfg, x.ch, timeDue) ==> newPriv.pub !in used)
    ensures FreshPair(SendSide(cfg, x, text, timeDue, newPriv), y, UsedAfter(cfg, x.ch, timeDue, newPriv, used))
  {
    SendKeepsFreshSide(cfg, x, used, text, timeDue, newPriv);
    UsedGrowsSide(y, used, UsedAfter(cfg, x.ch, timeDue, newPriv, used));
    SendKeepsDistinct(cfg, x, y, used, text, timeDue, newPriv);
  }

  lemma ReceiveKeepsFresh(cfg: Config, x: Side, y: Side, used: set<PubKey>, p: Frame)
    requires FreshPair(x, y, used)
    ensures FreshPair(ReceiveSide(cfg, x, p), y, UsedAfterFrame(p, used))
  {
    ReceiveKeepsFreshSide(cfg, x, used, p);
    UsedGrowsSide(y, used, UsedAfterFrame(p, used));
    assert ReceiveSide(cfg, x, p).sent == x.sent;
  }

  lemma StepKeepsFresh(cfg: Config, sys: Sys, e: Event)
    requires FreshSys(sys) && FreshKeys(cfg, sys, e)
    ensures FreshSys(Step(cfg, sys, e))
  {
    FreshFromEitherSide(sys, e.who);
    FreshFromEitherSide(Step(cfg, sys, e), e.who);
    match e
    case Send(who, text, timeDue, newPriv) =>
      SendKeepsFresh(cfg, Mine(sys, who), Peer(sys, who), sys.used, text, timeDue, newPriv);
    case Receive(who, p) =>
      ReceiveKeepsFresh(cfg, Mine(sys, who), Peer(sys, who), sys.used, p);
  }

  ghost predicate FreshRun(cfg: Config, sys: Sys, es: seq<Event>) {
    forall i: nat | i < |es| :: FreshAt(cfg, sys, es, i)
  }

  predicate FreshAt(cfg: Config, sys: Sys, es: seq<Event>, i: nat)
    requires i < |es|
  {
    FreshKeys(cfg, Run(cfg, sys, es[..i]), es[i])
  }

  lemma FreshPrefix(cfg: Config, sys: Sys, es: seq<Event>)
    requires es != [] && FreshRun(cfg, sys, es)
    ensures FreshRun(cfg, sys, es[..|es| - 1])
    ensures FreshKeys(cfg, Run(cfg, sys, es[..|es| - 1]), es[|es| - 1])
  {
    var before := es[..|es| - 1];
    forall i: nat | i < |before| ensures FreshAt(cfg, sys, before, i) {
      assert FreshAt(cfg, sys, es, i) && before[..i] == es[..i];
    }
    assert FreshAt(cfg, sys, es, |es| - 1);
  }

  lemma {:induction false} RunKeepsFresh(cfg: Config, sys: Sys, es: seq<Event>)
    requires FreshSys(sys) && FreshRun(cfg, sys, es)
    ensures FreshSys(Run(cfg, sys, es))
  {
    if es != [] {
      var before := es[..|es| - 1];
      FreshPrefix(cfg, sys, es);
      RunKeepsFresh(cfg, sys, before);
      StepKeepsFresh(cfg, Run(cfg, sys, before), es[|es| - 1]);
    }
  }

  /** The key drawn for the message with counter `c`, sent or not. */
  function DrawnKey(h: History, c: nat): Key
    requires c < |h.log| && InEpoch(h, h.log[c].epoch, c)
  {
    MessageKey(h.epochs[h.log[c].epoch].seed, c - h.epochs[h.log[c].epoch].start)
  }

  lemma DrawnKeysDiffer(h: History, c: nat, g: History, d: nat, used: set<PubKey>)
    requires KnownSeeds(h.epochs, used) && KnownSeeds(g.epochs, used)
    requires c < |h.log| && InEpoch(h, h.log[c].epoch, c) && d < |g.log| && InEpoch(g, g.log[d].epoch, d)
    requires DrawnKey(h, c) == DrawnKey(g, d)
    ensures h.epochs[h.log[c].epoch].seed == g.epochs[g.log[d].epoch].seed
    ensures c - h.epochs[h.log[c].epoch].start == d - g.epochs[g.log[d].epoch].start
  {
    assert KnownSeed(h.epochs[h.log[c].epoch].seed, used) && KnownSeed(g.epochs[g.log[d].epoch].seed, used);
    ChainKeyInjective(h.epochs[h.log[c].epoch].seed, c - h.epochs[h.log[c].epoch].start,
                      g.epochs[g.log[d].epoch].seed, d - g.epochs[g.log[d].epoch].start);
  }

  lemma OwnKeysDiffer(h: History, c: nat, d: nat, used: set<PubKey>)
    requires KnownSeeds(h.epochs, used) && LoggedInEpoch(h) && c < d < |h.log|
    requires forall i, j | 0 <= i < j < |h.epochs| :: h.epochs[i].seed != h.epochs[j].seed
    ensures DrawnKey(h, c) != DrawnKey(h, d)
  {
    if DrawnKey(h, c) == DrawnKey(h, d) {
      DrawnKeysDiffer(h, c, h, d, used);
    }
  }

  lemma CrossKeysDiffer(h: History, c: nat, g: History, d: nat, used: set<PubKey>)
    requires KnownSeeds(h.epochs, used) && KnownSeeds(g.epochs, used) && DistinctSeeds(h.epochs, g.epochs)
    requires LoggedInEpoch(h) && LoggedInEpoch(g) && c < |h.log| && d < |g.log|
    ensures DrawnKey(h, c) != DrawnKey(g, d)
  {
    if DrawnKey(h, c) == DrawnKey(g, d) {
      DrawnKeysDiffer(h, c, g, d, used);
    }
  }

  /** Main result: over any run, hostile or crossing, in which ratchet keys are fresh, the message keys drawn by
      the two parties are pairwise distinct, so no key meets a nonce twice. */
  lemma MessageKeysNeverRepeat(cfg: Config, sys: Sys, es: seq<Event>, end: Sys, p: Party, c: nat, q: Party, d: nat)
    requires FreshSys(sys) && FreshRun(cfg, sys, es) && end == Run(cfg, sys, es)
    requires c < |Mine(end, p).sent.log| && d < |Mine(end, q).sent.log| && (p != q || c != d)
    ensures InEpoch(Mine(end, p).sent, Mine(end, p).sent.log[c].epoch, c)
    ensures InEpoch(Mine(end, q).sent, Mine(end, q).sent.log[d].epoch, d)
    ensures DrawnKey(Mine(end, p).sent, c) != DrawnKey(Mine(end, q).sent, d)
  {
    RunKeepsFresh(cfg, sys, es);
    FreshFromEitherSide(end, p);
    var h, g := Mine(end, p).sent, Mine(end, q).sent;
    if p != q {
      CrossKeysDiffer(h, c, g, d, end.used);
    } else if c < d {
      OwnKeysDiffer(h, c, d, end.used);
    } else {
      OwnKeysDiffer(h, d, c, end.used);
    }
  }
}
