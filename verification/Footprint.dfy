/** How much a channel remembers: bounded for good, whatever it is sent. */
module Footprint {
  import opened Wrappers
  import opened SymbolicCrypto
  import opened Ratchet
  import opened ReplayWindow
  import opened Channel
  import opened TwoParty
  import SortedMaps

  predicate SmallCaches(recv: map<nat, RecvState>) {
    forall k | k in recv :: |recv[k].skipped| <= 1024
  }

  /** At most three receiving chains, each with at most 1024 keys put by, and a bitmap no wider than the window. */
  predicate Compact(cfg: Config, c: Chan) {
    && |c.recv| <= 3 && SmallCaches(c.recv)
    && c.window.bitmap < Pow2(Width(cfg.windowSize))
  }

  lemma AskedStaysCompact(c: RecvState, n: nat)
    requires |c.skipped| <= 1024
    ensures |RecvKey(c, n).0.skipped| <= 1024
  {
    if n in c.skipped {
      assert (c.skipped - {n}).Keys == c.skipped.Keys - {n};
      assert |(c.skipped - {n}).Keys| == |c.skipped - {n}| && |c.skipped.Keys| == |c.skipped|;
    } else if c.next <= n <= c.next + MAX_SKIP {
      DerivedChain(c, n, RecvKey(c, n).0);
    }
  }

  lemma MarkedStaysCompact(cfg: Config, c: Chan, counter: nat)
    requires Compact(cfg, c) && Check(cfg.windowSize, c.window, counter) == Fresh
    ensures Compact(cfg, c.(window := Mark(cfg.windowSize, c.window, counter)))
  {
    MarkStaysNarrow(cfg.windowSize, c.window, counter);
  }

  lemma CommitStaysCompact(cfg: Config, c: Chan, root: Key, chain: RecvState, peerPub: PubKey, start: nat)
    requires Compact(cfg, c) && |chain.skipped| <= 1024
    ensures Compact(cfg, CommitStep(c, root, chain, peerPub, start))
  {
    SortedMaps.KeepHighestSize(c.recv[start := chain], MAX_RETAINED_CHAINS);
  }

  lemma AnnouncedStaysCompact(cfg: Config, c: Chan, p: Frame)
    requires Compact(cfg, c) && AnnouncesNewKey(c, p) && Check(cfg.windowSize, c.window, p.aad.counter) == Fresh
    ensures Compact(cfg, DecryptAnnounced(cfg, c, p).0)
  {
    var (root, seed) := DhRatchetStep(c.root, Exchange(c.myPriv, p.aad.announce.value));
    FirstKey(seed);
    var chain := RecvKey(FreshChain(seed), 0).0;
    CommitStaysCompact(cfg, c, root, chain, p.aad.announce.value, p.aad.counter);
    MarkedStaysCompact(cfg, CommitStep(c, root, chain, p.aad.announce.value, p.aad.counter), p.aad.counter);
  }

  lemma ReplacedStaysCompact(recv: map<nat, RecvState>, start: nat, chain: RecvState)
    requires start in recv && |recv| <= 3 && SmallCaches(recv) && |chain.skipped| <= 1024
    ensures |recv[start := chain]| <= 3 && SmallCaches(recv[start := chain])
  {
    assert recv[start := chain].Keys == recv.Keys;
    assert |recv[start := chain].Keys| == |recv[start := chain]| && |recv.Keys| == |recv|;
  }

  lemma FinishStaysCompact(cfg: Config, c: Chan, key: Result<Key, ChainDesync>, p: Frame)
    requires Compact(cfg, c) && p.Parsed? && Check(cfg.windowSize, c.window, p.aad.counter) == Fresh
    ensures Compact(cfg, FinishPlain(cfg, c, key, p).0)
  {
    MarkedStaysCompact(cfg, c, p.aad.counter);
  }

  lemma PlainStaysCompact(cfg: Config, c: Chan, p: Frame)
    requires Compact(cfg, c) && p.Parsed? && Check(cfg.windowSize, c.window, p.aad.counter) == Fresh
    ensures Compact(cfg, DecryptPlain(cfg, c, p).0)
  {
    var route := Route(c.recv.Keys, p.aad.counter);
    if route.Some? {
      var start, n := route.value, p.aad.counter - route.value;
      var chain := c.recv[start];
      AskedStaysCompact(chain, n);
      ReplacedStaysCompact(c.recv, start, RecvKey(chain, n).0);
      DecryptPlainRouted(cfg, c, p, start, n, chain);
      FinishStaysCompact(cfg, c.(recv := c.recv[start := RecvKey(chain, n).0]), RecvKey(chain, n).1, p);
    }
  }

  lemma DecryptStaysCompact(cfg: Config, c: Chan, p: Frame)
    requires Compact(cfg, c)
    ensures Compact(cfg, Decrypted(cfg, c, p).0)
  {
    if p.Parsed? && Check(cfg.windowSize, c.window, p.aad.counter) == Fresh {
      if AnnouncesNewKey(c, p) { AnnouncedStaysCompact(cfg, c, p); } else { PlainStaysCompact(cfg, c, p); }
    }
  }

  lemma NewIsCompact(cfg: Config, sendKey: Key, recvKey: Key, root: Key, myPriv: PrivKey, peerPub: PubKey)
    ensures Compact(cfg, NewChannel(sendKey, recvKey, root, myPriv, peerPub))
  {
    FilterStaysNarrow(cfg.windowSize, []);
  }

  /** Main result: from a new channel on, over any run and against any network, neither end ever remembers more. */
  lemma {:induction false} RunStaysCompact(cfg: Config, sys: Sys, es: seq<Event>, who: Party)
    requires Compact(cfg, Mine(sys, who).ch)
    ensures Compact(cfg, Mine(Run(cfg, sys, es), who).ch)
  {
    if es != [] {
      var before, e := Run(cfg, sys, es[..|es| - 1]), es[|es| - 1];
      RunStaysCompact(cfg, sys, es[..|es| - 1], who);
      if e.Receive? && e.who == who { DecryptStaysCompact(cfg, Mine(before, who).ch, e.frame); }
    }
  }
}
