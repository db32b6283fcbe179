/** A plain frame that overtakes the announcement of its own epoch: what the code does with it, and what is
    left of it once the announcement has arrived. */
module Overtaking {
  import opened ByteCodec
  import opened Wrappers
  import opened SymbolicCrypto
  import opened Ratchet
  import opened ReplayWindow
  import opened Channel
  import opened TwoParty
  import opened Lockstep
  import opened KeyFreshness
  import SortedMaps

  /** The frame with counter `c` was sent in epoch `j`, which `y` has not adopted, and announces nothing. */
  predicate Overtakes(h: History, y: Side, c: nat, j: nat)
    requires c < |h.log|
  {
    h.log[c].epoch == j && y.got < j < |h.epochs| && h.epochs[j].start < c
  }

  lemma OvertakingCounter(cfg: Config, h: History, got: nat, ch: Chan, accepted: set<nat>, j: nat, c: nat)
    requires Ordered(h.epochs) && LoggedInEpoch(h) && got < j < |h.epochs| && h.epochs[j].start <= c
    requires AcceptedInv(h, got, accepted) && Represents(cfg.windowSize, ch.window, accepted)
    ensures c > ch.window.highest && Check(cfg.windowSize, ch.window, c) == Fresh
    ensures h.epochs[got].start <= c && c - h.epochs[got].start >= EpochLength(h, got)
  {
    AcceptedBefore(h, got, accepted, j, h.epochs[j].start);
    if got + 1 < j { assert h.epochs[got + 1].start <= h.epochs[j].start; }
  }

  /** It is routed to the newest chain there is. */
  lemma OvertakingRoute(h: History, got: nat, c: nat)
    requires Ordered(h.epochs) && got < |h.epochs| && h.epochs[got].start <= c
    ensures Route(Retained(h, got), c) == Some(h.epochs[got].start)
  {
    assert h.epochs[got].start in Retained(h, got);
    RouteFinds(Retained(h, got), c, h.epochs[got].start);
  }

  /** That chain has not moved beyond its own epoch. */
  lemma NewestChain(h: History, got: nat, recv: map<nat, RecvState>, accepted: set<nat>)
    requires got < |h.epochs| && ChainsInv(h, got, recv, accepted)
    ensures h.epochs[got].start in recv
    ensures OnSequence(recv[h.epochs[got].start], h.epochs[got].seed)
    ensures recv[h.epochs[got].start].next <= EpochLength(h, got) || recv[h.epochs[got].start].next == 0
  {
    assert Live(h, got, got);
    var chain := recv[h.epochs[got].start];
    assert ChainInv(chain, h.epochs[got].seed, Used(h, got, accepted));
    if chain.next > 0 { assert chain.next - 1 in Used(h, got, accepted); }
  }

  /** Asked for a place beyond its epoch, the chain yields its own key of that place, which is not the frame's. */
  lemma OvertakingKey(chain: RecvState, prior: Key, seed: Key, n: nat, m: nat)
    requires OnSequence(chain, prior) && chain.next <= n
    requires Origin(prior) == prior && Origin(seed) == seed && prior != seed
    ensures RecvKey(chain, n).1 ==
            if n > chain.next + MAX_SKIP then Failure(TooFarAhead) else Success(MessageKey(prior, n))
    ensures RecvKey(chain, n).1.Failure? ==> RecvKey(chain, n).0 == chain
    ensures MessageKey(prior, n) != MessageKey(seed, m)
  {
    KeyForOnSequence(chain, prior, n);
    if MessageKey(prior, n) == MessageKey(seed, m) { ChainKeyInjective(prior, n, seed, m); }
  }

  lemma OvertakingRejected(cfg: Config, ch: Chan, p: Frame, start: nat, n: nat, prior: Key)
    requires p.Parsed? && p.aad.announce.None? && p.body.Sealed? && p.body.key != MessageKey(prior, n)
    requires Check(cfg.windowSize, ch.window, p.aad.counter) == Fresh && p.aad.counter == start + n
    requires Route(ch.recv.Keys, p.aad.counter) == Some(start) && start in ch.recv
    requires RecvKey(ch.recv[start], n).1 ==
             if n > ch.recv[start].next + MAX_SKIP then Failure(TooFarAhead) else Success(MessageKey(prior, n))
    requires RecvKey(ch.recv[start], n).1.Failure? ==> RecvKey(ch.recv[start], n).0 == ch.recv[start]
    ensures Decrypted(cfg, ch, p) ==
            if n > ch.recv[start].next + MAX_SKIP then (ch, Failure(Desync(TooFarAhead)))
            else (AskChain(ch, start, n), Failure(BadTag))
  {
    DecryptPlainRouted(cfg, ch, p, start, n, ch.recv[start]);
    assert ch.recv[start := ch.recv[start]] == ch.recv;
  }

  /** Main result: a frame that overtakes its announcement is rejected, as too far ahead or for its tag, and in
      the latter case moves the newest chain, and only it, to a place beyond the end of that chain's epoch.
      What this costs the frames still to come of that epoch `Rejection.RejectionSparesUnlessBurning` says. */
  lemma OvertakenAnnouncement(cfg: Config, x: Side, y: Side, used: set<PubKey>, c: nat, p: Frame, j: nat,
                              start: nat, n: nat)
    requires ReceiverInv(cfg, x.sent, y) && Ordered(x.sent.epochs) && LoggedInEpoch(x.sent) && FreshPair(x, y, used)
    requires Carries(cfg, x.sent, c, p) && Overtakes(x.sent, y, c, j)
    requires start == x.sent.epochs[y.got].start && n == c - start
    ensures start in y.ch.recv && n >= EpochLength(x.sent, y.got)
    ensures Decrypted(cfg, y.ch, p) ==
            if n > y.ch.recv[start].next + MAX_SKIP then (y.ch, Failure(Desync(TooFarAhead)))
            else (AskChain(y.ch, start, n), Failure(BadTag))
  {
    var prior, e := x.sent.epochs[y.got].seed, x.sent.epochs[j];
    OvertakingCounter(cfg, x.sent, y.got, y.ch, y.accepted, j, c);
    OvertakingRoute(x.sent, y.got, c);
    NewestChain(x.sent, y.got, y.ch.recv, y.accepted);
    assert KnownSeed(prior, used) && KnownSeed(e.seed, used);
    OvertakingKey(y.ch.recv[start], prior, e.seed, n, c - e.start);
    OvertakingRejected(cfg, y.ch, p, start, n, prior);
  }

  // ----- once the announcement has arrived

  /** Channels that differ only in the chain `start`. */
  predicate SameBut(c: Chan, c': Chan, start: nat) {
    && c' == c.(recv := c'.recv) && c'.recv.Keys == c.recv.Keys
    && forall k | k in c.recv && k != start :: c'.recv[k] == c.recv[k]
  }

  /** The announcement is adopted whatever the older chains look like. */
  lemma AnnouncementOpensAnyway(cfg: Config, x: Side, y: Side, ch: Chan, start: nat, a: nat, q: Frame, e: Epoch)
    requires Linked(x, y) && ReceiverInv(cfg, x.sent, y)
    requires Ordered(x.sent.epochs) && LoggedInEpoch(x.sent) && OwnKeys(x.sent.epochs)
    requires Carries(cfg, x.sent, a, q) && x.sent.log[a].epoch == y.got + 1
    requires e == x.sent.epochs[y.got + 1] && a == e.start
    requires SameBut(y.ch, ch, start)
    ensures Decrypted(cfg, ch, q) ==
            (Adopt(cfg, ch, e.root, RecvState(NextOf(e.seed), 1, map[]), e.priv.pub, a), Success(x.sent.log[a].text))
  {
    AnnouncementOpens(cfg, x, y, y.got + 1, a, q);
    assert LinkedAt(x, y, y.got + 1);
    AnnouncedOutcome(cfg, y.ch, q, e.seed);
    AnnouncedOutcome(cfg, ch, q, e.seed);
  }

  lemma SecondKeys(seed: Key, n: nat)
    requires n >= 1
    ensures RecvKey(RecvState(NextOf(seed), 1, map[]), n).1 ==
            if n > 1 + MAX_SKIP then Failure(TooFarAhead) else Success(MessageKey(seed, n))
  {
    assert ChainKey(seed, 1) == NextOf(ChainKey(seed, 0));
    ChainKeyAdds(seed, 1, n - 1);
  }

  /** Among the starts left after the adoption, a later counter is routed to the newest. */
  lemma AdoptedRoute(h: History, got: nat, recv: map<nat, RecvState>, chain: RecvState, a: nat, c: nat)
    requires Ordered(h.epochs) && got + 1 < |h.epochs| && recv.Keys == Retained(h, got)
    requires a == h.epochs[got + 1].start && a <= c
    ensures var recv' := SortedMaps.KeepHighest(recv[a := chain], MAX_RETAINED_CHAINS);
            Route(recv'.Keys, c) == Some(a) && a in recv' && recv'[a] == chain
  {
    RetainedGrows(h, got, recv, chain);
    OvertakingRoute(h, got + 1, c);
  }

  lemma OpensInNewEpoch(cfg: Config, h: History, ch: Chan, c: nat, p: Frame, e: Epoch, a: nat)
    requires Carries(cfg, h, c, p) && h.epochs[h.log[c].epoch] == e && a == e.start < c && p.aad.announce.None?
    requires Check(cfg.windowSize, ch.window, c) == Fresh && Route(ch.recv.Keys, c) == Some(a)
    requires a in ch.recv && ch.recv[a] == RecvState(NextOf(e.seed), 1, map[])
    ensures Decrypted(cfg, ch, p).1 ==
            if c - a > 1 + MAX_SKIP then Failure(Desync(TooFarAhead)) else Success(h.log[c].text)
  {
    SecondKeys(e.seed, c - a);
    SentFrameOpens(cfg, h, c, p);
    DecryptPlainRouted(cfg, ch, p, a, c - a, ch.recv[a]);
  }

  lemma WindowAfterAdoption(cfg: Config, ch: Chan, root: Key, chain: RecvState, pub: PubKey, a: nat, c: nat)
    requires a > ch.window.highest && c > a
    ensures Check(cfg.windowSize, Adopt(cfg, ch, root, chain, pub, a).window, c) == Fresh
    ensures Adopt(cfg, ch, root, chain, pub, a).recv == SortedMaps.KeepHighest(ch.recv[a := chain], MAX_RETAINED_CHAINS)
  {
  }

  lemma OpensAfterAdoption(cfg: Config, h: History, got: nat, ch: Chan, c: nat, p: Frame, e: Epoch, a: nat, ch': Chan)
    requires Ordered(h.epochs) && got + 1 < |h.epochs| && ch.recv.Keys == Retained(h, got)
    requires e == h.epochs[got + 1] && a == e.start < c && a > ch.window.highest
    requires Carries(cfg, h, c, p) && h.log[c].epoch == got + 1
    requires ch' == Adopt(cfg, ch, e.root, RecvState(NextOf(e.seed), 1, map[]), e.priv.pub, a)
    ensures Decrypted(cfg, ch', p).1 ==
            if c - a > 1 + MAX_SKIP then Failure(Desync(TooFarAhead)) else Success(h.log[c].text)
  {
    var chain := RecvState(NextOf(e.seed), 1, map[]);
    AdoptedRoute(h, got, ch.recv, chain, a, c);
    WindowAfterAdoption(cfg, ch, e.root, chain, e.priv.pub, a, c);
    OpensInNewEpoch(cfg, h, ch', c, p, e, a);
  }

  lemma AskedIsSameBut(c: Chan, start: nat, n: nat)
    requires start in c.recv
    ensures SameBut(c, AskChain(c, start, n), start) && SameBut(c, c, start)
  {
  }

  lemma LaterAnnouncement(cfg: Config, x: Side, y: Side, ch: Chan, start: nat, c: nat, p: Frame,
                          a: nat, q: Frame, ch': Chan)
    requires Linked(x, y) && ReceiverInv(cfg, x.sent, y) && SameBut(y.ch, ch, start)
    requires Ordered(x.sent.epochs) && LoggedInEpoch(x.sent) && OwnKeys(x.sent.epochs)
    requires Carries(cfg, x.sent, c, p) && Overtakes(x.sent, y, c, y.got + 1)
    requires a == x.sent.epochs[y.got + 1].start && Carries(cfg, x.sent, a, q) && x.sent.log[a].epoch == y.got + 1
    requires ch' == Decrypted(cfg, ch, q).0
    ensures Decrypted(cfg, ch, q).1 == Success(x.sent.log[a].text)
    ensures Decrypted(cfg, ch', p).1 ==
            if c - a > 1 + MAX_SKIP then Failure(Desync(TooFarAhead)) else Success(x.sent.log[c].text)
  {
    var e := x.sent.epochs[y.got + 1];
    OvertakingCounter(cfg, x.sent, y.got, y.ch, y.accepted, y.got + 1, a);
    AnnouncementOpensAnyway(cfg, x, y, ch, start, a, q, e);
    OpensAfterAdoption(cfg, x.sent, y.got, ch, c, p, e, a, ch');
  }

  /** Main result: the frame was rejected when it overtook its announcement. The announcement then still opens
      and, repeated after it, so does the frame, unless it is more than MAX_SKIP + 1 places into its epoch. */
  lemma OvertakenOpensLater(cfg: Config, x: Side, y: Side, used: set<PubKey>, c: nat, p: Frame,
                            a: nat, q: Frame, y': Chan, y'': Chan)
    requires Linked(x, y) && ReceiverInv(cfg, x.sent, y) && FreshPair(x, y, used)
    requires Ordered(x.sent.epochs) && LoggedInEpoch(x.sent) && OwnKeys(x.sent.epochs)
    requires Carries(cfg, x.sent, c, p) && Overtakes(x.sent, y, c, y.got + 1)
    requires a == x.sent.epochs[y.got + 1].start && Carries(cfg, x.sent, a, q) && x.sent.log[a].epoch == y.got + 1
    requires y' == Decrypted(cfg, y.ch, p).0 && y'' == Decrypted(cfg, y', q).0
    ensures Decrypted(cfg, y', q).1 == Success(x.sent.log[a].text)
    ensures Decrypted(cfg, y'', p).1 ==
            if c - a > 1 + MAX_SKIP then Failure(Desync(TooFarAhead)) else Success(x.sent.log[c].text)
  {
    var start := x.sent.epochs[y.got].start;
    OvertakenAnnouncement(cfg, x, y, used, c, p, y.got + 1, start, c - start);
    AskedIsSameBut(y.ch, start, c - start);
    LaterAnnouncement(cfg, x, y, y', start, c, p, a, q, y'');
  }
}
