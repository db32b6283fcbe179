/** Post-compromise healing: once a party whose whole state leaked takes one step with a fresh key, the
    attacker who listens to everything afterwards learns none of the keys that descend from that step. */
module Healing {
  import opened ByteCodec
  import opened SymbolicCrypto
  import opened Ratchet
  import opened ReplayWindow
  import opened Channel
  import opened TwoParty
  import opened Lockstep
  import opened LockstepRuns
  import opened KeyFreshness

  /** All key material of a channel: root key, sending chain, receiving chains, cached keys, and the
      current ratchet private key. */
  function StateKeys(c: Chan): set<Key> {
    {c.root, c.send.chainKey}
    + (set k | k in c.recv :: c.recv[k].chainKey)
    + (set k, i | k in c.recv && i in c.recv[k].skipped :: c.recv[k].skipped[i])
  }

  /** The attacker holds the captured state, and any other private keys `others`. */
  function Captured(c: Chan, others: set<PrivKey>): Leak {
    Leak(others + {c.myPriv}, StateKeys(c))
  }

  lemma {:induction false} WithinOrigin(k: Key, used: set<PubKey>)
    ensures Within(k, used) <==> Within(Origin(k), used)
  {
    match k
    case NextOf(c) => WithinOrigin(c, used);
    case MsgOf(c) => WithinOrigin(c, used);
    case _ =>
  }

  /** Nothing in memory was made with a key that does not exist yet. */
  lemma StateKeysAreOld(s: Side, used: set<PubKey>, d: Secret, k: Key)
    requires FreshSide(s, used) && k in StateKeys(s.ch) && !(d.ends <= used)
    ensures !Mixes(k, d)
  {
    if k == s.ch.send.chainKey {
      assert KnownSeed(Last(s.sent).seed, used);
      OriginOfChainKey(Last(s.sent).seed, |s.sent.log| - Last(s.sent).start);
      WithinOrigin(k, used);
    } else if k != s.ch.root {
      var j :| j in s.ch.recv &&
               (k == s.ch.recv[j].chainKey || exists i :: i in s.ch.recv[j].skipped && k == s.ch.recv[j].skipped[i]);
      assert KnownChain(s.ch.recv[j], used);
      WithinOrigin(k, used);
    }
    UnmixedSecret(k, used, d);
  }

  // ----- everything that descends from the step

  /** Epochs from `from` on were started after the secret `d` was mixed in. */
  predicate MixedFrom(epochs: seq<Epoch>, from: nat, d: Secret) {
    forall i | from <= i < |epochs| :: Mixes(epochs[i].seed, d) && Mixes(epochs[i].root, d)
  }

  /** `x` took the healing step into its epoch `xFrom`, while `y` had made `yFrom` epochs. */
  predicate Healed(x: Side, y: Side, d: Secret, xFrom: nat, yFrom: nat) {
    && Mixes(x.ch.root, d)
    && MixedFrom(x.sent.epochs, xFrom, d) && MixedFrom(y.sent.epochs, yFrom, d)
    && xFrom < |x.sent.epochs| && yFrom <= x.got + 1
    && (if y.got < xFrom then |y.sent.epochs| == yFrom else Mixes(y.ch.root, d))
  }

  lemma HealerSends(cfg: Config, x: Side, y: Side, d: Secret, xFrom: nat, yFrom: nat,
                    text: Bytes, timeDue: bool, newPriv: PrivKey)
    requires Healed(x, y, d, xFrom, yFrom)
    ensures Healed(SendSide(cfg, x, text, timeDue, newPriv), y, d, xFrom, yFrom)
  {
  }

  lemma PeerSends(cfg: Config, x: Side, y: Side, d: Secret, xFrom: nat, yFrom: nat,
                  text: Bytes, timeDue: bool, newPriv: PrivKey)
    requires Healed(x, y, d, xFrom, yFrom) && MaySend(cfg, y, x, timeDue)
    ensures Healed(x, SendSide(cfg, y, text, timeDue, newPriv), d, xFrom, yFrom)
  {
  }

  /** A delivery leaves the root key alone, or moves it to the root of the peer's next epoch. */
  predicate RootFollows(x: Side, y: Side, y': Side) {
    && y'.sent == y.sent
    && ((y'.got == y.got && y'.ch.root == y.ch.root)
        || (y'.got == y.got + 1 < |x.sent.epochs| && y'.ch.root == x.sent.epochs[y'.got].root))
  }

  lemma NextAnnouncementFollows(cfg: Config, x: Side, y: Side, y': Side, c: nat, p: Frame)
    requires Linked(x, y) && ReceiverInv(cfg, x.sent, y)
    requires Ordered(x.sent.epochs) && LoggedInEpoch(x.sent) && OwnKeys(x.sent.epochs)
    requires Carries(cfg, x.sent, c, p) && x.sent.log[c].epoch == y.got + 1 && c == x.sent.epochs[y.got + 1].start
    requires y' == ReceiveSide(cfg, y, p)
    ensures RootFollows(x, y, y')
  {
    NextAnnouncementReceived(cfg, x, y, y', c, p, x.sent.epochs[y.got + 1]);
    assert y'.sent == y.sent;
  }

  lemma AnnouncementFollows(cfg: Config, x: Side, y: Side, j: nat, c: nat, p: Frame)
    requires Linked(x, y) && ReceiverInv(cfg, x.sent, y)
    requires Ordered(x.sent.epochs) && LoggedInEpoch(x.sent) && OwnKeys(x.sent.epochs)
    requires Carries(cfg, x.sent, c, p) && x.sent.log[c].epoch == j > y.got && c == x.sent.epochs[j].start
    ensures RootFollows(x, y, ReceiveSide(cfg, y, p))
  {
    if j == y.got + 1 {
      NextAnnouncementFollows(cfg, x, y, ReceiveSide(cfg, y, p), c, p);
    } else {
      EarlyAnnouncementFollows(cfg, x, y, j, c, p);
    }
  }

  lemma EarlyAnnouncementFollows(cfg: Config, x: Side, y: Side, j: nat, c: nat, p: Frame)
    requires Linked(x, y) && ReceiverInv(cfg, x.sent, y)
    requires Ordered(x.sent.epochs) && LoggedInEpoch(x.sent) && OwnKeys(x.sent.epochs)
    requires Carries(cfg, x.sent, c, p) && x.sent.log[c].epoch == j > y.got + 1 && c == x.sent.epochs[j].start
    ensures RootFollows(x, y, ReceiveSide(cfg, y, p))
  {
    AnnouncementOpens(cfg, x, y, j, c, p);
    RejectedIsUntouched(cfg, y, p);
  }

  lemma AdoptedEpochFollows(cfg: Config, x: Side, y: Side, c: nat, p: Frame)
    requires ReceiverInv(cfg, x.sent, y) && Ordered(x.sent.epochs) && cfg.windowSize <= MAX_SKIP + 1
    requires Carries(cfg, x.sent, c, p) && x.sent.log[c].epoch <= y.got
    requires Check(cfg.windowSize, y.ch.window, c) == Fresh
    ensures RootFollows(x, y, ReceiveSide(cfg, y, p))
  {
    var j := x.sent.log[c].epoch;
    if j < Oldest(y.got) {
      PrunedOutcome(cfg, x.sent, y, c, p);
    } else {
      RetainedExactly(cfg, x.sent, y, ReceiveSide(cfg, y, p), c, p, j, x.sent.epochs[j].start);
    }
  }

  lemma DeliveryFollows(cfg: Config, x: Side, y: Side, c: nat, p: Frame)
    requires LockInv(cfg, x, y) && cfg.windowSize <= MAX_SKIP + 1
    requires Carries(cfg, x.sent, c, p) && MayArrive(x.sent, y, c)
    ensures RootFollows(x, y, ReceiveSide(cfg, y, p))
  {
    if Check(cfg.windowSize, y.ch.window, c) != Fresh {
      RepeatedOutcome(cfg, y, p);
    } else if x.sent.log[c].epoch > y.got {
      AnnouncementFollows(cfg, x, y, x.sent.log[c].epoch, c, p);
    } else {
      AdoptedEpochFollows(cfg, x, y, c, p);
    }
  }

  lemma PeerReceives(x: Side, y: Side, y': Side, d: Secret, xFrom: nat, yFrom: nat)
    requires Healed(x, y, d, xFrom, yFrom) && RootFollows(x, y, y')
    ensures Healed(x, y', d, xFrom, yFrom)
  {
  }

  lemma HealerReceives(x: Side, x': Side, y: Side, d: Secret, xFrom: nat, yFrom: nat)
    requires Healed(x, y, d, xFrom, yFrom) && RootFollows(y, x, x')
    ensures Healed(x', y, d, xFrom, yFrom)
  {
  }

  lemma FrameFollows(cfg: Config, sys: Sys, who: Party, p: Frame)
    requires SysInv(cfg, sys) && Orderly(cfg, sys, Receive(who, p)) && cfg.windowSize <= MAX_SKIP + 1
    ensures RootFollows(Peer(sys, who), Mine(sys, who), ReceiveSide(cfg, Mine(sys, who), p))
  {
    var from, to := Peer(sys, who), Mine(sys, who);
    LockFromEitherSide(cfg, sys, Alice);
    var c: nat :| Carries(cfg, from.sent, c, p) && MayArrive(from.sent, to, c);
    DeliveryFollows(cfg, from, to, c, p);
  }

  lemma SidesAfter(cfg: Config, sys: Sys, e: Event, who: Party)
    ensures e.who == who ==> Peer(Step(cfg, sys, e), who) == Peer(sys, who)
    ensures e.who != who ==> Mine(Step(cfg, sys, e), who) == Mine(sys, who)
    ensures Mine(Step(cfg, sys, e), e.who) ==
            match e
            case Send(w, text, timeDue, newPriv) => SendSide(cfg, Mine(sys, w), text, timeDue, newPriv)
            case Receive(w, p) => ReceiveSide(cfg, Mine(sys, w), p)
    ensures e.who != who ==> Peer(sys, who) == Mine(sys, e.who) && Peer(sys, e.who) == Mine(sys, who)
    ensures e.who != who ==> Peer(Step(cfg, sys, e), who) == Mine(Step(cfg, sys, e), e.who)
  {
  }

  lemma EventKeepsHealed(cfg: Config, sys: Sys, e: Event, who: Party, d: Secret, xFrom: nat, yFrom: nat)
    requires SysInv(cfg, sys) && Orderly(cfg, sys, e) && cfg.windowSize <= MAX_SKIP + 1
    requires Healed(Mine(sys, who), Peer(sys, who), d, xFrom, yFrom)
    ensures Healed(Mine(Step(cfg, sys, e), who), Peer(Step(cfg, sys, e), who), d, xFrom, yFrom)
  {
    var x, y := Mine(sys, who), Peer(sys, who);
    SidesAfter(cfg, sys, e, who);
    match e
    case Send(sender, text, timeDue, newPriv) =>
      if sender == who {
        HealerSends(cfg, x, y, d, xFrom, yFrom, text, timeDue, newPriv);
      } else {
        PeerSends(cfg, x, y, d, xFrom, yFrom, text, timeDue, newPriv);
      }
    case Receive(receiver, p) =>
      FrameFollows(cfg, sys, receiver, p);
      if receiver == who {
        HealerReceives(x, ReceiveSide(cfg, x, p), y, d, xFrom, yFrom);
      } else {
        PeerReceives(x, y, ReceiveSide(cfg, y, p), d, xFrom, yFrom);
      }
  }

  lemma {:induction false} RunKeepsHealed(cfg: Config, sys: Sys, es: seq<Event>, who: Party, d: Secret,
                                          xFrom: nat, yFrom: nat)
    requires SysInv(cfg, sys) && OrderlyRun(cfg, sys, es) && cfg.windowSize <= MAX_SKIP + 1
    requires Healed(Mine(sys, who), Peer(sys, who), d, xFrom, yFrom)
    ensures Healed(Mine(Run(cfg, sys, es), who), Peer(Run(cfg, sys, es), who), d, xFrom, yFrom)
  {
    if es != [] {
      var before := es[..|es| - 1];
      OrderlyPrefix(cfg, sys, es);
      RunKeepsLock(cfg, sys, before);
      RunKeepsHealed(cfg, sys, before, who, d, xFrom, yFrom);
      EventKeepsHealed(cfg, Run(cfg, sys, before), es[|es| - 1], who, d, xFrom, yFrom);
    }
  }

  // ----- the result

  lemma HealingStepHeals(cfg: Config, x: Side, y: Side, text: Bytes, timeDue: bool, newPriv: PrivKey)
    requires StepDue(cfg, x.ch, timeDue) && InFlight(y, x) == 0
    requires y.got < |x.sent.epochs|
    ensures Healed(SendSide(cfg, x, text, timeDue, newPriv), y, Exchange(newPriv, x.ch.peerPub),
                   |x.sent.epochs|, |y.sent.epochs|)
  {
  }

  lemma DescendantsAreSecret(l: Leak, d: Secret, seed: Key, n: nat)
    requires !KnowsSecret(l, d) && forall k | k in l.keys :: !Mixes(k, d)
    requires Mixes(seed, d)
    ensures !Knows(l, ChainKey(seed, n)) && !Knows(l, MessageKey(seed, n))
  {
    MixedChainKey(seed, n, d);
    MixedKeyIsSecret(l, ChainKey(seed, n), d);
    MixedKeyIsSecret(l, MessageKey(seed, n), d);
  }

  lemma {:induction false} MixedChainKey(seed: Key, n: nat, d: Secret)
    requires Mixes(seed, d)
    ensures Mixes(ChainKey(seed, n), d)
  {
    if n > 0 { MixedChainKey(seed, n - 1, d); }
  }

  /** A party's ratchet keys and the keys ever used only grow along a run. */
  lemma {:induction false} RunGrows(cfg: Config, sys: Sys, es: seq<Event>, who: Party)
    ensures sys.used <= Run(cfg, sys, es).used
    ensures Mine(sys, who).sent.epochs <= Mine(Run(cfg, sys, es), who).sent.epochs
  {
    if es != [] {
      RunGrows(cfg, sys, es[..|es| - 1], who);
      StepGrows(cfg, Run(cfg, sys, es[..|es| - 1]), es[|es| - 1], who);
    }
  }

  lemma StepGrows(cfg: Config, sys: Sys, e: Event, who: Party)
    ensures sys.used <= Step(cfg, sys, e).used
    ensures Mine(sys, who).sent.epochs <= Mine(Step(cfg, sys, e), who).sent.epochs
  {
    SidesAfter(cfg, sys, e, who);
  }

  /** The step's Diffie-Hellman secret is beyond an attacker who captured `x0` earlier, and who holds neither
      the new private key nor the peer's current one. */
  lemma StepSecretIsSafe(x0: Side, used0: set<PubKey>, x: Side, y: Side, used: set<PubKey>, others: set<PrivKey>,
                         newPriv: PrivKey, d: Secret)
    requires FreshSide(x0, used0) && used0 <= used && x0.sent.epochs <= x.sent.epochs
    requires FreshPair(x, y, used) && newPriv.pub !in used
    requires newPriv !in others && y.ch.myPriv !in others
    requires d == Exchange(newPriv, y.ch.myPriv.pub)
    ensures !KnowsSecret(Captured(x0.ch, others), d)
    ensures forall k | k in Captured(x0.ch, others).keys :: !Mixes(k, d)
  {
    assert newPriv.pub in d.ends;
    forall k | k in StateKeys(x0.ch) ensures !Mixes(k, d) { StateKeysAreOld(x0, used0, d, k); }
    var last := |x0.sent.epochs| - 1;
    assert x0.ch.myPriv == x.sent.epochs[last].priv && y.ch.myPriv == Last(y.sent).priv;
    forall p | p in others + {x0.ch.myPriv} ensures p.pub !in d.ends {
      assert p.pub in d.ends ==> p == newPriv || p == y.ch.myPriv;
    }
  }

  lemma HealedIsSecret(l: Leak, d: Secret, x: Side, y: Side, xFrom: nat, yFrom: nat, i: nat, n: nat)
    requires !KnowsSecret(l, d) && forall k | k in l.keys :: !Mixes(k, d)
    requires Healed(x, y, d, xFrom, yFrom)
    ensures !Knows(l, x.ch.root) && (y.got >= xFrom ==> !Knows(l, y.ch.root))
    ensures y.got < xFrom ==> |y.sent.epochs| == yFrom
    ensures xFrom <= i < |x.sent.epochs| ==>
              !Knows(l, ChainKey(x.sent.epochs[i].seed, n)) && !Knows(l, MessageKey(x.sent.epochs[i].seed, n))
    ensures yFrom <= i < |y.sent.epochs| ==>
              !Knows(l, ChainKey(y.sent.epochs[i].seed, n)) && !Knows(l, MessageKey(y.sent.epochs[i].seed, n))
  {
    MixedKeyIsSecret(l, x.ch.root, d);
    if y.got >= xFrom { MixedKeyIsSecret(l, y.ch.root, d); }
    if xFrom <= i < |x.sent.epochs| { DescendantsAreSecret(l, d, x.sent.epochs[i].seed, n); }
    if yFrom <= i < |y.sent.epochs| { DescendantsAreSecret(l, d, y.sent.epochs[i].seed, n); }
  }

  lemma StepHeals(cfg: Config, sys: Sys, who: Party, text: Bytes, timeDue: bool, newPriv: PrivKey)
    requires SysInv(cfg, sys) && Orderly(cfg, sys, Send(who, text, timeDue, newPriv))
    requires StepDue(cfg, Mine(sys, who).ch, timeDue)
    ensures Mine(sys, who).ch.peerPub == Peer(sys, who).ch.myPriv.pub && newPriv.pub !in sys.used
    ensures Healed(SendSide(cfg, Mine(sys, who), text, timeDue, newPriv), Peer(sys, who),
                   Exchange(newPriv, Peer(sys, who).ch.myPriv.pub),
                   |Mine(sys, who).sent.epochs|, |Peer(sys, who).sent.epochs|)
  {
    LockFromEitherSide(cfg, sys, Alice);
    PeerKeyCurrent(cfg, Mine(sys, who), Peer(sys, who));
    HealingStepHeals(cfg, Mine(sys, who), Peer(sys, who), text, timeDue, newPriv);
  }

  /** Main result: `who`'s whole state leaks at some point of an orderly run. Later, after any more of the run,
      `who` takes one ratchet step with a fresh key. After any orderly run from there, every chain key and
      message key of every epoch that `who` began with or after that step, and of every epoch the peer
      began after it, is outside what the attacker can compute, and so are the root keys. The peer begins
      none before it has adopted the step. */
  lemma PostCompromiseHealing(cfg: Config, sys0: Sys, pre: seq<Event>, sys: Sys, who: Party, step: Event,
                              others: set<PrivKey>, es: seq<Event>, end: Sys, l: Leak, i: nat, n: nat)
    requires SysInv(cfg, sys0) && FreshSys(sys0) && cfg.windowSize <= MAX_SKIP + 1
    requires l == Captured(Mine(sys0, who).ch, others)
    requires OrderlyRun(cfg, sys0, pre) && sys == Run(cfg, sys0, pre)
    requires step.Send? && step.who == who && StepDue(cfg, Mine(sys, who).ch, step.timeDue) && Orderly(cfg, sys, step)
    requires step.newPriv !in others && Peer(sys, who).ch.myPriv !in others
    requires OrderlyRun(cfg, Step(cfg, sys, step), es) && end == Run(cfg, Step(cfg, sys, step), es)
    ensures !Knows(l, Mine(end, who).ch.root)
    ensures Peer(end, who).got < |Mine(sys, who).sent.epochs| ==>
              |Peer(end, who).sent.epochs| == |Peer(sys, who).sent.epochs|
    ensures Peer(end, who).got >= |Mine(sys, who).sent.epochs| ==> !Knows(l, Peer(end, who).ch.root)
    ensures |Mine(sys, who).sent.epochs| <= i < |Mine(end, who).sent.epochs| ==>
              && !Knows(l, ChainKey(Mine(end, who).sent.epochs[i].seed, n))
              && !Knows(l, MessageKey(Mine(end, who).sent.epochs[i].seed, n))
    ensures |Peer(sys, who).sent.epochs| <= i < |Peer(end, who).sent.epochs| ==>
              && !Knows(l, ChainKey(Peer(end, who).sent.epochs[i].seed, n))
              && !Knows(l, MessageKey(Peer(end, who).sent.epochs[i].seed, n))
  {
    var d := Exchange(step.newPriv, Peer(sys, who).ch.myPriv.pub);
    StepOutOfReach(cfg, sys0, pre, sys, who, step, others, d);
    StepKeepsHealed(cfg, sys, who, step, d);
    RunKeepsHealed(cfg, Step(cfg, sys, step), es, who, d, |Mine(sys, who).sent.epochs|, |Peer(sys, who).sent.epochs|);
    HealedIsSecret(l, d, Mine(end, who), Peer(end, who),
                   |Mine(sys, who).sent.epochs|, |Peer(sys, who).sent.epochs|, i, n);
  }

  /** The step's secret against the earlier capture, and the run's invariants where the step is taken. */
  lemma StepOutOfReach(cfg: Config, sys0: Sys, pre: seq<Event>, sys: Sys, who: Party, step: Event,
                       others: set<PrivKey>, d: Secret)
    requires SysInv(cfg, sys0) && FreshSys(sys0) && cfg.windowSize <= MAX_SKIP + 1
    requires OrderlyRun(cfg, sys0, pre) && sys == Run(cfg, sys0, pre)
    requires step.Send? && step.who == who && StepDue(cfg, Mine(sys, who).ch, step.timeDue) && Orderly(cfg, sys, step)
    requires step.newPriv !in others && Peer(sys, who).ch.myPriv !in others
    requires d == Exchange(step.newPriv, Peer(sys, who).ch.myPriv.pub)
    ensures SysInv(cfg, sys)
    ensures !KnowsSecret(Captured(Mine(sys0, who).ch, others), d)
    ensures forall k | k in Captured(Mine(sys0, who).ch, others).keys :: !Mixes(k, d)
  {
    RunKeepsLock(cfg, sys0, pre);
    OrderlyIsFresh(cfg, sys0, pre);
    RunKeepsFresh(cfg, sys0, pre);
    FreshFromEitherSide(sys0, who);
    FreshFromEitherSide(sys, who);
    RunGrows(cfg, sys0, pre, who);
    StepSecretIsSafe(Mine(sys0, who), sys0.used, Mine(sys, who), Peer(sys, who), sys.used, others, step.newPriv, d);
  }

  lemma OrderlyIsFresh(cfg: Config, sys: Sys, es: seq<Event>)
    requires OrderlyRun(cfg, sys, es)
    ensures FreshRun(cfg, sys, es)
  {
    forall i: nat | i < |es| ensures FreshAt(cfg, sys, es, i) {
      assert OrderlyAt(cfg, sys, es, i);
    }
  }

  lemma StepKeepsHealed(cfg: Config, sys: Sys, who: Party, step: Event, d: Secret)
    requires SysInv(cfg, sys) && cfg.windowSize <= MAX_SKIP + 1
    requires step.Send? && step.who == who && StepDue(cfg, Mine(sys, who).ch, step.timeDue) && Orderly(cfg, sys, step)
    requires d == Exchange(step.newPriv, Peer(sys, who).ch.myPriv.pub)
    ensures SysInv(cfg, Step(cfg, sys, step))
    ensures Healed(Mine(Step(cfg, sys, step), who), Peer(Step(cfg, sys, step), who), d,
                   |Mine(sys, who).sent.epochs|, |Peer(sys, who).sent.epochs|)
  {
    StepHeals(cfg, sys, who, step.text, step.timeDue, step.newPriv);
    StepKeepsLock(cfg, sys, step);
    SidesAfter(cfg, sys, step, who);
  }
}
