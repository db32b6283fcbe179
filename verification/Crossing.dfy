/** What crossing ratchet steps do: the two root keys part for good, and nothing either party sends in an
    epoch that the other had not adopted by then is ever opened. */
module Crossing {
  import opened ByteCodec
  import opened SymbolicCrypto
  import opened Ratchet
  import opened ReplayWindow
  import opened Channel
  import opened TwoParty
  import opened Lockstep
  import opened LockstepRuns
  import opened Authenticity
  import opened KeyFreshness

  // ----- root keys that have parted

  /** The root key `k` is `top` or was stepped on from it. */
  predicate OnBranch(k: Key, top: Key) {
    k == top || (k.RootOf? && OnBranch(k.root, top))
  }

  lemma {:induction false} BranchIsDeep(k: Key, top: Key)
    requires OnBranch(k, top)
    ensures Depth(k) >= Depth(top)
  {
    if k != top { BranchIsDeep(k.root, top); }
  }

  /** Two steps from one root with different secrets begin branches that never meet. */
  lemma {:induction false} BranchesApart(k: Key, r: Key, a: Secret, b: Secret)
    requires OnBranch(k, RootOf(r, a)) && OnBranch(k, RootOf(r, b))
    ensures a == b
  {
    BranchIsDeep(k, RootOf(r, a));
    if k == RootOf(r, a) || k == RootOf(r, b) {
      if a != b { BranchIsDeep(r, if k == RootOf(r, a) then RootOf(r, b) else RootOf(r, a)); }
    } else {
      BranchesApart(k.root, r, a, b);
    }
  }

  /** The chain was seeded by the step from `r` with `d`, or by a later step on that branch. */
  predicate SeededOnBranch(seed: Key, r: Key, d: Secret) {
    seed.ChainOf? && (seed.root == r || OnBranch(seed.root, RootOf(r, d)))
  }

  /** No step on one branch makes the chain that a step from the other branch would. */
  lemma SeedsApart(seed: Key, r: Key, d: Secret, other: Key, d': Secret)
    requires SeededOnBranch(seed, r, d) && OnBranch(other, RootOf(r, d')) && d != d'
    ensures seed.root != other
  {
    BranchIsDeep(other, RootOf(r, d'));
    if seed.root == other && seed.root != r { BranchesApart(other, r, d, d'); }
  }

  /** The chain grew from a seed that is not of the branch. */
  predicate OffBranch(c: RecvState, r: Key, d: Secret) {
    GrownFrom(c, Origin(c.chainKey)) && !SeededOnBranch(Origin(c.chainKey), r, d)
  }

  predicate AllOffBranch(recv: map<nat, RecvState>, r: Key, d: Secret) {
    forall k | k in recv :: OffBranch(recv[k], r, d)
  }

  lemma ShallowIsOffBranch(seed: Key, r: Key, d: Secret)
    requires Depth(seed) <= Depth(r)
    ensures !SeededOnBranch(seed, r, d)
  {
    if seed.ChainOf? && OnBranch(seed.root, RootOf(r, d)) { BranchIsDeep(seed.root, RootOf(r, d)); }
  }

  // ----- one direction after a crossing

  /** `y`'s root key went one way from `r`, with `dy`; everything `x` has yet to get adopted went the other
      way, with `dx`, and none of `y`'s chains did; and `y` has accepted all the announcements it adopted. */
  ghost predicate Deaf(cfg: Config, r: Key, dx: Secret, dy: Secret, x: Side, y: Side) {
    && OnBranch(y.ch.root, RootOf(r, dy))
    && y.got < |x.sent.epochs| && OwnKeys(x.sent.epochs)
    && (forall i | y.got < i < |x.sent.epochs| :: SeededOnBranch(x.sent.epochs[i].seed, r, dx))
    && (forall i: nat | 1 <= i <= y.got :: CounterAt(x.sent, i, 0) in y.accepted)
    && y.ch.peerPub == x.sent.epochs[y.got].priv.pub
    && Represents(cfg.windowSize, y.ch.window, y.accepted)
    && AllOffBranch(y.ch.recv, r, dx)
  }

  /** Every announcement of `x` is rejected without a trace: those adopted before as repeated, all others
      because they were sealed on the other branch. */
  lemma DeafToAnnouncements(cfg: Config, r: Key, dx: Secret, dy: Secret, x: Side, y: Side, c: nat, p: Frame)
    requires Deaf(cfg, r, dx, dy, x, y) && dx != dy
    requires Carries(cfg, x.sent, c, p) && p.aad.announce.Some?
    ensures Decrypted(cfg, y.ch, p).1.Failure? && Decrypted(cfg, y.ch, p).0 == y.ch
  {
    var j := x.sent.log[c].epoch;
    CheckIsVerdict(cfg.windowSize, y.ch.window, y.accepted, c);
    if Check(cfg.windowSize, y.ch.window, c) == Fresh {
      assert CounterAt(x.sent, j, 0) == x.sent.epochs[j].start;
      assert j > y.got && x.sent.epochs[y.got].priv != x.sent.epochs[j].priv;
      SeedsApart(x.sent.epochs[j].seed, r, dx, y.ch.root, dy);
      AnnouncedOutcome(cfg, y.ch, p, ChainOf(y.ch.root, Exchange(y.ch.myPriv, p.aad.announce.value)));
    }
  }

  lemma PlainMovesNoRoot(cfg: Config, y: Side, p: Frame)
    requires p.Parsed? && p.aad.announce.None?
    ensures ReceiveSide(cfg, y, p).got == y.got && ReceiveSide(cfg, y, p).ch.root == y.ch.root
    ensures ReceiveSide(cfg, y, p).ch.peerPub == y.ch.peerPub && ReceiveSide(cfg, y, p).sent == y.sent
    ensures y.accepted <= ReceiveSide(cfg, y, p).accepted
  {
  }

  /** A plain frame that was sealed on the branch opens under none of the chains. */
  lemma DeafToPlain(cfg: Config, c: Chan, r: Key, d: Secret, p: Frame, seed: Key, n: nat)
    requires AllOffBranch(c.recv, r, d) && SeededOnBranch(seed, r, d)
    requires p.Parsed? && p.aad.announce.None? && p.body.Sealed? && p.body.key == MessageKey(seed, n)
    ensures Decrypted(cfg, c, p).1.Failure?
  {
    var route := Route(c.recv.Keys, p.aad.counter);
    OriginOfChainKey(seed, n);
    if Decrypted(cfg, c, p).1.Success? {
      AcceptedOpened(cfg, c, p);
      assert OffBranch(c.recv[route.value], r, d);
      RecvKeyGrownFrom(c.recv[route.value], p.aad.counter - route.value, Origin(c.recv[route.value].chainKey));
    }
  }

  lemma PlainKeepsOffBranch(cfg: Config, c: Chan, r: Key, d: Secret, p: Frame)
    requires AllOffBranch(c.recv, r, d) && p.Parsed? && p.aad.announce.None?
    ensures AllOffBranch(Decrypted(cfg, c, p).0.recv, r, d)
  {
    var route := Route(c.recv.Keys, p.aad.counter);
    if route.Some? {
      var n, asked := p.aad.counter - route.value, c.recv[route.value];
      RecvKeyGrownFrom(asked, n, Origin(asked.chainKey));
      DecryptPlainRouted(cfg, c, p, route.value, n, asked);
    }
  }

  /** Everything of an epoch that `y` has not adopted is rejected. */
  lemma DeafToEpoch(cfg: Config, r: Key, dx: Secret, dy: Secret, x: Side, y: Side, c: nat, p: Frame)
    requires Deaf(cfg, r, dx, dy, x, y) && dx != dy && Carries(cfg, x.sent, c, p)
    requires p.aad.announce.Some? || x.sent.log[c].epoch > y.got
    ensures Decrypted(cfg, y.ch, p).1.Failure?
  {
    if p.aad.announce.Some? {
      DeafToAnnouncements(cfg, r, dx, dy, x, y, c, p);
    } else {
      var e := x.sent.epochs[x.sent.log[c].epoch];
      DeafToPlain(cfg, y.ch, r, dx, p, e.seed, c - e.start);
    }
  }

  lemma ReceiveKeepsDeaf(cfg: Config, r: Key, dx: Secret, dy: Secret, x: Side, y: Side, y': Side, c: nat, p: Frame)
    requires Deaf(cfg, r, dx, dy, x, y) && dx != dy
    requires Carries(cfg, x.sent, c, p) && y' == ReceiveSide(cfg, y, p)
    ensures Deaf(cfg, r, dx, dy, x, y') && y'.got == y.got
    ensures y'.sent == y.sent && y'.ch.root == y.ch.root
  {
    if p.aad.announce.Some? {
      DeafToAnnouncements(cfg, r, dx, dy, x, y, c, p);
      RejectedIsUntouched(cfg, y, p);
    } else {
      PlainMovesNoRoot(cfg, y, p);
      PlainKeepsOffBranch(cfg, y.ch, r, dx, p);
      ReceiveKeepsWindow(cfg, y, p);
    }
  }

  lemma SendKeepsDeafToMe(cfg: Config, r: Key, dx: Secret, dy: Secret, x: Side, y: Side,
                          text: Bytes, timeDue: bool, newPriv: PrivKey)
    requires Deaf(cfg, r, dx, dy, x, y) && OnBranch(x.ch.root, RootOf(r, dx)) && NewToSender(cfg, x, timeDue, newPriv)
    ensures Deaf(cfg, r, dx, dy, SendSide(cfg, x, text, timeDue, newPriv), y)
  {
    var h' := SendSide(cfg, x, text, timeDue, newPriv).sent;
    assert forall i: nat | i <= y.got :: CounterAt(h', i, 0) == CounterAt(x.sent, i, 0);
  }

  lemma SendKeepsMeDeaf(cfg: Config, r: Key, dx: Secret, dy: Secret, x: Side, y: Side,
                        text: Bytes, timeDue: bool, newPriv: PrivKey)
    requires Deaf(cfg, r, dy, dx, y, x)
    ensures Deaf(cfg, r, dy, dx, y, SendSide(cfg, x, text, timeDue, newPriv))
  {
  }

  // ----- the crossing

  lemma {:induction false} InFlightOnBranch(x: Side, y: Side, i: nat, d: Secret)
    requires Linked(y, x) && x.got < i < |y.sent.epochs|
    requires d == Exchange(x.ch.myPriv, y.sent.epochs[x.got + 1].priv.pub)
    ensures OnBranch(y.sent.epochs[i].root, RootOf(x.ch.root, d))
    ensures SeededOnBranch(y.sent.epochs[i].seed, x.ch.root, d)
  {
    assert LinkedAt(y, x, i);
    if i > x.got + 1 { InFlightOnBranch(x, y, i - 1, d); }
  }

  ghost predicate Crossed(cfg: Config, r: Key, dx: Secret, dy: Secret, x: Side, y: Side) {
    dx != dy && Deaf(cfg, r, dx, dy, x, y) && Deaf(cfg, r, dy, dx, y, x)
  }

  /** The stepping party is deaf to what is on its way to it. */
  lemma StepperIsDeaf(cfg: Config, x: Side, y: Side, x': Side, newPriv: PrivKey, dx: Secret, dy: Secret)
    requires ReceiverInv(cfg, y.sent, x) && OwnKeys(y.sent.epochs) && Linked(y, x) && InFlight(y, x) > 0
    requires dy == Exchange(x.ch.myPriv, y.sent.epochs[x.got + 1].priv.pub)
    requires x'.got == x.got && x'.accepted == x.accepted
    requires x'.ch.window == x.ch.window && x'.ch.peerPub == x.ch.peerPub
    requires x'.ch.root == RootOf(x.ch.root, dx) && x'.ch.recv == x.ch.recv && AllOffBranch(x.ch.recv, x.ch.root, dy)
    ensures Deaf(cfg, x.ch.root, dy, dx, y, x')
  {
    forall i: nat | x.got < i < |y.sent.epochs| ensures SeededOnBranch(y.sent.epochs[i].seed, x.ch.root, dy) {
      InFlightOnBranch(x, y, i, dy);
    }
  }

  /** The other party is deaf to the step. */
  lemma OtherIsDeaf(cfg: Config, x: Side, y: Side, x': Side, e: Epoch, dx: Secret, dy: Secret)
    requires ReceiverInv(cfg, x.sent, y) && Linked(y, x) && InFlight(x, y) == 0 && InFlight(y, x) > 0
    requires y.ch.root == y.sent.epochs[|y.sent.epochs| - 1].root
    requires dy == Exchange(x.ch.myPriv, y.sent.epochs[x.got + 1].priv.pub)
    requires x'.sent.epochs == x.sent.epochs + [e] && OwnKeys(x'.sent.epochs) && e.seed == ChainOf(x.ch.root, dx)
    requires AllOffBranch(y.ch.recv, x.ch.root, dx)
    ensures Deaf(cfg, x.ch.root, dx, dy, x', y)
  {
    InFlightOnBranch(x, y, |y.sent.epochs| - 1, dy);
    assert forall i: nat | i <= y.got :: CounterAt(x'.sent, i, 0) == CounterAt(x.sent, i, 0);
  }

  lemma RootsBeforeCrossing(x: Side, y: Side)
    requires RootsInv(x, y) && InFlight(y, x) > 0
    ensures Linked(y, x) && InFlight(x, y) == 0
    ensures y.ch.root == y.sent.epochs[|y.sent.epochs| - 1].root
  {
  }

  lemma LockBeforeCrossing(cfg: Config, x: Side, y: Side)
    requires LockInv(cfg, x, y) && InFlight(y, x) > 0
    ensures ReceiverInv(cfg, y.sent, x) && ReceiverInv(cfg, x.sent, y)
    ensures OwnKeys(y.sent.epochs) && OwnKeys(x.sent.epochs) && Linked(y, x) && InFlight(x, y) == 0
    ensures y.ch.root == y.sent.epochs[|y.sent.epochs| - 1].root
  {
    RootsBeforeCrossing(x, y);
  }

  /** What a step does to the party that takes it, as far as a crossing is concerned. */
  predicate TookStep(x: Side, x': Side, newPriv: PrivKey, dx: Secret) {
    && x'.got == x.got && x'.accepted == x.accepted && x'.ch.window == x.ch.window && x'.ch.peerPub == x.ch.peerPub
    && x'.ch.root == RootOf(x.ch.root, dx) && x'.ch.recv == x.ch.recv
    && |x'.sent.epochs| == |x.sent.epochs| + 1
    && x'.sent.epochs == x.sent.epochs + [Last(x'.sent)]
    && Last(x'.sent).seed == ChainOf(x.ch.root, dx) && Last(x'.sent).priv == newPriv
  }

  lemma SendSteps(cfg: Config, x: Side, text: Bytes, timeDue: bool, newPriv: PrivKey, dx: Secret)
    requires StepDue(cfg, x.ch, timeDue) && dx == Exchange(newPriv, x.ch.peerPub)
    ensures TookStep(x, SendSide(cfg, x, text, timeDue, newPriv), newPriv, dx)
  {
  }

  lemma SecretsDiffer(newPriv: PrivKey, peerPub: PubKey, mine: PrivKey, theirs: PubKey)
    requires newPriv.pub != mine.pub && newPriv.pub != theirs
    ensures Exchange(newPriv, peerPub) != Exchange(mine, theirs)
  {
    assert newPriv.pub in Exchange(newPriv, peerPub).ends && newPriv.pub !in Exchange(mine, theirs).ends;
  }

  /** A step taken while an announcement of the peer's is on its way makes a crossing. */
  lemma StepCrosses(cfg: Config, x: Side, y: Side, x': Side, newPriv: PrivKey, dx: Secret, dy: Secret)
    requires ReceiverInv(cfg, y.sent, x) && ReceiverInv(cfg, x.sent, y)
    requires OwnKeys(y.sent.epochs) && OwnKeys(x.sent.epochs)
    requires Linked(y, x) && InFlight(x, y) == 0 && InFlight(y, x) > 0
    requires y.ch.root == y.sent.epochs[|y.sent.epochs| - 1].root
    requires TookStep(x, x', newPriv, dx) && forall i | 0 <= i < |x.sent.epochs| :: x.sent.epochs[i].priv != newPriv
    requires dx != dy && dy == Exchange(x.ch.myPriv, y.sent.epochs[x.got + 1].priv.pub)
    requires AllOffBranch(x.ch.recv, x.ch.root, dy) && AllOffBranch(y.ch.recv, x.ch.root, dx)
    ensures Crossed(cfg, x.ch.root, dx, dy, x', y)
  {
    StepperIsDeaf(cfg, x, y, x', newPriv, dx, dy);
    OtherIsDeaf(cfg, x, y, x', Last(x'.sent), dx, dy);
  }

  // ----- for good

  /** Both ends' frames arrive or not, in any order and any number of times, and nothing else does. */
  ghost predicate HonestRun(cfg: Config, sys: Sys, es: seq<Event>) {
    forall i: nat | i < |es| :: HonestAt(cfg, sys, es, i)
  }

  ghost predicate HonestAt(cfg: Config, sys: Sys, es: seq<Event>, i: nat)
    requires i < |es|
  {
    es[i].Receive? ==> HonestFrame(cfg, Run(cfg, sys, es[..i]), es[i])
  }

  ghost predicate HonestFrame(cfg: Config, sys: Sys, e: Event)
    requires e.Receive?
  {
    exists c: nat :: Carries(cfg, Peer(sys, e.who).sent, c, e.frame)
  }

  ghost predicate CrossedSys(cfg: Config, r: Key, da: Secret, db: Secret, sys: Sys) {
    Crossed(cfg, r, da, db, sys.a, sys.b) && KeysUsed(sys)
  }

  /** Seen from either party. */
  ghost predicate CrossedFor(cfg: Config, r: Key, da: Secret, db: Secret, sys: Sys, who: Party) {
    if who == Alice then Crossed(cfg, r, da, db, Mine(sys, who), Peer(sys, who))
    else Crossed(cfg, r, db, da, Mine(sys, who), Peer(sys, who))
  }

  lemma CrossedFromEitherSide(cfg: Config, r: Key, da: Secret, db: Secret, sys: Sys, who: Party)
    ensures CrossedFor(cfg, r, da, db, sys, who) <==> Crossed(cfg, r, da, db, sys.a, sys.b)
  {
  }

  /** The frame announces a key, or was sent in an epoch after `got`. */
  predicate Unadopted(h: History, got: nat, p: Frame) {
    p.Parsed? && p.aad.counter < |h.log| && (p.aad.announce.Some? || h.log[p.aad.counter].epoch > got)
  }

  lemma SendKeepsCrossed(cfg: Config, r: Key, dx: Secret, dy: Secret, x: Side, y: Side,
                         text: Bytes, timeDue: bool, newPriv: PrivKey)
    requires Crossed(cfg, r, dx, dy, x, y) && NewToSender(cfg, x, timeDue, newPriv)
    ensures Crossed(cfg, r, dx, dy, SendSide(cfg, x, text, timeDue, newPriv), y)
  {
    SendKeepsDeafToMe(cfg, r, dx, dy, x, y, text, timeDue, newPriv);
    SendKeepsMeDeaf(cfg, r, dx, dy, x, y, text, timeDue, newPriv);
  }

  lemma ReceiveKeepsCrossed(cfg: Config, r: Key, dx: Secret, dy: Secret, x: Side, y: Side, c: nat, p: Frame)
    requires Crossed(cfg, r, dx, dy, x, y) && Carries(cfg, y.sent, c, p)
    ensures Crossed(cfg, r, dx, dy, ReceiveSide(cfg, x, p), y) && ReceiveSide(cfg, x, p).got == x.got
    ensures p.aad.announce.Some? || y.sent.log[c].epoch > x.got ==> Decrypted(cfg, x.ch, p).1.Failure?
  {
    ReceiveKeepsDeaf(cfg, r, dy, dx, y, x, ReceiveSide(cfg, x, p), c, p);
    if p.aad.announce.Some? || y.sent.log[c].epoch > x.got { DeafToEpoch(cfg, r, dy, dx, y, x, c, p); }
  }

  lemma EventKeepsCrossed(cfg: Config, r: Key, da: Secret, db: Secret, sys: Sys, e: Event)
    requires CrossedSys(cfg, r, da, db, sys) && FreshKeys(cfg, sys, e) && (e.Receive? ==> HonestFrame(cfg, sys, e))
    ensures CrossedSys(cfg, r, da, db, Step(cfg, sys, e))
    ensures Mine(Step(cfg, sys, e), e.who).got == Mine(sys, e.who).got
    ensures e.Receive? && Unadopted(Peer(sys, e.who).sent, Mine(sys, e.who).got, e.frame) ==>
              Decrypted(cfg, Mine(sys, e.who).ch, e.frame).1.Failure?
  {
    var x, y := Mine(sys, e.who), Peer(sys, e.who);
    var dx, dy := if e.who == Alice then da else db, if e.who == Alice then db else da;
    CrossedFromEitherSide(cfg, r, da, db, sys, e.who);
    StepKeepsKeys(cfg, sys, e);
    StepMoves(cfg, sys, e);
    match e {
      case Send(who, text, timeDue, newPriv) => SendKeepsCrossed(cfg, r, dx, dy, x, y, text, timeDue, newPriv);
      case Receive(who, p) =>
        var c: nat :| Carries(cfg, y.sent, c, p);
        ReceiveKeepsCrossed(cfg, r, dx, dy, x, y, c, p);
    }
    CrossedFromEitherSide(cfg, r, da, db, Step(cfg, sys, e), e.who);
  }

  /** One event of a crossed run adopts nothing. */
  lemma EventAdoptsNothing(cfg: Config, r: Key, da: Secret, db: Secret, sys: Sys, e: Event)
    requires CrossedSys(cfg, r, da, db, sys) && FreshKeys(cfg, sys, e) && (e.Receive? ==> HonestFrame(cfg, sys, e))
    ensures CrossedSys(cfg, r, da, db, Step(cfg, sys, e))
    ensures Step(cfg, sys, e).a.got == sys.a.got && Step(cfg, sys, e).b.got == sys.b.got
  {
    EventKeepsCrossed(cfg, r, da, db, sys, e);
    StepMoves(cfg, sys, e);
  }

  lemma RunHypotheses(cfg: Config, sys: Sys, es: seq<Event>, n: nat, now: Sys)
    requires HonestRun(cfg, sys, es) && FreshRun(cfg, sys, es) && n < |es| && now == Run(cfg, sys, es[..n])
    ensures FreshKeys(cfg, now, es[n]) && (es[n].Receive? ==> HonestFrame(cfg, now, es[n]))
  {
    assert HonestAt(cfg, sys, es, n) && FreshAt(cfg, sys, es, n);
  }

  lemma HypothesesPrefix(cfg: Config, sys: Sys, es: seq<Event>, n: nat)
    requires HonestRun(cfg, sys, es) && FreshRun(cfg, sys, es) && n <= |es|
    ensures HonestRun(cfg, sys, es[..n]) && FreshRun(cfg, sys, es[..n])
  {
    forall i: nat | i < n ensures HonestAt(cfg, sys, es[..n], i) && FreshAt(cfg, sys, es[..n], i) {
      assert HonestAt(cfg, sys, es, i) && FreshAt(cfg, sys, es, i) && es[..n][..i] == es[..i];
    }
  }

  lemma {:induction false} RunKeepsCrossed(cfg: Config, r: Key, da: Secret, db: Secret, sys: Sys, es: seq<Event>)
    requires CrossedSys(cfg, r, da, db, sys) && HonestRun(cfg, sys, es) && FreshRun(cfg, sys, es)
    ensures CrossedSys(cfg, r, da, db, Run(cfg, sys, es))
    ensures Run(cfg, sys, es).a.got == sys.a.got && Run(cfg, sys, es).b.got == sys.b.got
  {
    if es != [] {
      var before := es[..|es| - 1];
      HypothesesPrefix(cfg, sys, es, |es| - 1);
      RunHypotheses(cfg, sys, es, |es| - 1, Run(cfg, sys, before));
      RunKeepsCrossed(cfg, r, da, db, sys, before);
      EventAdoptsNothing(cfg, r, da, db, Run(cfg, sys, before), es[|es| - 1]);
    }
  }

  /** In lockstep, all receiving chains were begun no later than the root key that a step crosses from. */
  lemma ChainsBeforeCrossing(cfg: Config, d0: Secret, x: Side, y: Side, dx: Secret, dy: Secret)
    requires AuthSide(cfg, d0, x) && AuthSide(cfg, d0, y) && ReceiverInv(cfg, x.sent, y) && Ordered(x.sent.epochs)
    ensures AllOffBranch(x.ch.recv, x.ch.root, dy) && AllOffBranch(y.ch.recv, x.ch.root, dx)
  {
    forall k | k in x.ch.recv ensures OffBranch(x.ch.recv[k], x.ch.root, dy) {
      assert ForeignChain(x.sent, d0, x.ch.root, x.ch.recv[k]);
      ShallowIsOffBranch(Origin(x.ch.recv[k].chainKey), x.ch.root, dy);
    }
    forall k | k in y.ch.recv ensures OffBranch(y.ch.recv[k], x.ch.root, dx) {
      assert ForeignChain(y.sent, d0, y.ch.root, y.ch.recv[k]);
      var j := ChainOfEpoch(x.sent, y.got, y.ch.recv, y.accepted, k);
      assert SessionSeed(x.sent.epochs[j].seed, d0, x.ch.root);
      ShallowIsOffBranch(Origin(y.ch.recv[k].chainKey), x.ch.root, dx);
    }
  }

  lemma CrossingStarts(cfg: Config, d0: Secret, sys: Sys, step: Event, start: Sys)
    returns (r: Key, da: Secret, db: Secret)
    requires SysInv(cfg, sys) && AuthSys(cfg, d0, sys) && step.Send? && FreshKeys(cfg, sys, step)
    requires StepDue(cfg, Mine(sys, step.who).ch, step.timeDue)
    requires InFlight(Peer(sys, step.who), Mine(sys, step.who)) > 0
    requires start == Step(cfg, sys, step)
    ensures CrossedSys(cfg, r, da, db, start)
  {
    var x, y := Mine(sys, step.who), Peer(sys, step.who);
    LockFromEitherSide(cfg, sys, Alice);
    LockBeforeCrossing(cfg, x, y);
    var dx, dy := Exchange(step.newPriv, x.ch.peerPub), Exchange(x.ch.myPriv, y.sent.epochs[x.got + 1].priv.pub);
    StepIsNew(sys, x, y, step.newPriv);
    SecretsDiffer(step.newPriv, x.ch.peerPub, x.ch.myPriv, y.sent.epochs[x.got + 1].priv.pub);
    SendSteps(cfg, x, step.text, step.timeDue, step.newPriv, dx);
    StepMoves(cfg, sys, step);
    StepKeepsKeys(cfg, sys, step);
    ChainsBeforeCrossing(cfg, d0, x, y, dx, dy);
    StepCrosses(cfg, x, y, Mine(start, step.who), step.newPriv, dx, dy);
    r, da, db := x.ch.root, if step.who == Alice then dx else dy, if step.who == Alice then dy else dx;
    CrossedFromEitherSide(cfg, r, da, db, start, step.who);
  }

  lemma CrossedRejects(cfg: Config, r: Key, da: Secret, db: Secret, start: Sys, es: seq<Event>, i: nat, now: Sys)
    requires CrossedSys(cfg, r, da, db, start) && HonestRun(cfg, start, es) && FreshRun(cfg, start, es)
    requires i < |es| && now == Run(cfg, start, es[..i]) && es[i].Receive?
    requires Unadopted(Peer(now, es[i].who).sent, Mine(start, es[i].who).got, es[i].frame)
    ensures Decrypted(cfg, Mine(now, es[i].who).ch, es[i].frame).1.Failure?
  {
    HypothesesPrefix(cfg, start, es, i);
    RunKeepsCrossed(cfg, r, da, db, start, es[..i]);
    RunHypotheses(cfg, start, es, i, now);
    EventKeepsCrossed(cfg, r, da, db, now, es[i]);
  }

  /** Main result: from lockstep, one party takes a step while an announcement of the other is on its way.
      Then in every run of honest frames from there, whatever is delivered when and whoever steps again,
      neither party ever adopts another announcement, and every frame delivered that announces a key, or
      was sent in an epoch that its receiver had not adopted when the step was taken, is rejected. */
  lemma CrossingIsForever(cfg: Config, d0: Secret, sys: Sys, step: Event, es: seq<Event>, start: Sys, end: Sys,
                          i: nat, now: Sys)
    requires SysInv(cfg, sys) && AuthSys(cfg, d0, sys) && step.Send? && FreshKeys(cfg, sys, step)
    requires StepDue(cfg, Mine(sys, step.who).ch, step.timeDue)
    requires InFlight(Peer(sys, step.who), Mine(sys, step.who)) > 0
    requires start == Step(cfg, sys, step) && HonestRun(cfg, start, es) && FreshRun(cfg, start, es)
    requires end == Run(cfg, start, es) && i < |es| && now == Run(cfg, start, es[..i])
    ensures end.a.got == start.a.got && end.b.got == start.b.got
    ensures es[i].Receive? && Unadopted(Peer(now, es[i].who).sent, Mine(start, es[i].who).got, es[i].frame) ==>
              Decrypted(cfg, Mine(now, es[i].who).ch, es[i].frame).1.Failure?
  {
    var r, da, db := CrossingStarts(cfg, d0, sys, step, start);
    RunKeepsCrossed(cfg, r, da, db, start, es);
    if es[i].Receive? && Unadopted(Peer(now, es[i].who).sent, Mine(start, es[i].who).got, es[i].frame) {
      CrossedRejects(cfg, r, da, db, start, es, i, now);
    }
  }

  lemma StepIsNew(sys: Sys, x: Side, y: Side, newPriv: PrivKey)
    requires KeysUsed(sys) && newPriv.pub !in sys.used && ((x == sys.a && y == sys.b) || (x == sys.b && y == sys.a))
    ensures forall i | 0 <= i < |x.sent.epochs| :: x.sent.epochs[i].priv != newPriv
    ensures forall i | 0 <= i < |y.sent.epochs| :: y.sent.epochs[i].priv.pub != newPriv.pub
    ensures x.sent.epochs != [] && x.ch.myPriv == Last(x.sent).priv ==> x.ch.myPriv.pub != newPriv.pub
  {
  }
}
