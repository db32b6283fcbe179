/** Lockstep over whole runs: from a completed handshake, through any sending, loss, repetition and
    reordering in which ratchet steps do not cross. */
module LockstepRuns {
  import opened ByteCodec
  import opened Wrappers
  import opened SymbolicCrypto
  import opened Ratchet
  import opened ReplayWindow
  import opened Channel
  import opened TwoParty
  import opened Lockstep

  /** Two channels fit each other: what one sends on the other receives on, from one root key. */
  predicate Complementary(a: Chan, b: Chan) {
    && a == NewChannel(a.send.chainKey, b.send.chainKey, a.root, a.myPriv, b.myPriv.pub)
    && b == NewChannel(b.send.chainKey, a.send.chainKey, a.root, b.myPriv, a.myPriv.pub)
  }

  lemma StartReceives(cfg: Config, a: Chan, b: Chan)
    requires Complementary(a, b)
    ensures ReceiverInv(cfg, Start(a).sent, Start(b))
  {
    var h := Start(a).sent;
    EmptyRepresents(cfg.windowSize);
    assert h.epochs[0].start in Retained(h, 0);
    assert Retained(h, 0) == {0};
    assert Used(h, 0, {}) == {};
  }

  lemma StartsInLockstep(cfg: Config, a: Chan, b: Chan)
    requires Complementary(a, b)
    ensures LockInv(cfg, Start(a), Start(b))
  {
    StartReceives(cfg, a, b);
    StartReceives(cfg, b, a);
  }

  // ----- the root keys

  /** `root` after adopting announcements `from`, ..., `to - 1` of `h` with the ratchet key `mine`. */
  function Folded(root: Key, mine: PrivKey, h: History, from: nat, to: nat): Key
    requires from <= to <= |h.epochs|
  {
    if from == to then root
    else RootOf(Folded(root, mine, h, from, to - 1), Exchange(mine, h.epochs[to - 1].priv.pub))
  }

  lemma {:induction false} LinkedIsFolded(x: Side, y: Side, i: nat)
    requires Linked(x, y) && y.got < i < |x.sent.epochs|
    ensures x.sent.epochs[i].root == Folded(y.ch.root, y.ch.myPriv, x.sent, y.got + 1, i + 1)
  {
    assert LinkedAt(x, y, i);
    if i > y.got + 1 { LinkedIsFolded(x, y, i - 1); }
  }

  lemma RootFolds(x: Side, y: Side)
    requires RootsInv(x, y) && y.got < |x.sent.epochs|
    ensures InFlight(y, x) == 0 ==>
              x.ch.root == Folded(y.ch.root, y.ch.myPriv, x.sent, y.got + 1, |x.sent.epochs|)
  {
    if InFlight(x, y) > 0 { LinkedIsFolded(x, y, |x.sent.epochs| - 1); }
  }

  /** Whoever has adopted everything the peer announced: the peer's root key is his own, folded over his
      announcements that the peer has yet to receive; and one of the two always has. */
  lemma RootsAgree(cfg: Config, x: Side, y: Side)
    requires LockInv(cfg, x, y)
    ensures InFlight(x, y) == 0 || InFlight(y, x) == 0
    ensures InFlight(y, x) == 0 ==>
              x.ch.root == Folded(y.ch.root, y.ch.myPriv, x.sent, y.got + 1, |x.sent.epochs|)
  {
    RootFolds(x, y);
  }

  lemma SafeStepOpens(cfg: Config, x: Side, y: Side, text: Bytes, timeDue: bool, newPriv: PrivKey, p: Frame, x': Side)
    requires LockInv(cfg, x, y) && InFlight(y, x) == 0
    requires StepDue(cfg, x.ch, timeDue) && NewToSender(cfg, x, timeDue, newPriv)
    requires Encrypted(cfg, x.ch, text, timeDue, newPriv).1 == Success(p)
    requires x' == SendSide(cfg, x, text, timeDue, newPriv)
    ensures Decrypted(cfg, y.ch, p).1 == if InFlight(x, y) == 0 then Success(text) else Failure(BadTag)
  {
    SendMakesFrame(cfg, x, text, timeDue, newPriv);
    SendKeepsLock(cfg, x, y, text, timeDue, newPriv);
    if InFlight(x, y) == 0 {
      NextAnnouncement(cfg, x', y, |x.sent.log|, p);
    } else {
      AnnouncementOpens(cfg, x', y, |x.sent.epochs|, |x.sent.log|, p);
    }
  }

  /** The announcement of a step from a root that is not the receiver's does not open. */
  lemma StrayStepFails(cfg: Config, c: Chan, y: Chan, text: Bytes, timeDue: bool, newPriv: PrivKey, p: Frame)
    requires StepDue(cfg, c, timeDue) && Encrypted(cfg, c, text, timeDue, newPriv).1 == Success(p)
    requires c.root != y.root && newPriv.pub != y.peerPub && Check(cfg.windowSize, y.window, c.sendCounter) == Fresh
    ensures Decrypted(cfg, y, p).1 == Failure(BadTag)
  {
    AnnouncedOutcome(cfg, y, p, ChainOf(y.root, Exchange(y.myPriv, newPriv.pub)));
  }

  lemma CrossingStepFails(cfg: Config, x: Side, y: Side, text: Bytes, timeDue: bool, newPriv: PrivKey, p: Frame)
    requires ReceiverInv(cfg, x.sent, y) && Ahead(y, x) && InFlight(y, x) > 0 && x.ch.sendCounter == |x.sent.log|
    requires StepDue(cfg, x.ch, timeDue) && NewToSender(cfg, x, timeDue, newPriv)
    requires Encrypted(cfg, x.ch, text, timeDue, newPriv).1 == Success(p)
    ensures Decrypted(cfg, y.ch, p).1 == Failure(BadTag)
  {
    RootsApart(x, y);
    AheadCounterIsFresh(cfg, x.sent, y);
    assert newPriv != x.sent.epochs[y.got].priv;
    StrayStepFails(cfg, x.ch, y.ch, text, timeDue, newPriv, p);
  }

  /** Exactly when the announcement of a step opens at the peer as things stand: if and only if no
      announcement of either party was in flight when the step was taken. One behind others of the same
      party opens after them (`SendKeepsLock`, `DeliverExactly`); one that crosses the peer's never does. */
  lemma StepOpensIffNotCrossing(cfg: Config, x: Side, y: Side, text: Bytes, timeDue: bool, newPriv: PrivKey, p: Frame)
    requires LockInv(cfg, x, y)
    requires StepDue(cfg, x.ch, timeDue) && NewToSender(cfg, x, timeDue, newPriv)
    requires Encrypted(cfg, x.ch, text, timeDue, newPriv).1 == Success(p)
    ensures Decrypted(cfg, y.ch, p).1 ==
            if InFlight(x, y) == 0 && InFlight(y, x) == 0 then Success(text) else Failure(BadTag)
  {
    if InFlight(y, x) == 0 {
      SafeStepOpens(cfg, x, y, text, timeDue, newPriv, p, SendSide(cfg, x, text, timeDue, newPriv));
    } else {
      CrossingStepFails(cfg, x, y, text, timeDue, newPriv, p);
    }
  }

  lemma RootsApart(x: Side, y: Side)
    requires Ahead(y, x) && InFlight(y, x) > 0
    ensures x.ch.root != y.ch.root
  {
    var i := |y.sent.epochs| - 1;
    DepthOfRootBefore(y, x, i);
    assert LinkedAt(y, x, i);
    assert Depth(y.ch.root) > Depth(x.ch.root);
  }

  lemma AheadCounterIsFresh(cfg: Config, h: History, y: Side)
    requires ReceiverInv(cfg, h, y)
    ensures Check(cfg.windowSize, y.ch.window, |h.log|) == Fresh
  {
  }

  lemma BoundedEpochIsInReach(cfg: Config, h: History, y: Side, c: nat)
    requires y.got < |h.epochs| && c < |h.log| && InEpoch(h, h.log[c].epoch, c)
    requires EpochsBounded(cfg, h) && cfg.rekeyInterval <= MAX_SKIP + 1
    requires Verdict(cfg.windowSize, y.ch.window.highest, y.accepted, c) == Fresh
    requires Oldest(y.got) <= h.log[c].epoch <= y.got + 1
    ensures Outcome(cfg, h, y, c) == Success(h.log[c].text)
  {
    assert EpochLength(h, h.log[c].epoch) <= EpochLimit(cfg);
  }

  /** With epochs no longer than MAX_SKIP + 1 frames, as any rekey interval up to that bound ensures, no
      frame is ever too far ahead: what may arrive and is fresh, of a retained epoch or the announcement
      of the next, is opened to its plaintext. */
  lemma BoundedEpochsNeverDesync(cfg: Config, x: Side, y: Side, c: nat, p: Frame)
    requires LockInv(cfg, x, y) && cfg.rekeyInterval <= MAX_SKIP + 1 && cfg.windowSize <= MAX_SKIP + 1
    requires Carries(cfg, x.sent, c, p) && MayArrive(x.sent, y, c)
    requires Check(cfg.windowSize, y.ch.window, c) == Fresh && Oldest(y.got) <= x.sent.log[c].epoch <= y.got + 1
    ensures Decrypted(cfg, y.ch, p).1 == Success(x.sent.log[c].text)
  {
    DeliverExactly(cfg, x, y, c, p);
    CheckIsVerdict(cfg.windowSize, y.ch.window, y.accepted, c);
    BoundedEpochIsInReach(cfg, x.sent, y, c);
  }

  /** The defaults meet every bound asked for here: with them, what may arrive and is fresh, of a retained epoch
      or the announcement of the next, is opened. */
  lemma DefaultsNeverDesync(x: Side, y: Side, c: nat, p: Frame)
    requires LockInv(DEFAULTS, x, y) && Carries(DEFAULTS, x.sent, c, p) && MayArrive(x.sent, y, c)
    requires Check(DEFAULTS.windowSize, y.ch.window, c) == Fresh && Oldest(y.got) <= x.sent.log[c].epoch <= y.got + 1
    ensures Decrypted(DEFAULTS, y.ch, p).1 == Success(x.sent.log[c].text)
    ensures DEFAULTS == Config(1024, 20, true)
  {
    BoundedEpochsNeverDesync(DEFAULTS, x, y, c, p);
  }

  // ----- runs

  /** Every ratchet key of both parties is among those ever used. */
  predicate KeysUsed(sys: Sys) {
    && (forall i | 0 <= i < |sys.a.sent.epochs| :: sys.a.sent.epochs[i].priv.pub in sys.used)
    && (forall i | 0 <= i < |sys.b.sent.epochs| :: sys.b.sent.epochs[i].priv.pub in sys.used)
  }

  ghost predicate SysInv(cfg: Config, sys: Sys) {
    LockInv(cfg, sys.a, sys.b) && KeysUsed(sys)
  }

  /** The hypotheses on one event: fresh ratchet keys, no crossing steps, and frames of the peer's only,
      none overtaking the announcement of its own epoch. */
  ghost predicate Orderly(cfg: Config, sys: Sys, e: Event) {
    match e
    case Send(who, _, timeDue, _) =>
      FreshKeys(cfg, sys, e) && MaySend(cfg, Mine(sys, who), Peer(sys, who), timeDue)
    case Receive(who, p) =>
      exists c: nat :: Carries(cfg, Peer(sys, who).sent, c, p) && MayArrive(Peer(sys, who).sent, Mine(sys, who), c)
  }

  ghost predicate OrderlyRun(cfg: Config, sys: Sys, es: seq<Event>) {
    forall i: nat | i < |es| :: OrderlyAt(cfg, sys, es, i)
  }

  ghost predicate OrderlyAt(cfg: Config, sys: Sys, es: seq<Event>, i: nat)
    requires i < |es|
  {
    Orderly(cfg, Run(cfg, sys, es[..i]), es[i])
  }

  lemma StepKeepsKeys(cfg: Config, sys: Sys, e: Event)
    requires KeysUsed(sys)
    ensures KeysUsed(Step(cfg, sys, e))
  {
    if e.Receive? { assert ReceiveSide(cfg, Mine(sys, e.who), e.frame).sent == Mine(sys, e.who).sent; }
  }

  lemma SendEventKeepsLock(cfg: Config, sys: Sys, e: Event)
    requires SysInv(cfg, sys) && Orderly(cfg, sys, e) && e.Send?
    ensures LockInv(cfg, SendSide(cfg, Mine(sys, e.who), e.text, e.timeDue, e.newPriv), Peer(sys, e.who))
  {
    SendKeepsLock(cfg, Mine(sys, e.who), Peer(sys, e.who), e.text, e.timeDue, e.newPriv);
  }

  lemma ReceiveEventKeepsLock(cfg: Config, sys: Sys, e: Event)
    requires SysInv(cfg, sys) && Orderly(cfg, sys, e) && e.Receive? && cfg.windowSize <= MAX_SKIP + 1
    ensures LockInv(cfg, Peer(sys, e.who), ReceiveSide(cfg, Mine(sys, e.who), e.frame))
  {
    var from, to := Peer(sys, e.who), Mine(sys, e.who);
    var c: nat :| Carries(cfg, from.sent, c, e.frame) && MayArrive(from.sent, to, c);
    LockFromEitherSide(cfg, sys, Alice);
    DeliverExactly(cfg, from, to, c, e.frame);
  }

  lemma LockFromEitherSide(cfg: Config, sys: Sys, who: Party)
    requires LockInv(cfg, Mine(sys, who), Peer(sys, who))
    ensures LockInv(cfg, sys.a, sys.b) && LockInv(cfg, sys.b, sys.a)
  {
    LockInvSymmetric(cfg, Mine(sys, who), Peer(sys, who));
  }

  /** One event moves one side. */
  lemma StepMoves(cfg: Config, sys: Sys, e: Event)
    ensures Peer(Step(cfg, sys, e), e.who) == Peer(sys, e.who)
    ensures Mine(Step(cfg, sys, e), e.who) ==
            match e
            case Send(who, text, timeDue, newPriv) => SendSide(cfg, Mine(sys, who), text, timeDue, newPriv)
            case Receive(who, p) => ReceiveSide(cfg, Mine(sys, who), p)
  {
  }

  lemma StepKeepsLock(cfg: Config, sys: Sys, e: Event)
    requires SysInv(cfg, sys) && Orderly(cfg, sys, e) && cfg.windowSize <= MAX_SKIP + 1
    ensures SysInv(cfg, Step(cfg, sys, e))
  {
    StepKeepsKeys(cfg, sys, e);
    StepMoves(cfg, sys, e);
    match e
    case Send(_, _, _, _) =>
      SendEventKeepsLock(cfg, sys, e);
      LockFromEitherSide(cfg, Step(cfg, sys, e), e.who);
    case Receive(who, p) =>
      ReceiveEventKeepsLock(cfg, sys, e);
      LockInvSymmetric(cfg, Peer(sys, who), ReceiveSide(cfg, Mine(sys, who), p));
      LockFromEitherSide(cfg, Step(cfg, sys, e), e.who);
  }

  lemma OrderlyPrefix(cfg: Config, sys: Sys, es: seq<Event>)
    requires es != [] && OrderlyRun(cfg, sys, es)
    ensures OrderlyRun(cfg, sys, es[..|es| - 1])
    ensures Orderly(cfg, Run(cfg, sys, es[..|es| - 1]), es[|es| - 1])
  {
    var before := es[..|es| - 1];
    forall i: nat | i < |before| ensures OrderlyAt(cfg, sys, before, i) {
      assert OrderlyAt(cfg, sys, es, i) && before[..i] == es[..i];
    }
    assert OrderlyAt(cfg, sys, es, |es| - 1);
  }

  lemma {:induction false} RunKeepsLock(cfg: Config, sys: Sys, es: seq<Event>)
    requires SysInv(cfg, sys) && OrderlyRun(cfg, sys, es) && cfg.windowSize <= MAX_SKIP + 1
    ensures SysInv(cfg, Run(cfg, sys, es))
  {
    if es != [] {
      var before := es[..|es| - 1];
      OrderlyPrefix(cfg, sys, es);
      RunKeepsLock(cfg, sys, before);
      StepKeepsLock(cfg, Run(cfg, sys, before), es[|es| - 1]);
    }
  }

  /** Main result over runs: start from complementary channels and let any orderly run happen. A frame that
      the peer's `encrypt` returned at any time in it, and that may arrive now, meets its exact outcome:
      if it is opened, then to the text of that very send. */
  lemma LockstepDelivery(cfg: Config, a: Chan, b: Chan, used: set<PubKey>, es: seq<Event>, sys0: Sys, sys: Sys,
                         who: Party, from: Party, i: nat, p: Frame)
    requires Complementary(a, b) && {a.myPriv.pub, b.myPriv.pub} <= used && cfg.windowSize <= MAX_SKIP + 1
    requires sys0 == Sys(Start(a), Start(b), used) && OrderlyRun(cfg, sys0, es) && sys == Run(cfg, sys0, es)
    requires from != who && SentAt(cfg, sys0, es, i, from, p)
    ensures SysInv(cfg, sys)
    ensures p.Parsed? && Carries(cfg, Peer(sys, who).sent, p.aad.counter, p)
    ensures Peer(sys, who).sent.log[p.aad.counter].text == es[i].text
    ensures MayArrive(Peer(sys, who).sent, Mine(sys, who), p.aad.counter) ==>
              Decrypted(cfg, Mine(sys, who).ch, p).1 == Outcome(cfg, Peer(sys, who).sent, Mine(sys, who), p.aad.counter)
  {
    StartsInLockstep(cfg, a, b);
    RunKeepsLock(cfg, sys0, es);
    SentIsCarried(cfg, sys0, es, i, from, p, |Mine(Run(cfg, sys0, es[..i]), from).sent.log|);
    LockFromEitherSide(cfg, sys, Alice);
    if MayArrive(Peer(sys, who).sent, Mine(sys, who), p.aad.counter) {
      DeliverExactly(cfg, Peer(sys, who), Mine(sys, who), p.aad.counter, p);
    }
  }

  /** The frames an orderly run delivers are frames that `encrypt` returned before: speaking of the history
      is speaking of the sends. */
  lemma DeliveredWasSent(cfg: Config, a: Chan, b: Chan, used: set<PubKey>, es: seq<Event>, sys0: Sys, k: nat,
                         from: Party)
    returns (i: nat)
    requires Complementary(a, b) && sys0 == Sys(Start(a), Start(b), used) && OrderlyRun(cfg, sys0, es)
    requires k < |es| && es[k].Receive? && from != es[k].who
    ensures i < k && SentAt(cfg, sys0, es, i, from, es[k].frame)
  {
    var now := Run(cfg, sys0, es[..k]);
    assert OrderlyAt(cfg, sys0, es, k) && Peer(now, es[k].who) == Mine(now, from);
    var c: nat :| Carries(cfg, Mine(now, from).sent, c, es[k].frame);
    i := CarriedWasSentBefore(cfg, sys0, es, k, from, Mine(now, from), c, es[k].frame);
  }
}
