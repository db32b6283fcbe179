/** The other half of healing and of forward secrecy: exactly how far a captured state reaches. Into the
    future, to every epoch the peer begins before it has adopted a new step of the captured party; into the
    past of what was received, nowhere once that party has stepped, and everywhere before. */
module Exposure {
  import opened ByteCodec
  import opened SymbolicCrypto
  import opened Ratchet
  import opened ReplayWindow
  import opened Channel
  import opened TwoParty
  import opened Lockstep
  import opened LockstepRuns
  import opened Authenticity
  import opened KeyFreshness
  import opened Healing
  import Capture

  // ----- what an attacker who holds one side's ratchet key and root key can follow

  /** `x`'s ratchet key and root key are known, and with them the root key that `y` steps from and every epoch
      of `y` from `from` on. */
  predicate Exposed(l: Leak, x: Side, y: Side, from: nat) {
    && x.ch.myPriv in l.privs && Knows(l, x.ch.root)
    && (InFlight(x, y) == 0 ==> Knows(l, y.ch.root))
    && (InFlight(x, y) > 0 ==> x.sent.epochs != [] && Knows(l, Last(x.sent).root))
    && (forall i | from <= i < |y.sent.epochs| :: Knows(l, y.sent.epochs[i].seed))
    && (forall i | x.got < i < |y.sent.epochs| :: Knows(l, y.sent.epochs[i].root))
  }

  lemma {:induction false} InFlightKnown(l: Leak, x: Side, y: Side, i: nat)
    requires Linked(y, x) && x.got < i < |y.sent.epochs|
    requires x.ch.myPriv in l.privs && Knows(l, x.ch.root)
    ensures Knows(l, y.sent.epochs[i].root)
  {
    assert LinkedAt(y, x, i);
    assert KnowsSecret(l, Exchange(x.ch.myPriv, y.sent.epochs[i].priv.pub));
    if i > x.got + 1 { InFlightKnown(l, x, y, i - 1); }
  }

  lemma CaptureExposes(l: Leak, x: Side, y: Side)
    requires RootsInv(x, y) && x.got < |y.sent.epochs| && y.got < |x.sent.epochs|
    requires x.ch.myPriv in l.privs && Knows(l, x.ch.root)
    ensures Exposed(l, x, y, |y.sent.epochs|)
  {
    if InFlight(y, x) > 0 { assert y.ch.root == y.sent.epochs[|y.sent.epochs| - 1].root; }
    forall i: nat | x.got < i < |y.sent.epochs| ensures Knows(l, y.sent.epochs[i].root) {
      InFlightKnown(l, x, y, i);
    }
  }

  lemma PlainSendKeepsExposed(cfg: Config, l: Leak, x: Side, y: Side, from: nat,
                              text: Bytes, timeDue: bool, newPriv: PrivKey)
    requires Exposed(l, x, y, from) && !StepDue(cfg, x.ch, timeDue)
    ensures Exposed(l, SendSide(cfg, x, text, timeDue, newPriv), y, from)
  {
  }

  /** The peer steps with the captured ratchet key, so the attacker follows. */
  lemma PeerSendKeepsExposed(cfg: Config, l: Leak, x: Side, y: Side, from: nat,
                             text: Bytes, timeDue: bool, newPriv: PrivKey)
    requires Exposed(l, x, y, from) && x.got < |y.sent.epochs|
    requires StepDue(cfg, y.ch, timeDue) ==> InFlight(x, y) == 0 && y.ch.peerPub == x.ch.myPriv.pub
    ensures Exposed(l, x, SendSide(cfg, y, text, timeDue, newPriv), from)
  {
    assert KnowsSecret(l, Exchange(newPriv, x.ch.myPriv.pub));
  }

  lemma PeerReceiveKeepsExposed(l: Leak, x: Side, y: Side, y': Side, from: nat)
    requires Exposed(l, x, y, from) && RootFollows(x, y, y')
    ensures Exposed(l, x, y', from)
  {
  }

  lemma ReceiveKeepsExposed(l: Leak, x: Side, y: Side, x': Side, from: nat)
    requires Exposed(l, x, y, from) && RootFollows(y, x, x') && x'.ch.myPriv == x.ch.myPriv
    ensures Exposed(l, x', y, from)
  {
  }

  lemma StepAddsEpoch(cfg: Config, x: Side, text: Bytes, timeDue: bool, newPriv: PrivKey)
    ensures |SendSide(cfg, x, text, timeDue, newPriv).sent.epochs| ==
            |x.sent.epochs| + if StepDue(cfg, x.ch, timeDue) then 1 else 0
  {
  }

  lemma EventKeepsExposed(cfg: Config, sys: Sys, e: Event, who: Party, l: Leak, from: nat)
    requires SysInv(cfg, sys) && Orderly(cfg, sys, e) && cfg.windowSize <= MAX_SKIP + 1
    requires Exposed(l, Mine(sys, who), Peer(sys, who), from)
    requires |Mine(Step(cfg, sys, e), who).sent.epochs| == |Mine(sys, who).sent.epochs|
    ensures Exposed(l, Mine(Step(cfg, sys, e), who), Peer(Step(cfg, sys, e), who), from)
  {
    var x, y := Mine(sys, who), Peer(sys, who);
    SidesAfter(cfg, sys, e, who);
    LockFromEitherSide(cfg, sys, Alice);
    match e
    case Send(sender, text, timeDue, newPriv) =>
      if sender == who {
        StepAddsEpoch(cfg, x, text, timeDue, newPriv);
        PlainSendKeepsExposed(cfg, l, x, y, from, text, timeDue, newPriv);
      } else {
        if StepDue(cfg, y.ch, timeDue) { PeerKeyCurrent(cfg, y, x); }
        GotIsEpoch(cfg, x, y);
        PeerSendKeepsExposed(cfg, l, x, y, from, text, timeDue, newPriv);
      }
    case Receive(receiver, p) =>
      FrameFollows(cfg, sys, receiver, p);
      if receiver == who {
        DecryptKeepsSending(cfg, x.ch, p);
        ReceiveKeepsExposed(l, x, y, ReceiveSide(cfg, x, p), from);
      } else {
        PeerReceiveKeepsExposed(l, x, y, ReceiveSide(cfg, y, p), from);
      }
  }

  lemma GotIsEpoch(cfg: Config, x: Side, y: Side)
    requires LockInv(cfg, x, y)
    ensures x.got < |y.sent.epochs| && y.got < |x.sent.epochs|
  {
  }

  /** As long as the captured party takes no step, the attacker follows the run. */
  lemma {:induction false} RunKeepsExposed(cfg: Config, sys: Sys, es: seq<Event>, who: Party, l: Leak, from: nat,
                                           now: Sys)
    requires SysInv(cfg, sys) && OrderlyRun(cfg, sys, es) && cfg.windowSize <= MAX_SKIP + 1 && now == Run(cfg, sys, es)
    requires Exposed(l, Mine(sys, who), Peer(sys, who), from)
    requires |Mine(now, who).sent.epochs| == |Mine(sys, who).sent.epochs|
    ensures Exposed(l, Mine(now, who), Peer(now, who), from)
    decreases |es|
  {
    if es != [] {
      var before, e := es[..|es| - 1], es[|es| - 1];
      var last := Run(cfg, sys, before);
      OrderlyPrefix(cfg, sys, es);
      RunKeepsLock(cfg, sys, before);
      RunGrows(cfg, sys, before, who);
      StepGrows(cfg, last, e, who);
      RunKeepsExposed(cfg, sys, before, who, l, from, last);
      EventKeepsExposed(cfg, last, e, who, l, from);
    }
  }

  // ----- into the future

  /** Epochs that stay in a history keep their seeds. */
  lemma EpochsStay(cfg: Config, sys: Sys, step: Event, es: seq<Event>, end: Sys, who: Party)
    requires end == Run(cfg, Step(cfg, sys, step), es)
    ensures Mine(sys, who).sent.epochs <= Mine(end, who).sent.epochs
  {
    StepGrows(cfg, sys, step, who);
    RunGrows(cfg, Step(cfg, sys, step), es, who);
  }

  lemma PeerStays(cfg: Config, sys: Sys, step: Event, es: seq<Event>, end: Sys, who: Party)
    requires end == Run(cfg, Step(cfg, sys, step), es)
    ensures Peer(sys, who).sent.epochs <= Peer(end, who).sent.epochs
  {
    var other := if who == Alice then Bob else Alice;
    EpochsStay(cfg, sys, step, es, end, other);
  }

  /** What the captured state reaches before the captured party's first step. */
  lemma ExposedBeforeStep(cfg: Config, sys0: Sys, pre: seq<Event>, sys: Sys, who: Party, l: Leak, i: nat, n: nat)
    requires SysInv(cfg, sys0) && OrderlyRun(cfg, sys0, pre) && sys == Run(cfg, sys0, pre)
    requires cfg.windowSize <= MAX_SKIP + 1
    requires |Mine(sys, who).sent.epochs| == |Mine(sys0, who).sent.epochs|
    requires Mine(sys0, who).ch.myPriv in l.privs && Mine(sys0, who).ch.root in l.keys
    requires |Peer(sys0, who).sent.epochs| <= i < |Peer(sys, who).sent.epochs|
    ensures Knows(l, MessageKey(Peer(sys, who).sent.epochs[i].seed, n))
  {
    LockFromEitherSide(cfg, sys0, Alice);
    GotIsEpoch(cfg, Mine(sys0, who), Peer(sys0, who));
    CaptureExposes(l, Mine(sys0, who), Peer(sys0, who));
    RunKeepsExposed(cfg, sys0, pre, who, l, |Peer(sys0, who).sent.epochs|, sys);
    Capture.LaterIsKnown(l, Peer(sys, who).sent.epochs[i].seed, 0, n);
  }

  /** Main result: exactly how long a compromise lasts. `who`'s whole state leaks in lockstep; after any orderly
      run in which `who` takes no step, `who` takes one, and any orderly run follows. Of the epochs begun
      after the capture, the attacker reads none of `who`'s, and the peer's up to those begun before the
      step; and until the peer has adopted the step it begins no other. A rekey by the peer heals nothing. */
  lemma CompromiseEndsWithOwnStep(cfg: Config, sys0: Sys, pre: seq<Event>, sys: Sys, who: Party, step: Event,
                                  others: set<PrivKey>, es: seq<Event>, end: Sys, l: Leak, i: nat, n: nat)
    requires SysInv(cfg, sys0) && FreshSys(sys0) && cfg.windowSize <= MAX_SKIP + 1
    requires l == Healing.Captured(Mine(sys0, who).ch, others)
    requires OrderlyRun(cfg, sys0, pre) && sys == Run(cfg, sys0, pre)
    requires |Mine(sys, who).sent.epochs| == |Mine(sys0, who).sent.epochs|
    requires step.Send? && step.who == who && StepDue(cfg, Mine(sys, who).ch, step.timeDue) && Orderly(cfg, sys, step)
    requires step.newPriv !in others && Peer(sys, who).ch.myPriv !in others
    requires OrderlyRun(cfg, Step(cfg, sys, step), es) && end == Run(cfg, Step(cfg, sys, step), es)
    ensures |Mine(sys0, who).sent.epochs| <= i < |Mine(end, who).sent.epochs| ==>
              !Knows(l, MessageKey(Mine(end, who).sent.epochs[i].seed, n))
    ensures |Peer(sys0, who).sent.epochs| <= i < |Peer(end, who).sent.epochs| ==>
              (Knows(l, MessageKey(Peer(end, who).sent.epochs[i].seed, n)) <==> i < |Peer(sys, who).sent.epochs|)
    ensures Peer(end, who).got < |Mine(sys, who).sent.epochs| ==>
              |Peer(end, who).sent.epochs| == |Peer(sys, who).sent.epochs|
  {
    PostCompromiseHealing(cfg, sys0, pre, sys, who, step, others, es, end, l, i, n);
    PeerStays(cfg, sys, step, es, end, who);
    if |Peer(sys0, who).sent.epochs| <= i < |Peer(sys, who).sent.epochs| {
      ExposedBeforeStep(cfg, sys0, pre, sys, who, l, i, n);
    }
  }

  // ----- into the past of what was received

  /** A frame's place, once accepted, is not one that its chain still waits for. */
  lemma AcceptedIsNotAwaited(cfg: Config, h: History, x: Side, c: nat, j: nat, i: nat)
    requires ReceiverInv(cfg, h, x) && Ordered(h.epochs) && Capture.SeedsOf(h.epochs)
    requires c in x.accepted && c < |h.log| && h.log[c].epoch == j && InEpoch(h, j, c) && i == c - h.epochs[j].start
    ensures !Capture.Awaits(x.ch.recv, h.epochs[j].seed, i)
  {
    Capture.SeedIsOrigin(h.epochs[j].seed, 0);
    forall k | k in x.ch.recv && Origin(x.ch.recv[k].chainKey) == h.epochs[j].seed
      ensures i < x.ch.recv[k].next && i !in x.ch.recv[k].skipped
    {
      var m := ChainOfEpoch(h, x.got, x.ch.recv, x.accepted, k);
      Capture.SeedIsOrigin(h.epochs[m].seed, 0);
      DeeperSeedsDiffer(h.epochs, m, j);
      assert CounterAt(h, j, i) == c;
      assert i in Used(h, j, x.accepted);
    }
  }

  lemma DeeperSeedsDiffer(epochs: seq<Epoch>, m: nat, j: nat)
    requires Capture.SeedsOf(epochs) && m < |epochs| && j < |epochs| && epochs[m].seed == epochs[j].seed
    ensures m == j
  {
  }

  /** What was adopted is no deeper than the root key. */
  lemma AdoptedIsShallow(cfg: Config, d0: Secret, x: Side, y: Side, j: nat)
    requires ReceiverInv(cfg, y.sent, x) && Ordered(y.sent.epochs) && Capture.SeedsOf(y.sent.epochs)
    requires AuthSide(cfg, d0, x) && j <= x.got
    ensures Depth(y.sent.epochs[j].seed) <= Depth(x.ch.root)
  {
    var start := y.sent.epochs[x.got].start;
    assert Live(y.sent, x.got, x.got);
    assert ForeignChain(x.sent, d0, x.ch.root, x.ch.recv[start]);
    var m := ChainOfEpoch(y.sent, x.got, x.ch.recv, x.accepted, start);
    LiveStartIsOne(y.sent, x.got, m);
    Capture.SeedIsOrigin(y.sent.epochs[x.got].seed, 0);
  }

  lemma LiveStartIsOne(h: History, got: nat, m: nat)
    requires Ordered(h.epochs) && got < |h.epochs| && Live(h, got, m) && h.epochs[m].start == h.epochs[got].start
    ensures m == got
  {
    if m < got { LiveStartsDiffer(h, got, m, got); }
  }

  /** A state that still holds the handshake's ratchet key follows the whole session. */
  lemma UnsteppedIsExposed(d0: Secret, x0: Side, y0: Side, l: Leak)
    requires x0.ch.root.Hkdf? && y0.ch.root == x0.ch.root && HandshakeSecret(x0.ch.root) == d0
    requires |y0.sent.epochs| == 1 && y0.sent.epochs[0].seed.Hkdf? && HandshakeSecret(y0.sent.epochs[0].seed) == d0
    requires |x0.sent.epochs| == 1 && x0.got == 0 && y0.got == 0
    requires x0.ch.myPriv in l.privs && x0.ch.myPriv.pub in d0.ends
    ensures Exposed(l, x0, y0, 0)
  {
    assert KnowsSecret(l, d0);
  }

  lemma UnsteppedKeyKept(s0: Side, s: Side)
    requires s0.sent.epochs != [] && s.sent.epochs != [] && AtEnd(s0.sent, s0.ch) && AtEnd(s.sent, s.ch)
    requires s0.sent.epochs <= s.sent.epochs && |s.sent.epochs| == |s0.sent.epochs|
    ensures s.ch.myPriv == s0.ch.myPriv
  {
  }

  /** Two channels as a handshake leaves them: fitting, their keys derived from the shared secret `d0` of their
      ratchet keys, a different one for each direction and for the root. */
  predicate HandshakePair(d0: Secret, a: Chan, b: Chan) {
    && Complementary(a, b) && d0 == Exchange(a.myPriv, b.myPriv.pub) && a.myPriv != b.myPriv
    && a.root.Hkdf? && a.root.info == RootKey && a.root.secret == d0
    && a.send.chainKey.Hkdf? && a.send.chainKey.info == InitiatorToResponder && a.send.chainKey.secret == d0
    && b.send.chainKey.Hkdf? && b.send.chainKey.info == ResponderToInitiator && b.send.chainKey.secret == d0
  }

  /** What then holds of them. */
  ghost predicate Shaken(cfg: Config, d0: Secret, sys: Sys) {
    && SysInv(cfg, sys) && AuthSys(cfg, d0, sys) && FreshSys(sys) && Capture.SysKeepsShape(d0, sys)
    && JustShaken(sys)
  }

  predicate JustShaken(sys: Sys) {
    && sys.a.ch.root.Hkdf? && sys.b.ch.root == sys.a.ch.root
    && |sys.a.sent.epochs| == 1 && |sys.b.sent.epochs| == 1 && sys.a.got == 0 && sys.b.got == 0
  }

  lemma PairIsShaken(cfg: Config, d0: Secret, a: Chan, b: Chan, used: set<PubKey>)
    requires HandshakePair(d0, a, b) && {a.myPriv.pub, b.myPriv.pub} <= used
    ensures Shaken(cfg, d0, Sys(Start(a), Start(b), used))
  {
    StartsInLockstep(cfg, a, b);
    assert Exchange(b.myPriv, a.myPriv.pub) == d0;
    StartIsAuthentic(cfg, d0, a, a.send.chainKey, b.send.chainKey, a.root);
    StartIsAuthentic(cfg, d0, b, b.send.chainKey, a.send.chainKey, a.root);
  }

  datatype Session = Session(a: Chan, b: Chan, used: set<PubKey>, es: seq<Event>)

  /** An orderly run from a handshake, to where `x` is one side and `y` the other. */
  ghost predicate Ran(cfg: Config, d0: Secret, s: Session, who: Party, x: Side, y: Side) {
    && HandshakePair(d0, s.a, s.b) && {s.a.myPriv.pub, s.b.myPriv.pub} <= s.used && cfg.windowSize <= MAX_SKIP + 1
    && OrderlyRun(cfg, Began(s), s.es) && x == Mine(Ended(cfg, s), who) && y == Peer(Ended(cfg, s), who)
  }

  function Began(s: Session): Sys {
    Sys(Start(s.a), Start(s.b), s.used)
  }

  function Ended(cfg: Config, s: Session): Sys {
    Run(cfg, Began(s), s.es)
  }

  lemma AcceptedWasSentThere(cfg: Config, d0: Secret, s: Session, who: Party, x: Side, y: Side, c: nat)
    requires Ran(cfg, d0, s, who, x, y) && c in x.accepted
    ensures c < |y.sent.log| && y.sent.log[c].epoch <= x.got && InEpoch(y.sent, y.sent.log[c].epoch, c)
  {
    PairIsShaken(cfg, d0, s.a, s.b, s.used);
    RunKeepsLock(cfg, Began(s), s.es);
    LockFromEitherSide(cfg, Ended(cfg, s), Alice);
  }

  lemma KeptShape(d0: Secret, x: Side)
    requires Capture.KeepsShape(d0, x)
    ensures Capture.Shaped(x.ch, Last(x.sent).seed, |x.sent.log| - Last(x.sent).start)
    ensures |x.sent.epochs| > 1 ==> x.ch.myPriv.pub !in d0.ends
  {
  }

  lemma SteppedShape(cfg: Config, d0: Secret, s: Session, who: Party, x: Side, y: Side)
    requires Ran(cfg, d0, s, who, x, y)
    ensures Capture.KeepsShape(d0, x)
  {
    PairIsShaken(cfg, d0, s.a, s.b, s.used);
    OrderlyIsFresh(cfg, Began(s), s.es);
    Capture.RunKeepsShape(cfg, d0, Began(s), s.es);
  }

  lemma SeedSecret(cfg: Config, d0: Secret, y: Side, j: nat)
    requires AuthSide(cfg, d0, y) && j < |y.sent.epochs|
    ensures HandshakeSecret(y.sent.epochs[j].seed) == d0
  {
    assert SessionSeed(y.sent.epochs[j].seed, d0, y.ch.root);
  }

  lemma ReceivedSeed(cfg: Config, d0: Secret, s: Session, who: Party, x: Side, y: Side, j: nat)
    requires Ran(cfg, d0, s, who, x, y) && j < |y.sent.epochs|
    ensures Capture.IsSeed(y.sent.epochs[j].seed) && HandshakeSecret(y.sent.epochs[j].seed) == d0
  {
    PairIsShaken(cfg, d0, s.a, s.b, s.used);
    RunKeepsAuth(cfg, d0, Began(s), s.es);
    OrderlyIsFresh(cfg, Began(s), s.es);
    Capture.RunKeepsShape(cfg, d0, Began(s), s.es);
    SeedSecret(cfg, d0, y, j);
  }

  lemma ReceivedSeedIsForeign(cfg: Config, d0: Secret, s: Session, who: Party, x: Side, y: Side, j: nat)
    requires Ran(cfg, d0, s, who, x, y) && j < |y.sent.epochs| && x.sent.epochs != []
    ensures y.sent.epochs[j].seed != Last(x.sent).seed
  {
    PairIsShaken(cfg, d0, s.a, s.b, s.used);
    OrderlyIsFresh(cfg, Began(s), s.es);
    RunKeepsFresh(cfg, Began(s), s.es);
    FreshFromEitherSide(Ended(cfg, s), who);
  }

  lemma ReceivedDepth(cfg: Config, d0: Secret, s: Session, who: Party, x: Side, y: Side, j: nat)
    requires Ran(cfg, d0, s, who, x, y) && j <= x.got && j < |y.sent.epochs|
    ensures Depth(y.sent.epochs[j].seed) <= Depth(x.ch.root)
  {
    PairIsShaken(cfg, d0, s.a, s.b, s.used);
    RunKeepsLock(cfg, Began(s), s.es);
    RunKeepsAuth(cfg, d0, Began(s), s.es);
    OrderlyIsFresh(cfg, Began(s), s.es);
    Capture.RunKeepsShape(cfg, d0, Began(s), s.es);
    LockFromEitherSide(cfg, Ended(cfg, s), Alice);
    AdoptedIsShallow(cfg, d0, x, y, j);
  }

  lemma ReceivedNotAwaited(cfg: Config, d0: Secret, s: Session, who: Party, x: Side, y: Side,
                           c: nat, j: nat, i: nat)
    requires Ran(cfg, d0, s, who, x, y) && c in x.accepted
    requires c < |y.sent.log| && y.sent.log[c].epoch == j && InEpoch(y.sent, j, c) && i == c - y.sent.epochs[j].start
    ensures !Capture.Awaits(x.ch.recv, y.sent.epochs[j].seed, i)
  {
    PairIsShaken(cfg, d0, s.a, s.b, s.used);
    RunKeepsLock(cfg, Began(s), s.es);
    OrderlyIsFresh(cfg, Began(s), s.es);
    Capture.RunKeepsShape(cfg, d0, Began(s), s.es);
    LockFromEitherSide(cfg, Ended(cfg, s), Alice);
    AcceptedIsNotAwaited(cfg, y.sent, x, c, j, i);
  }

  /** A key of a chain that is neither the sending one nor awaited is safe. */
  lemma PastIsSafe(c: Chan, d0: Secret, own: Key, at: nat, seed: Key, i: nat)
    requires Capture.Shaped(c, own, at) && Capture.IsSeed(seed) && Depth(seed) <= Depth(c.root)
    requires HandshakeSecret(seed) == d0 && c.myPriv.pub !in d0.ends
    requires seed != own && !Capture.Awaits(c.recv, seed, i)
    ensures !Knows(Capture.CapturedAlone(c), MessageKey(seed, i))
  {
    Capture.CapturedChannelLeaks(c, own, at, seed, i);
  }

  lemma SteppedReceivedSafe(cfg: Config, d0: Secret, s: Session, who: Party, x: Side, y: Side, c: nat, j: nat, e: Epoch)
    requires Ran(cfg, d0, s, who, x, y) && c in x.accepted && |x.sent.epochs| > 1
    requires c < |y.sent.log| && y.sent.log[c].epoch == j <= x.got && InEpoch(y.sent, j, c) && e == y.sent.epochs[j]
    ensures !Knows(Capture.CapturedAlone(x.ch), MessageKey(e.seed, c - e.start))
  {
    SteppedShape(cfg, d0, s, who, x, y);
    KeptShape(d0, x);
    ReceivedSeed(cfg, d0, s, who, x, y, j);
    ReceivedSeedIsForeign(cfg, d0, s, who, x, y, j);
    ReceivedDepth(cfg, d0, s, who, x, y, j);
    ReceivedNotAwaited(cfg, d0, s, who, x, y, c, j, c - e.start);
    PastIsSafe(x.ch, d0, Last(x.sent).seed, |x.sent.log| - Last(x.sent).start, e.seed, c - e.start);
  }

  /** Main result: after any orderly run from a handshake, capture one party's whole state. The keys of what it
      has received and accepted are in the attacker's reach if and only if it has not taken a ratchet step
      since the handshake. */
  lemma CapturedReceivedIsSafeIffStepped(cfg: Config, d0: Secret, s: Session, who: Party, x: Side, y: Side, c: nat)
    requires Ran(cfg, d0, s, who, x, y) && c in x.accepted
    ensures c < |y.sent.log| && InEpoch(y.sent, y.sent.log[c].epoch, c)
    ensures Knows(Capture.CapturedAlone(x.ch), DrawnKey(y.sent, c)) <==> |x.sent.epochs| == 1
  {
    AcceptedWasSentThere(cfg, d0, s, who, x, y, c);
    HasEpochs(cfg, d0, s, who, x, y);
    if |x.sent.epochs| > 1 {
      var j := y.sent.log[c].epoch;
      SteppedReceivedSafe(cfg, d0, s, who, x, y, c, j, y.sent.epochs[j]);
    } else {
      UnsteppedReceivedKnown(cfg, d0, s, who, x, y, c);
    }
  }

  lemma HasEpochs(cfg: Config, d0: Secret, s: Session, who: Party, x: Side, y: Side)
    requires Ran(cfg, d0, s, who, x, y)
    ensures x.sent.epochs != []
  {
    SteppedShape(cfg, d0, s, who, x, y);
  }

  lemma UnsteppedReceivedKnown(cfg: Config, d0: Secret, s: Session, who: Party, x: Side, y: Side, c: nat)
    requires Ran(cfg, d0, s, who, x, y) && |x.sent.epochs| == 1
    requires c < |y.sent.log| && InEpoch(y.sent, y.sent.log[c].epoch, c)
    ensures Knows(Capture.CapturedAlone(x.ch), DrawnKey(y.sent, c))
  {
    SteppedShape(cfg, d0, s, who, x, y);
    var l := Capture.CapturedAlone(x.ch);
    UnsteppedIsFollowed(cfg, d0, s, who, x, y, l);
    ExposedKey(l, x, y, c);
  }

  lemma UnsteppedIsFollowed(cfg: Config, d0: Secret, s: Session, who: Party, x: Side, y: Side, l: Leak)
    requires Ran(cfg, d0, s, who, x, y) && |x.sent.epochs| == 1 && AtEnd(x.sent, x.ch) && x.ch.myPriv in l.privs
    ensures Exposed(l, x, y, 0)
  {
    PairIsShaken(cfg, d0, s.a, s.b, s.used);
    RunGrows(cfg, Began(s), s.es, who);
    UnsteppedKeyKept(Mine(Began(s), who), x);
    ShakenIsExposed(cfg, d0, Began(s), who, l);
    RunKeepsExposed(cfg, Began(s), s.es, who, l, 0, Ended(cfg, s));
  }

  lemma ExposedKey(l: Leak, x: Side, y: Side, c: nat)
    requires Exposed(l, x, y, 0) && c < |y.sent.log| && InEpoch(y.sent, y.sent.log[c].epoch, c)
    ensures Knows(l, DrawnKey(y.sent, c))
  {
    var e := y.sent.epochs[y.sent.log[c].epoch];
    Capture.LaterIsKnown(l, e.seed, 0, c - e.start);
  }

  lemma ShakenIsExposed(cfg: Config, d0: Secret, sys0: Sys, who: Party, l: Leak)
    requires AuthSys(cfg, d0, sys0) && Capture.SysKeepsShape(d0, sys0) && JustShaken(sys0)
    requires Mine(sys0, who).ch.myPriv in l.privs
    ensures Exposed(l, Mine(sys0, who), Peer(sys0, who), 0)
  {
    var x0, y0 := Mine(sys0, who), Peer(sys0, who);
    assert SessionSeed(y0.sent.epochs[0].seed, d0, y0.ch.root);
    UnsteppedIsExposed(d0, x0, y0, l);
  }
}
