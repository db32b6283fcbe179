/** Turn-taking, as in the command-line client and server: every frame reaches the peer before anyone
    sends again. Then the hypotheses of lockstep hold by themselves, every message arrives exactly, and
    once one announcement was made every change of speaker brings a fresh ratchet key. */
module Conversation {
  import opened ByteCodec
  import opened Wrappers
  import opened SymbolicCrypto
  import opened WireFormat
  import opened Ratchet
  import opened ReplayWindow
  import opened Channel
  import opened TwoParty
  import opened Lockstep
  import opened LockstepRuns
  import Padding
  import Transport

  datatype Talk = Talk(who: Party, text: Bytes, timeDue: bool, newPriv: PrivKey)

  function Other(who: Party): Party {
    if who == Alice then Bob else Alice
  }

  function SendEvent(t: Talk): Event {
    Send(t.who, t.text, t.timeDue, t.newPriv)
  }

  /** The frame this message travels in, if `encrypt` produces one. */
  function FrameOf(cfg: Config, sys: Sys, t: Talk): Result<Frame, EncryptError> {
    Encrypted(cfg, Mine(sys, t.who).ch, t.text, t.timeDue, t.newPriv).1
  }

  /** One message said. `send_bytes` refuses a frame that is too large, after `encrypt` has moved on. */
  function Exchanged(cfg: Config, sys: Sys, t: Talk): Sys {
    var sent := Step(cfg, sys, SendEvent(t));
    match FrameOf(cfg, sys, t)
    case Success(p) =>
      if WireSize(p) > Transport.MAX_FRAME_SIZE then sent else Step(cfg, sent, Receive(Other(t.who), p))
    case Failure(_) => sent
  }

  function After(cfg: Config, sys: Sys, ts: seq<Talk>): Sys {
    if ts == [] then sys else Exchanged(cfg, After(cfg, sys, ts[..|ts| - 1]), ts[|ts| - 1])
  }

  predicate AllAccepted(x: Side, y: Side) {
    InFlight(x, y) == 0 && forall c: nat | c < |x.sent.log| :: c in y.accepted
  }

  ghost predicate InTouch(cfg: Config, sys: Sys) {
    SysInv(cfg, sys) && AllAccepted(sys.a, sys.b) && AllAccepted(sys.b, sys.a)
  }

  function PayloadSize(cfg: Config, text: Bytes): nat {
    if cfg.padMessages then Padding.BucketFor(Padding.LENGTH_PREFIX_SIZE + |text|) else |text|
  }

  /** How many bytes the frame of this message takes, with or without an announcement. */
  function FrameSize(cfg: Config, announced: bool, text: Bytes): nat {
    1 + (if announced then KEY_SIZE else 0) + COUNTER_SIZE + PayloadSize(cfg, text) + TAG_SIZE
  }

  /** What the speaker must bring: a ratchet key never seen, of the size all keys have, and a message that
      fits a frame that fits the transport. */
  predicate Sayable(cfg: Config, sys: Sys, t: Talk) {
    var announced := StepDue(cfg, Mine(sys, t.who).ch, t.timeDue);
    && FreshKeys(cfg, sys, SendEvent(t))
    && (announced ==> |t.newPriv.pub.raw| == KEY_SIZE)
    && Emittable(cfg, |Mine(sys, t.who).sent.log|, t.text)
    && FrameSize(cfg, announced, t.text) <= Transport.MAX_FRAME_SIZE
  }

  lemma FrameTakes(cfg: Config, c: Chan, text: Bytes, timeDue: bool, newPriv: PrivKey, p: Frame)
    requires Encrypted(cfg, c, text, timeDue, newPriv).1 == Success(p)
    requires StepDue(cfg, c, timeDue) ==> |newPriv.pub.raw| == KEY_SIZE
    ensures p.Parsed? && Writable(p.aad) && WireSize(p) == FrameSize(cfg, StepDue(cfg, c, timeDue), text)
  {
    if cfg.padMessages { Padding.BucketHolds(|text| + Padding.LENGTH_PREFIX_SIZE); }
  }

  lemma ChainHasReached(h: History, got: nat, recv: map<nat, RecvState>, accepted: set<nat>, c: nat)
    requires got < |h.epochs| && ChainsInv(h, got, recv, accepted) && Live(h, got, got)
    requires h.epochs[got].start <= c <= End(h, got)
    requires forall a: nat | h.epochs[got].start <= a < c :: a in accepted
    ensures h.epochs[got].start in recv && c - h.epochs[got].start <= recv[h.epochs[got].start].next
  {
    if c > h.epochs[got].start {
      var i: nat := c - h.epochs[got].start - 1;
      assert CounterAt(h, got, i) in accepted;
      assert i in Used(h, got, accepted);
    }
  }

  /** With nothing before it outstanding, the counter just sent is one the window calls fresh. */
  lemma NextCounterIsFresh(cfg: Config, h: History, y: Side, c: nat)
    requires y.got < |h.epochs| && AcceptedInv(h, y.got, y.accepted) && c + 1 == |h.log| && c !in y.accepted
    requires Represents(cfg.windowSize, y.ch.window, y.accepted)
    ensures Verdict(cfg.windowSize, y.ch.window.highest, y.accepted, c) == Fresh
  {
    if y.ch.window.highest >= 0 { assert y.ch.window.highest in y.accepted; }
  }

  /** The frame just sent, with nothing before it outstanding, is accepted. */
  lemma NextFrameAccepted(cfg: Config, h: History, y: Side, c: nat)
    requires ReceiverInv(cfg, h, y) && c + 1 == |h.log|
    requires InEpoch(h, h.log[c].epoch, c) && h.log[c].epoch == |h.epochs| - 1 <= y.got + 1
    requires forall a: nat | a < c :: a in y.accepted
    requires c !in y.accepted
    ensures Outcome(cfg, h, y, c) == Success(h.log[c].text)
  {
    NextCounterIsFresh(cfg, h, y, c);
    if y.got == |h.epochs| - 1 {
      ChainHasReached(h, y.got, y.ch.recv, y.accepted, c);
    }
  }

  /** What sending one message does to the sender's books. */
  lemma SaidBooks(cfg: Config, x: Side, y: Side, x': Side, text: Bytes, timeDue: bool, newPriv: PrivKey)
    requires x' == SendSide(cfg, x, text, timeDue, newPriv) && x.sent.epochs != [] && AllAccepted(x, y)
    ensures |x'.sent.log| == |x.sent.log| + 1 && x'.sent.log[|x.sent.log|] == Sent(|x'.sent.epochs| - 1, text)
    ensures InFlight(x', y) == if StepDue(cfg, x.ch, timeDue) then 1 else 0
  {
  }

  lemma SaidMayArrive(cfg: Config, x: Side, y: Side, x': Side, text: Bytes, timeDue: bool, newPriv: PrivKey, p: Frame)
    requires LockInv(cfg, x, y) && AllAccepted(x, y) && NewToSender(cfg, x, timeDue, newPriv)
    requires x' == SendSide(cfg, x, text, timeDue, newPriv)
    requires Encrypted(cfg, x.ch, text, timeDue, newPriv).1 == Success(p)
    ensures Carries(cfg, x'.sent, |x.sent.log|, p) && MayArrive(x'.sent, y, |x.sent.log|)
  {
    SendMakesFrame(cfg, x, text, timeDue, newPriv);
    SaidBooks(cfg, x, y, x', text, timeDue, newPriv);
  }

  lemma NewestIsHeard(cfg: Config, x: Side, y: Side, c: nat, p: Frame)
    requires LockInv(cfg, x, y) && cfg.windowSize <= MAX_SKIP + 1
    requires Carries(cfg, x.sent, c, p) && MayArrive(x.sent, y, c) && c + 1 == |x.sent.log|
    requires x.sent.log[c].epoch == |x.sent.epochs| - 1 <= y.got + 1
    requires c !in y.accepted && forall a: nat | a < c :: a in y.accepted
    ensures Decrypted(cfg, y.ch, p).1 == Success(x.sent.log[c].text)
    ensures LockInv(cfg, x, ReceiveSide(cfg, y, p))
    ensures ReceiveSide(cfg, y, p).accepted == y.accepted + {c} && ReceiveSide(cfg, y, p).sent == y.sent
  {
    DeliverExactly(cfg, x, y, c, p);
    NextFrameAccepted(cfg, x.sent, y, c);
  }

  /** One message, side by side: it is heard as it was said, and everything is accounted for again. */
  lemma SaidIsHeard(cfg: Config, x: Side, y: Side, x': Side, text: Bytes, timeDue: bool, newPriv: PrivKey, p: Frame)
    requires LockInv(cfg, x, y) && cfg.windowSize <= MAX_SKIP + 1 && AllAccepted(x, y) && AllAccepted(y, x)
    requires NewToSender(cfg, x, timeDue, newPriv)
    requires x' == SendSide(cfg, x, text, timeDue, newPriv)
    requires Encrypted(cfg, x.ch, text, timeDue, newPriv).1 == Success(p)
    ensures Decrypted(cfg, y.ch, p).1 == Success(text)
    ensures LockInv(cfg, x', ReceiveSide(cfg, y, p))
    ensures ReceiveSide(cfg, y, p).accepted == y.accepted + {|x.sent.log|} && ReceiveSide(cfg, y, p).sent == y.sent
  {
    SendKeepsLock(cfg, x, y, text, timeDue, newPriv);
    SaidMayArrive(cfg, x, y, x', text, timeDue, newPriv, p);
    SaidBooks(cfg, x, y, x', text, timeDue, newPriv);
    NotYetAccepted(x.sent, y);
    NewestIsHeard(cfg, x', y, |x.sent.log|, p);
  }

  lemma NotYetAccepted(h: History, y: Side)
    requires y.got < |h.epochs| && AcceptedInv(h, y.got, y.accepted)
    ensures |h.log| !in y.accepted
  {
  }

  lemma SaidKeepsAccounts(cfg: Config, x: Side, y: Side, x': Side, y': Side,
                          text: Bytes, timeDue: bool, newPriv: PrivKey)
    requires x' == SendSide(cfg, x, text, timeDue, newPriv) && x.sent.epochs != []
    requires AllAccepted(x, y) && AllAccepted(y, x)
    requires y'.sent == y.sent && y'.accepted == y.accepted + {|x.sent.log|}
    requires y'.got == if StepDue(cfg, x.ch, timeDue) then y.got + 1 else y.got
    ensures AllAccepted(x', y') && AllAccepted(y', x')
  {
    SaidBooks(cfg, x, y, x', text, timeDue, newPriv);
  }

  lemma AnnouncesWhenDue(cfg: Config, c: Chan, text: Bytes, timeDue: bool, newPriv: PrivKey, p: Frame)
    requires Encrypted(cfg, c, text, timeDue, newPriv).1 == Success(p)
    ensures p.Parsed? && p.aad.announce == if StepDue(cfg, c, timeDue) then Some(newPriv.pub) else None
  {
  }

  lemma AcceptedMovesDebt(cfg: Config, y: Side, p: Frame)
    requires p.Parsed? && Decrypted(cfg, y.ch, p).1.Success?
    ensures ReceiveSide(cfg, y, p).got == if AnnouncesNewKey(y.ch, p) then y.got + 1 else y.got
    ensures AnnouncesNewKey(y.ch, p) || y.ch.owed ==> ReceiveSide(cfg, y, p).ch.owed
  {
    DecryptKeepsSending(cfg, y.ch, p);
    if AnnouncesNewKey(y.ch, p) {
      assert Decrypted(cfg, y.ch, p) == DecryptAnnounced(cfg, y.ch, p);
    }
  }

  /** The announcement that rides on a message: it is there exactly when a step was due, and the peer then
      owes a step of his own; otherwise what he owed he still owes. */
  lemma SaidMovesDebt(cfg: Config, x: Side, y: Side, text: Bytes, timeDue: bool, newPriv: PrivKey, p: Frame)
    requires ReceiverInv(cfg, x.sent, y) && InFlight(x, y) == 0 && NewToSender(cfg, x, timeDue, newPriv)
    requires Encrypted(cfg, x.ch, text, timeDue, newPriv).1 == Success(p) && Decrypted(cfg, y.ch, p).1.Success?
    ensures p.Parsed? && p.aad.announce == if StepDue(cfg, x.ch, timeDue) then Some(newPriv.pub) else None
    ensures AnnouncesNewKey(y.ch, p) <==> StepDue(cfg, x.ch, timeDue)
    ensures ReceiveSide(cfg, y, p).got == if StepDue(cfg, x.ch, timeDue) then y.got + 1 else y.got
    ensures StepDue(cfg, x.ch, timeDue) || y.ch.owed ==> ReceiveSide(cfg, y, p).ch.owed
  {
    assert y.ch.peerPub == x.sent.epochs[y.got].priv.pub;
    AnnouncesWhenDue(cfg, x.ch, text, timeDue, newPriv, p);
    AcceptedMovesDebt(cfg, y, p);
  }

  lemma NewKeyIsNew(cfg: Config, sys: Sys, t: Talk)
    requires KeysUsed(sys) && FreshKeys(cfg, sys, SendEvent(t))
    ensures NewToSender(cfg, Mine(sys, t.who), t.timeDue, t.newPriv)
  {
  }

  lemma SidesAfterExchange(cfg: Config, sys: Sys, t: Talk, p: Frame)
    requires FrameOf(cfg, sys, t) == Success(p) && WireSize(p) <= Transport.MAX_FRAME_SIZE
    ensures Mine(Exchanged(cfg, sys, t), t.who) == SendSide(cfg, Mine(sys, t.who), t.text, t.timeDue, t.newPriv)
    ensures Peer(Exchanged(cfg, sys, t), t.who) == ReceiveSide(cfg, Peer(sys, t.who), p)
    ensures Exchanged(cfg, sys, t) == Step(cfg, Step(cfg, sys, SendEvent(t)), Receive(Other(t.who), p))
  {
  }

  /** One message, both sides' books. */
  lemma HeardBySides(cfg: Config, x: Side, y: Side, x': Side, y': Side,
                     text: Bytes, timeDue: bool, newPriv: PrivKey, p: Frame)
    requires LockInv(cfg, x, y) && cfg.windowSize <= MAX_SKIP + 1 && AllAccepted(x, y) && AllAccepted(y, x)
    requires NewToSender(cfg, x, timeDue, newPriv) && Encrypted(cfg, x.ch, text, timeDue, newPriv).1 == Success(p)
    requires x' == SendSide(cfg, x, text, timeDue, newPriv) && y' == ReceiveSide(cfg, y, p)
    ensures Decrypted(cfg, y.ch, p).1 == Success(text)
    ensures LockInv(cfg, x', y') && AllAccepted(x', y') && AllAccepted(y', x')
    ensures Carries(cfg, x'.sent, |x.sent.log|, p) && MayArrive(x'.sent, y, |x.sent.log|)
  {
    SaidIsHeard(cfg, x, y, x', text, timeDue, newPriv, p);
    SaidMovesDebt(cfg, x, y, text, timeDue, newPriv, p);
    SaidKeepsAccounts(cfg, x, y, x', y', text, timeDue, newPriv);
    SaidMayArrive(cfg, x, y, x', text, timeDue, newPriv, p);
  }

  lemma TalkIsOrderly(cfg: Config, sys: Sys, t: Talk, p: Frame, c: nat)
    requires FreshKeys(cfg, sys, SendEvent(t)) && InFlight(Peer(sys, t.who), Mine(sys, t.who)) == 0
    requires Carries(cfg, SendSide(cfg, Mine(sys, t.who), t.text, t.timeDue, t.newPriv).sent, c, p)
    requires MayArrive(SendSide(cfg, Mine(sys, t.who), t.text, t.timeDue, t.newPriv).sent, Peer(sys, t.who), c)
    ensures Orderly(cfg, sys, SendEvent(t)) && Orderly(cfg, Step(cfg, sys, SendEvent(t)), Receive(Other(t.who), p))
  {
    var sent := Step(cfg, sys, SendEvent(t));
    assert Peer(sent, Other(t.who)) == SendSide(cfg, Mine(sys, t.who), t.text, t.timeDue, t.newPriv);
    assert Mine(sent, Other(t.who)) == Peer(sys, t.who);
  }

  lemma InTouchFromSides(cfg: Config, sys: Sys, who: Party)
    requires LockInv(cfg, Mine(sys, who), Peer(sys, who)) && KeysUsed(sys)
    requires AllAccepted(Mine(sys, who), Peer(sys, who)) && AllAccepted(Peer(sys, who), Mine(sys, who))
    ensures InTouch(cfg, sys)
  {
    LockFromEitherSide(cfg, sys, who);
  }

  lemma ExchangeKeepsKeys(cfg: Config, sys: Sys, t: Talk, p: Frame)
    requires KeysUsed(sys) && FrameOf(cfg, sys, t) == Success(p) && WireSize(p) <= Transport.MAX_FRAME_SIZE
    ensures KeysUsed(Exchanged(cfg, sys, t))
  {
    StepKeepsKeys(cfg, sys, SendEvent(t));
    StepKeepsKeys(cfg, Step(cfg, sys, SendEvent(t)), Receive(Other(t.who), p));
  }

  /** Main result, one message: said in touch with a fresh key at hand, it is heard exactly, the two events
      obey the hypotheses of lockstep, and the parties are in touch again. */
  lemma MessageIsHeard(cfg: Config, sys: Sys, t: Talk, p: Frame)
    requires InTouch(cfg, sys) && Sayable(cfg, sys, t) && cfg.windowSize <= MAX_SKIP + 1
    requires FrameOf(cfg, sys, t) == Success(p)
    ensures p.Parsed? && Writable(p.aad) && WireSize(p) <= Transport.MAX_FRAME_SIZE
    ensures Decrypted(cfg, Peer(sys, t.who).ch, p).1 == Success(t.text)
    ensures Orderly(cfg, sys, SendEvent(t)) && Orderly(cfg, Step(cfg, sys, SendEvent(t)), Receive(Other(t.who), p))
    ensures InTouch(cfg, Exchanged(cfg, sys, t))
  {
    var x, y := Mine(sys, t.who), Peer(sys, t.who);
    LockFromEitherSide(cfg, sys, Alice);
    NewKeyIsNew(cfg, sys, t);
    HeardBySides(cfg, x, y, SendSide(cfg, x, t.text, t.timeDue, t.newPriv), ReceiveSide(cfg, y, p),
                 t.text, t.timeDue, t.newPriv, p);
    TalkIsOrderly(cfg, sys, t, p, |x.sent.log|);
    FrameTakes(cfg, x.ch, t.text, t.timeDue, t.newPriv, p);
    ExchangeKeepsKeys(cfg, sys, t, p);
    SidesAfterExchange(cfg, sys, t, p);
    InTouchFromSides(cfg, Exchanged(cfg, sys, t), t.who);
  }

  // ----- conversations

  predicate SayableAll(cfg: Config, sys: Sys, ts: seq<Talk>) {
    forall i | 0 <= i < |ts| :: Sayable(cfg, After(cfg, sys, ts[..i]), ts[i])
  }

  lemma SayableHasFrame(cfg: Config, sys: Sys, t: Talk)
    requires InTouch(cfg, sys) && Sayable(cfg, sys, t)
    ensures FrameOf(cfg, sys, t).Success?
  {
    LockFromEitherSide(cfg, sys, Alice);
    NewKeyIsNew(cfg, sys, t);
    SendMakesFrame(cfg, Mine(sys, t.who), t.text, t.timeDue, t.newPriv);
  }

  lemma {:induction false} ConversationKeepsTouch(cfg: Config, sys: Sys, ts: seq<Talk>)
    requires InTouch(cfg, sys) && SayableAll(cfg, sys, ts) && cfg.windowSize <= MAX_SKIP + 1
    ensures InTouch(cfg, After(cfg, sys, ts))
  {
    if ts != [] {
      var before, t := ts[..|ts| - 1], ts[|ts| - 1];
      var now := After(cfg, sys, before);
      SayablePrefix(cfg, sys, ts, |ts| - 1);
      ConversationKeepsTouch(cfg, sys, before);
      SayableHasFrame(cfg, now, t);
      MessageIsHeard(cfg, now, t, FrameOf(cfg, now, t).value);
    }
  }

  lemma SayablePrefix(cfg: Config, sys: Sys, ts: seq<Talk>, n: nat)
    requires SayableAll(cfg, sys, ts) && n <= |ts|
    ensures SayableAll(cfg, sys, ts[..n])
    ensures n < |ts| ==> Sayable(cfg, After(cfg, sys, ts[..n]), ts[n])
  {
    forall i | 0 <= i < n ensures Sayable(cfg, After(cfg, sys, ts[..n][..i]), ts[..n][i]) {
      assert ts[..n][..i] == ts[..i];
    }
  }

  /** Main result: in a conversation of any length, whoever speaks when, each message is heard as it was said. */
  lemma ConversationIsHeard(cfg: Config, sys: Sys, ts: seq<Talk>, i: nat, before: Sys)
    requires InTouch(cfg, sys) && SayableAll(cfg, sys, ts) && cfg.windowSize <= MAX_SKIP + 1
    requires i < |ts| && before == After(cfg, sys, ts[..i])
    ensures FrameOf(cfg, before, ts[i]).Success?
    ensures Decrypted(cfg, Peer(before, ts[i].who).ch, FrameOf(cfg, before, ts[i]).value).1 == Success(ts[i].text)
  {
    SayablePrefix(cfg, sys, ts, i);
    ConversationKeepsTouch(cfg, sys, ts[..i]);
    SayableHasFrame(cfg, before, ts[i]);
    MessageIsHeard(cfg, before, ts[i], FrameOf(cfg, before, ts[i]).value);
  }

  lemma HandshakePutsInTouch(cfg: Config, a: Chan, b: Chan, used: set<PubKey>)
    requires Complementary(a, b) && {a.myPriv.pub, b.myPriv.pub} <= used
    ensures InTouch(cfg, Sys(Start(a), Start(b), used))
  {
    StartsInLockstep(cfg, a, b);
  }

  // ----- healing cadence

  predicate Announces(cfg: Config, sys: Sys, t: Talk) {
    StepDue(cfg, Mine(sys, t.who).ch, t.timeDue)
  }

  /** The speaker's partner owes a ratchet step. */
  predicate PartnerOwes(sys: Sys, speaker: Party) {
    Peer(sys, speaker).ch.owed
  }

  lemma TalkMovesDebt(cfg: Config, sys: Sys, t: Talk)
    requires InTouch(cfg, sys) && Sayable(cfg, sys, t) && cfg.windowSize <= MAX_SKIP + 1
    ensures Announces(cfg, sys, t) || PartnerOwes(sys, t.who) ==> PartnerOwes(Exchanged(cfg, sys, t), t.who)
  {
    SayableHasFrame(cfg, sys, t);
    var p := FrameOf(cfg, sys, t).value;
    MessageIsHeard(cfg, sys, t, p);
    LockFromEitherSide(cfg, sys, Alice);
    NewKeyIsNew(cfg, sys, t);
    SaidMovesDebt(cfg, Mine(sys, t.who), Peer(sys, t.who), t.text, t.timeDue, t.newPriv, p);
    SidesAfterExchange(cfg, sys, t, p);
  }

  /** Between two speakers, what one's partner owes the other owes himself. */
  lemma DebtAcrossTurns(cfg: Config, now: Sys, said: Party, t: Talk)
    requires PartnerOwes(now, said)
    ensures t.who == said ==> PartnerOwes(now, t.who)
    ensures t.who != said ==> Announces(cfg, now, t)
  {
  }

  lemma DebtStep(cfg: Config, now: Sys, said: Party, t: Talk)
    requires PartnerOwes(now, said)
    requires InTouch(cfg, now) && Sayable(cfg, now, t) && cfg.windowSize <= MAX_SKIP + 1
    ensures PartnerOwes(Exchanged(cfg, now, t), t.who)
  {
    DebtAcrossTurns(cfg, now, said, t);
    TalkMovesDebt(cfg, now, t);
  }

  lemma LastTalk(cfg: Config, sys: Sys, ts: seq<Talk>, now: Sys)
    requires InTouch(cfg, sys) && SayableAll(cfg, sys, ts) && cfg.windowSize <= MAX_SKIP + 1
    requires ts != [] && now == After(cfg, sys, ts[..|ts| - 1])
    ensures InTouch(cfg, now) && Sayable(cfg, now, ts[|ts| - 1])
    ensures After(cfg, sys, ts) == Exchanged(cfg, now, ts[|ts| - 1])
    ensures SayableAll(cfg, sys, ts[..|ts| - 1])
  {
    SayablePrefix(cfg, sys, ts, |ts| - 1);
    ConversationKeepsTouch(cfg, sys, ts[..|ts| - 1]);
  }

  lemma ShorterPrefix(ts: seq<Talk>, n: nat)
    requires n < |ts|
    ensures ts[..|ts| - 1][..n] == ts[..n]
  {
  }

  /** From the first announcement on, after every message the partner of its speaker owes a step. */
  lemma {:induction false} DebtPersists(cfg: Config, sys: Sys, ts: seq<Talk>, first: nat, now: Sys, end: Sys)
    requires InTouch(cfg, sys) && SayableAll(cfg, sys, ts) && cfg.windowSize <= MAX_SKIP + 1
    requires first < |ts| && Announces(cfg, After(cfg, sys, ts[..first]), ts[first])
    requires now == After(cfg, sys, ts[..|ts| - 1]) && end == After(cfg, sys, ts)
    ensures PartnerOwes(end, ts[|ts| - 1].who)
    decreases |ts|
  {
    var before := ts[..|ts| - 1];
    LastTalk(cfg, sys, ts, now);
    if first + 1 == |ts| {
      TalkMovesDebt(cfg, now, ts[first]);
    } else {
      ShorterPrefix(ts, first);
      DebtPersists(cfg, sys, before, first, After(cfg, sys, before[..|before| - 1]), now);
      DebtStep(cfg, now, before[|before| - 1].who, ts[|ts| - 1]);
    }
  }

  lemma TurnAnnounces(cfg: Config, now: Sys, said: Party, t: Talk, p: Frame)
    requires PartnerOwes(now, said) && t.who != said
    requires Sayable(cfg, now, t) && FrameOf(cfg, now, t) == Success(p)
    ensures p.Parsed? && p.aad.announce == Some(t.newPriv.pub) && t.newPriv.pub !in now.used
  {
    DebtAcrossTurns(cfg, now, said, t);
    AnnouncesWhenDue(cfg, Mine(now, t.who).ch, t.text, t.timeDue, t.newPriv, p);
  }

  /** Main result on cadence: once any message announced a ratchet key, the first message of every later
      turn announces a fresh one, whatever the count and time triggers do. */
  lemma EveryTurnHeals(cfg: Config, sys: Sys, ts: seq<Talk>, first: nat, t: Talk, now: Sys, p: Frame)
    requires InTouch(cfg, sys) && SayableAll(cfg, sys, ts) && cfg.windowSize <= MAX_SKIP + 1
    requires first < |ts| && Announces(cfg, After(cfg, sys, ts[..first]), ts[first])
    requires now == After(cfg, sys, ts) && t.who != ts[|ts| - 1].who
    requires Sayable(cfg, now, t) && FrameOf(cfg, now, t) == Success(p)
    ensures p.Parsed? && p.aad.announce == Some(t.newPriv.pub) && t.newPriv.pub !in now.used
  {
    DebtPersists(cfg, sys, ts, first, After(cfg, sys, ts[..|ts| - 1]), now);
    TurnAnnounces(cfg, now, ts[|ts| - 1].who, t, p);
  }

  lemma SpeakerOwesNothing(cfg: Config, s: Side, text: Bytes, timeDue: bool, newPriv: PrivKey)
    ensures !SendSide(cfg, s, text, timeDue, newPriv).ch.owed
  {
  }

  /** How long the current epoch is, by the history; the channel's own count agrees. */
  lemma CurrentEpochLength(h: History, c: Chan)
    requires h.epochs != [] && AtEnd(h, c)
    ensures EpochLength(h, |h.epochs| - 1) == c.sinceRekey
  {
  }

  lemma SpeakerAfter(cfg: Config, sys: Sys, said: Talk, x: Side)
    requires InTouch(cfg, sys) && Sayable(cfg, sys, said) && cfg.windowSize <= MAX_SKIP + 1
    requires x == Mine(Exchanged(cfg, sys, said), said.who)
    ensures SenderInv(cfg, x) && !x.ch.owed
  {
    SayableHasFrame(cfg, sys, said);
    var p := FrameOf(cfg, sys, said).value;
    MessageIsHeard(cfg, sys, said, p);
    SidesAfterExchange(cfg, sys, said, p);
    SpeakerOwesNothing(cfg, Mine(sys, said.who), said.text, said.timeDue, said.newPriv);
    assert LockInv(cfg, Exchanged(cfg, sys, said).a, Exchanged(cfg, sys, said).b);
  }

  /** Who has just spoken owes nothing, so a further message of the same turn announces a key exactly when
      the count or the time trigger says so. */
  lemma SameTurnFollowsSchedule(cfg: Config, sys: Sys, said: Talk, t: Talk, now: Sys, x: Side, p: Frame)
    requires InTouch(cfg, sys) && Sayable(cfg, sys, said) && cfg.windowSize <= MAX_SKIP + 1
    requires now == Exchanged(cfg, sys, said) && t.who == said.who && FrameOf(cfg, now, t) == Success(p)
    requires x == Mine(now, t.who)
    ensures p.Parsed? && x.sent.epochs != []
    ensures p.aad.announce ==
            if t.timeDue || EpochLength(x.sent, |x.sent.epochs| - 1) >= cfg.rekeyInterval
            then Some(t.newPriv.pub) else None
  {
    SpeakerAfter(cfg, sys, said, x);
    CurrentEpochLength(x.sent, x.ch);
    AnnouncesWhenDue(cfg, x.ch, t.text, t.timeDue, t.newPriv, p);
  }
}
