/** Two parties whose ratchet steps never cross stay in lockstep: over any such run, with frames lost,
    repeated and reordered, every frame has exactly one outcome, and it is the right one. */
module Lockstep {
  import opened ByteCodec
  import opened Wrappers
  import opened SymbolicCrypto
  import opened Ratchet
  import opened ReplayWindow
  import opened Channel
  import opened TwoParty
  import Padding
  import SortedMaps

  // ----- what the receiver holds of the sender's history

  /** The oldest peer epoch whose chain survives pruning after `got` announcements. */
  function Oldest(got: nat): nat {
    if got + 1 <= MAX_RETAINED_CHAINS then 0 else got + 1 - MAX_RETAINED_CHAINS
  }

  function Retained(h: History, got: nat): set<nat>
    requires got < |h.epochs|
  {
    set j | Oldest(got) <= j <= got :: h.epochs[j].start
  }

  /** Epoch `j`'s chain is in the receiver's table, not overwritten by a later epoch with the same start. */
  predicate Live(h: History, got: nat, j: nat)
    requires got < |h.epochs|
  {
    Oldest(got) <= j <= got && (j < got ==> h.epochs[j].start < h.epochs[j + 1].start)
  }

  /** The places in epoch `j` whose frames have been accepted. */
  function Used(h: History, j: nat, accepted: set<nat>): set<nat>
    requires j < |h.epochs|
  {
    set i: nat | i < EpochLength(h, j) && CounterAt(h, j, i) in accepted
  }

  function CounterAt(h: History, j: nat, i: nat): nat
    requires j < |h.epochs|
  {
    h.epochs[j].start + i
  }

  ghost predicate ChainsInv(h: History, got: nat, recv: map<nat, RecvState>, accepted: set<nat>)
    requires got < |h.epochs|
  {
    forall j: nat {:trigger Live(h, got, j)} | Live(h, got, j) ::
      && h.epochs[j].start in recv
      && ChainInv(recv[h.epochs[j].start], h.epochs[j].seed, Used(h, j, accepted))
  }

  /** Accepted frames were sent, in an epoch whose announcement was adopted; adopted announcements were accepted. */
  predicate AcceptedInv(h: History, got: nat, accepted: set<nat>)
    requires got < |h.epochs|
  {
    && (forall c | c in accepted :: c < |h.log| && h.log[c].epoch <= got)
    && (forall j: nat | 1 <= j <= got :: CounterAt(h, j, 0) in accepted)
  }

  ghost predicate ReceiverInv(cfg: Config, h: History, y: Side) {
    && y.got < |h.epochs|
    && y.ch.peerPub == h.epochs[y.got].priv.pub
    && AcceptedInv(h, y.got, y.accepted)
    && Represents(cfg.windowSize, y.ch.window, y.accepted)
    && y.ch.recv.Keys == Retained(h, y.got)
    && ChainsInv(h, y.got, y.ch.recv, y.accepted)
  }

  // ----- the root keys

  /** How many of `x`'s announcements `y` has not adopted yet. */
  function InFlight(x: Side, y: Side): int {
    |x.sent.epochs| - 1 - y.got
  }

  /** The root key that `x`'s step into epoch `i` started from, as `y` will reach it. */
  function RootBefore(x: Side, y: Side, i: nat): Key
    requires y.got < i < |x.sent.epochs|
  {
    if i == y.got + 1 then y.ch.root else x.sent.epochs[i - 1].root
  }

  /** Each of `x`'s steps still in flight continues from `y`'s root key, using `y`'s current ratchet key. */
  predicate Linked(x: Side, y: Side) {
    forall i: nat | y.got < i < |x.sent.epochs| :: LinkedAt(x, y, i)
  }

  predicate LinkedAt(x: Side, y: Side, i: nat)
    requires y.got < i < |x.sent.epochs|
  {
    var d := Exchange(y.ch.myPriv, x.sent.epochs[i].priv.pub);
    && x.sent.epochs[i].root == RootOf(RootBefore(x, y, i), d)
    && x.sent.epochs[i].seed == ChainOf(RootBefore(x, y, i), d)
  }

  predicate Ahead(x: Side, y: Side) {
    && Linked(x, y)
    && (InFlight(x, y) > 0 ==> x.sent.epochs != [] && x.ch.root == Last(x.sent).root)
  }

  predicate RootsInv(x: Side, y: Side) {
    && (InFlight(x, y) == 0 || InFlight(y, x) == 0)
    && Ahead(x, y) && Ahead(y, x)
    && (InFlight(x, y) == 0 && InFlight(y, x) == 0 ==> x.ch.root == y.ch.root)
  }

  ghost predicate LockInv(cfg: Config, x: Side, y: Side) {
    && SenderInv(cfg, x) && SenderInv(cfg, y)
    && ReceiverInv(cfg, x.sent, y) && ReceiverInv(cfg, y.sent, x)
    && RootsInv(x, y)
  }

  lemma LockInvSymmetric(cfg: Config, x: Side, y: Side)
    requires LockInv(cfg, x, y)
    ensures LockInv(cfg, y, x)
  {
  }

  // ----- sending

  lemma UsedStable(h: History, step: Option<Epoch>, text: Bytes, j: nat, accepted: set<nat>)
    requires j < |h.epochs| && forall c | c in accepted :: c < |h.log|
    requires step.Some? ==> step.value.start == |h.log|
    ensures Used(Extend(h, step, text), j, accepted) == Used(h, j, accepted)
  {
    var h' := Extend(h, step, text);
    assert End(h', j) == End(h, j) || (End(h, j) == |h.log| && End(h', j) == |h.log| + 1);
    forall i: nat ensures i in Used(h', j, accepted) <==> i in Used(h, j, accepted) {
      assert CounterAt(h', j, i) == CounterAt(h, j, i);
    }
  }

  lemma ExtendKeepsChains(h: History, step: Option<Epoch>, text: Bytes, got: nat, recv: map<nat, RecvState>,
                          accepted: set<nat>)
    requires got < |h.epochs| && ChainsInv(h, got, recv, accepted) && forall c | c in accepted :: c < |h.log|
    requires step.Some? ==> step.value.start == |h.log|
    ensures ChainsInv(Extend(h, step, text), got, recv, accepted)
  {
    var h' := Extend(h, step, text);
    forall j: nat | Live(h', got, j)
      ensures h'.epochs[j].start in recv
              && ChainInv(recv[h'.epochs[j].start], h'.epochs[j].seed, Used(h', j, accepted))
    {
      assert Live(h, got, j) && h'.epochs[j] == h.epochs[j];
      UsedStable(h, step, text, j, accepted);
    }
  }

  lemma ExtendKeepsReceiver(cfg: Config, h: History, step: Option<Epoch>, text: Bytes, y: Side)
    requires ReceiverInv(cfg, h, y)
    requires step.Some? ==> step.value.start == |h.log|
    ensures ReceiverInv(cfg, Extend(h, step, text), y)
  {
    var h' := Extend(h, step, text);
    assert h.epochs <= h'.epochs && h.log <= h'.log;
    assert forall j: nat | j <= y.got :: h'.epochs[j] == h.epochs[j];
    assert Retained(h', y.got) == Retained(h, y.got);
    assert forall j: nat | j <= y.got :: CounterAt(h', j, 0) == CounterAt(h, j, 0);
    ExtendKeepsChains(h, step, text, y.got, y.ch.recv, y.accepted);
  }

  /** A party may take a ratchet step only when it has adopted every announcement the peer has made. */
  predicate MaySend(cfg: Config, x: Side, y: Side, timeDue: bool) {
    StepDue(cfg, x.ch, timeDue) ==> InFlight(y, x) == 0
  }

  lemma StepKeepsRoots(cfg: Config, x: Side, y: Side, text: Bytes, timeDue: bool, newPriv: PrivKey)
    requires RootsInv(x, y) && StepDue(cfg, x.ch, timeDue) && InFlight(y, x) == 0
    requires x.ch.peerPub == y.ch.myPriv.pub && y.got < |x.sent.epochs|
    ensures RootsInv(SendSide(cfg, x, text, timeDue, newPriv), y)
  {
    var x' := SendSide(cfg, x, text, timeDue, newPriv);
    var n := |x.sent.epochs|;
    assert Exchange(newPriv, x.ch.peerPub) == Exchange(y.ch.myPriv, newPriv.pub);
    assert RootBefore(x', y, n) == x.ch.root;
    forall i: nat | y.got < i < |x'.sent.epochs| ensures LinkedAt(x', y, i) {
      if i < n { assert LinkedAt(x, y, i); }
    }
  }

  lemma PlainSendKeepsRoots(cfg: Config, x: Side, y: Side, text: Bytes, timeDue: bool, newPriv: PrivKey)
    requires RootsInv(x, y) && !StepDue(cfg, x.ch, timeDue)
    ensures RootsInv(SendSide(cfg, x, text, timeDue, newPriv), y)
  {
    var x' := SendSide(cfg, x, text, timeDue, newPriv);
    forall i: nat | y.got < i < |x'.sent.epochs| ensures LinkedAt(x', y, i) { assert LinkedAt(x, y, i); }
    forall i: nat | x'.got < i < |y.sent.epochs| ensures LinkedAt(y, x', i) { assert LinkedAt(y, x, i); }
  }

  lemma SendKeepsReceiving(cfg: Config, h: History, x: Side, text: Bytes, timeDue: bool, newPriv: PrivKey)
    requires ReceiverInv(cfg, h, x)
    ensures ReceiverInv(cfg, h, SendSide(cfg, x, text, timeDue, newPriv))
  {
    var x' := SendSide(cfg, x, text, timeDue, newPriv);
    assert x'.ch.recv == x.ch.recv && x'.ch.window == x.ch.window && x'.ch.peerPub == x.ch.peerPub;
  }

  lemma CurrentKey(h: History, got: nat, pub: PubKey, mine: PrivKey)
    requires got + 1 == |h.epochs| && pub == h.epochs[got].priv.pub && mine == Last(h).priv
    ensures pub == mine.pub
  {
  }

  /** With nothing of the peer's in flight, a party holds the peer's current ratchet key. */
  lemma PeerKeyCurrent(cfg: Config, x: Side, y: Side)
    requires LockInv(cfg, x, y) && InFlight(y, x) == 0
    ensures x.ch.peerPub == y.ch.myPriv.pub && y.got < |x.sent.epochs|
  {
    CurrentKey(y.sent, x.got, x.ch.peerPub, y.ch.myPriv);
  }

  lemma SendKeepsRoots(cfg: Config, x: Side, y: Side, text: Bytes, timeDue: bool, newPriv: PrivKey)
    requires RootsInv(x, y) && y.got < |x.sent.epochs|
    requires StepDue(cfg, x.ch, timeDue) ==> InFlight(y, x) == 0 && x.ch.peerPub == y.ch.myPriv.pub
    ensures RootsInv(SendSide(cfg, x, text, timeDue, newPriv), y)
  {
    if StepDue(cfg, x.ch, timeDue) {
      StepKeepsRoots(cfg, x, y, text, timeDue, newPriv);
    } else {
      PlainSendKeepsRoots(cfg, x, y, text, timeDue, newPriv);
    }
  }

  lemma SendKeepsBooks(cfg: Config, x: Side, y: Side, text: Bytes, timeDue: bool, newPriv: PrivKey, x': Side)
    requires SenderInv(cfg, x) && ReceiverInv(cfg, x.sent, y) && ReceiverInv(cfg, y.sent, x)
    requires NewToSender(cfg, x, timeDue, newPriv) && x' == SendSide(cfg, x, text, timeDue, newPriv)
    ensures SenderInv(cfg, x') && ReceiverInv(cfg, x'.sent, y) && ReceiverInv(cfg, y.sent, x')
  {
    SendKeepsSender(cfg, x, text, timeDue, newPriv);
    ExtendKeepsReceiver(cfg, x.sent, NewEpoch(cfg, x.ch, timeDue, newPriv), text, y);
    SendKeepsReceiving(cfg, y.sent, x, text, timeDue, newPriv);
  }

  lemma SendKeepsLock(cfg: Config, x: Side, y: Side, text: Bytes, timeDue: bool, newPriv: PrivKey)
    requires LockInv(cfg, x, y) && MaySend(cfg, x, y, timeDue) && NewToSender(cfg, x, timeDue, newPriv)
    ensures LockInv(cfg, SendSide(cfg, x, text, timeDue, newPriv), y)
  {
    SendKeepsBooks(cfg, x, y, text, timeDue, newPriv, SendSide(cfg, x, text, timeDue, newPriv));
    if StepDue(cfg, x.ch, timeDue) { PeerKeyCurrent(cfg, x, y); }
    SendKeepsRoots(cfg, x, y, text, timeDue, newPriv);
  }

  // ----- delivering a frame of an epoch whose announcement was adopted

  /** A counter's epoch separates the epochs that start at or below it from those that start above it. */
  lemma EpochSeparates(h: History, j: nat, c: nat, i: nat)
    requires Ordered(h.epochs) && InEpoch(h, j, c) && i < |h.epochs|
    ensures i <= j ==> h.epochs[i].start <= h.epochs[j].start <= c
    ensures i > j ==> h.epochs[i].start > c
  {
    if i > j + 1 { assert h.epochs[j + 1].start <= h.epochs[i].start; }
  }

  /** Routing finds the frame's own epoch, or nothing if that epoch was pruned; never another epoch. */
  lemma RoutedToOwnEpoch(h: History, got: nat, j: nat, c: nat)
    requires Ordered(h.epochs) && got < |h.epochs| && j <= got && InEpoch(h, j, c)
    ensures Route(Retained(h, got), c) == if Oldest(got) <= j then Some(h.epochs[j].start) else None
    ensures Oldest(got) <= j ==> Live(h, got, j)
  {
    forall k | k in Retained(h, got) ensures if Oldest(got) <= j then k <= h.epochs[j].start || k > c else k > c {
      var i: nat :| Oldest(got) <= i <= got && h.epochs[i].start == k;
      EpochSeparates(h, j, c, i);
    }
    if Oldest(got) <= j {
      assert h.epochs[j].start in Retained(h, got);
      RouteFinds(Retained(h, got), c, h.epochs[j].start);
    } else {
      RouteFindsNone(Retained(h, got), c);
    }
  }

  /** Every chain in a receiver's table is that of an adopted epoch, and stands on its seed. */
  lemma ChainOfEpoch(h: History, got: nat, recv: map<nat, RecvState>, accepted: set<nat>, k: nat) returns (j: nat)
    requires got < |h.epochs| && Ordered(h.epochs) && ChainsInv(h, got, recv, accepted)
    requires recv.Keys == Retained(h, got) && k in recv
    ensures j <= got && Live(h, got, j) && h.epochs[j].start == k
    ensures ChainInv(recv[k], h.epochs[j].seed, Used(h, j, accepted))
    ensures Origin(recv[k].chainKey) == Origin(h.epochs[j].seed)
  {
    assert k in Retained(h, got);
    j :| Oldest(got) <= j <= got && h.epochs[j].start == k;
    if j < got && h.epochs[j].start == h.epochs[j + 1].start { j := j + 1; }
    assert Live(h, got, j);
    OriginOfChainKey(h.epochs[j].seed, recv[k].next);
  }

  lemma UsedGrows(h: History, j: nat, i: nat, accepted: set<nat>, c: nat)
    requires Ordered(h.epochs) && InEpoch(h, j, c) && i < |h.epochs|
    ensures Used(h, i, accepted + {c}) ==
            if i == j then Used(h, i, accepted) + {c - h.epochs[j].start} else Used(h, i, accepted)
  {
    EpochSeparates(h, j, c, i);
    if i + 1 < |h.epochs| { EpochSeparates(h, j, c, i + 1); }
    forall k: nat
      ensures k in Used(h, i, accepted + {c}) <==>
              k in Used(h, i, accepted) || (i == j && k == c - h.epochs[j].start)
    {
      assert CounterAt(h, i, k) == h.epochs[i].start + k;
    }
  }

  /** A counter the window still calls fresh has not been used and is not far behind its chain. */
  lemma FreshWithinReach(cfg: Config, h: History, got: nat, ch: Chan, accepted: set<nat>, j: nat, c: nat)
    requires got < |h.epochs| && ChainsInv(h, got, ch.recv, accepted) && Represents(cfg.windowSize, ch.window, accepted)
    requires cfg.windowSize <= MAX_SKIP + 1
    requires Live(h, got, j) && InEpoch(h, j, c) && Check(cfg.windowSize, ch.window, c) == Fresh
    ensures var n := c - h.epochs[j].start;
            n !in Used(h, j, accepted) && ch.recv[h.epochs[j].start].next <= n + MAX_SKIP + 1
  {
    var chain := ch.recv[h.epochs[j].start];
    CheckIsVerdict(cfg.windowSize, ch.window, accepted, c);
    assert CounterAt(h, j, c - h.epochs[j].start) == c;
    if chain.next > 0 {
      assert chain.next - 1 in Used(h, j, accepted);
      assert CounterAt(h, j, chain.next - 1) in accepted;
    }
  }

  lemma FreshKeyInChain(cfg: Config, h: History, got: nat, ch: Chan, accepted: set<nat>, j: nat, c: nat,
                        chain: RecvState, n: nat)
    requires got < |h.epochs| && ChainsInv(h, got, ch.recv, accepted) && Represents(cfg.windowSize, ch.window, accepted)
    requires cfg.windowSize <= MAX_SKIP + 1
    requires Live(h, got, j) && InEpoch(h, j, c) && Check(cfg.windowSize, ch.window, c) == Fresh
    requires chain == ch.recv[h.epochs[j].start] && n == c - h.epochs[j].start
    ensures n >= chain.next || n in chain.skipped
    ensures RecvKey(chain, n).1 ==
            if n > chain.next + MAX_SKIP then Failure(TooFarAhead) else Success(MessageKey(h.epochs[j].seed, n))
  {
    FreshWithinReach(cfg, h, got, ch, accepted, j, c);
    KeyWithinReach(chain, h.epochs[j].seed, Used(h, j, accepted), n);
  }

  /** Window and cache agree: a counter the window still calls fresh is ahead of its chain or has its key
      in the cache, so eviction never drops a key that the window would accept. */
  lemma FreshKeyIsAvailable(cfg: Config, h: History, y: Side, j: nat, c: nat, chain: RecvState, n: nat)
    requires ReceiverInv(cfg, h, y) && cfg.windowSize <= MAX_SKIP + 1
    requires Live(h, y.got, j) && InEpoch(h, j, c) && Check(cfg.windowSize, y.ch.window, c) == Fresh
    requires chain == y.ch.recv[h.epochs[j].start] && n == c - h.epochs[j].start
    ensures n >= chain.next || n in chain.skipped
    ensures RecvKey(chain, n).1 ==
            if n > chain.next + MAX_SKIP then Failure(TooFarAhead) else Success(MessageKey(h.epochs[j].seed, n))
  {
    FreshKeyInChain(cfg, h, y.got, y.ch, y.accepted, j, c, chain, n);
  }

  /** A frame opened under the key it was sealed with yields the plaintext it was made from. */
  lemma SentFrameOpens(cfg: Config, h: History, c: nat, p: Frame)
    requires Carries(cfg, h, c, p)
    ensures var e := h.epochs[h.log[c].epoch];
            Unsealed(cfg, MessageKey(e.seed, c - e.start), p) == Success(h.log[c].text)
  {
    Padding.PadRoundTrip(h.log[c].text);
  }

  lemma PlainAcceptKeepsOwnChain(h: History, got: nat, recv: map<nat, RecvState>, accepted: set<nat>, j: nat, c: nat,
                                 chain: RecvState)
    requires Ordered(h.epochs) && got < |h.epochs| && ChainsInv(h, got, recv, accepted)
    requires Live(h, got, j) && InEpoch(h, j, c)
    requires RecvKey(recv[h.epochs[j].start], c - h.epochs[j].start).1.Success?
    requires chain == RecvKey(recv[h.epochs[j].start], c - h.epochs[j].start).0
    ensures ChainInv(chain, h.epochs[j].seed, Used(h, j, accepted + {c}))
  {
    var start := h.epochs[j].start;
    var n: nat := c - start;
    var used' := Used(h, j, accepted + {c});
    assert used' == Used(h, j, accepted) + {n} by { UsedGrows(h, j, j, accepted, c); }
    KeyForKeepsInv(recv[start], h.epochs[j].seed, Used(h, j, accepted), n);
  }

  /** Accepting a plain frame of epoch `j` keeps the receiver's table in step with the sender's history. */
  lemma PlainAcceptKeepsChains(h: History, got: nat, recv: map<nat, RecvState>, accepted: set<nat>, j: nat, c: nat,
                               chain: RecvState)
    requires Ordered(h.epochs) && got < |h.epochs| && ChainsInv(h, got, recv, accepted)
    requires Live(h, got, j) && InEpoch(h, j, c)
    requires ChainInv(chain, h.epochs[j].seed, Used(h, j, accepted + {c}))
    ensures ChainsInv(h, got, recv[h.epochs[j].start := chain], accepted + {c})
  {
    var recv' := recv[h.epochs[j].start := chain];
    forall i: nat | Live(h, got, i)
      ensures h.epochs[i].start in recv'
              && ChainInv(recv'[h.epochs[i].start], h.epochs[i].seed, Used(h, i, accepted + {c}))
    {
      if i != j {
        UsedGrows(h, j, i, accepted, c);
        LiveStartsDiffer(h, got, i, j);
      }
    }
  }

  lemma LiveStartsDiffer(h: History, got: nat, i: nat, j: nat)
    requires Ordered(h.epochs) && got < |h.epochs| && Live(h, got, i) && Live(h, got, j) && i != j
    ensures h.epochs[i].start != h.epochs[j].start
  {
    var lo, hi := if i < j then i else j, if i < j then j else i;
    assert h.epochs[lo].start < h.epochs[lo + 1].start;
    if lo + 1 < hi { assert h.epochs[lo + 1].start <= h.epochs[hi].start; }
  }

  /** A fresh frame of an adopted epoch announces nothing new: its epoch's announcement was accepted before. */
  lemma AdoptedIsPlain(cfg: Config, h: History, y: Side, c: nat, p: Frame)
    requires ReceiverInv(cfg, h, y) && Carries(cfg, h, c, p) && h.log[c].epoch <= y.got
    requires Check(cfg.windowSize, y.ch.window, c) == Fresh
    ensures !AnnouncesNewKey(y.ch, p)
    ensures Decrypted(cfg, y.ch, p) == DecryptPlain(cfg, y.ch, p)
  {
    CheckIsVerdict(cfg.windowSize, y.ch.window, y.accepted, c);
    assert CounterAt(h, h.log[c].epoch, 0) == h.epochs[h.log[c].epoch].start;
  }

  lemma PrunedOutcome(cfg: Config, h: History, y: Side, c: nat, p: Frame)
    requires ReceiverInv(cfg, h, y) && Ordered(h.epochs) && Carries(cfg, h, c, p) && h.log[c].epoch < Oldest(y.got)
    requires Check(cfg.windowSize, y.ch.window, c) == Fresh
    ensures Decrypted(cfg, y.ch, p) == (y.ch, Failure(NoChain))
  {
    AdoptedIsPlain(cfg, h, y, c, p);
    RoutedToOwnEpoch(h, y.got, h.log[c].epoch, c);
  }

  /** A fresh frame of a retained epoch is tried under its own epoch's chain. */
  lemma RoutedOutcome(cfg: Config, h: History, y: Side, c: nat, p: Frame, start: nat)
    requires ReceiverInv(cfg, h, y) && Ordered(h.epochs) && Carries(cfg, h, c, p)
    requires Oldest(y.got) <= h.log[c].epoch <= y.got && start == h.epochs[h.log[c].epoch].start
    requires Check(cfg.windowSize, y.ch.window, c) == Fresh
    ensures Decrypted(cfg, y.ch, p) == DecryptPlain(cfg, y.ch, p)
    ensures Route(y.ch.recv.Keys, c) == Some(start)
  {
    AdoptedIsPlain(cfg, h, y, c, p);
    RoutedToOwnEpoch(h, y.got, h.log[c].epoch, c);
  }

  lemma OpenedOutcome(cfg: Config, h: History, y: Chan, c: nat, p: Frame, key: Key)
    requires Carries(cfg, h, c, p)
    requires key == MessageKey(h.epochs[h.log[c].epoch].seed, c - h.epochs[h.log[c].epoch].start)
    ensures FinishPlain(cfg, y, Success(key), p) ==
            (y.(window := Mark(cfg.windowSize, y.window, c)), Success(h.log[c].text))
  {
    SentFrameOpens(cfg, h, c, p);
  }

  lemma PlainAcceptKeepsTable(cfg: Config, h: History, got: nat, ch: Chan, accepted: set<nat>, j: nat, c: nat,
                              chain: RecvState, recv': map<nat, RecvState>)
    requires Ordered(h.epochs) && got < |h.epochs| && ChainsInv(h, got, ch.recv, accepted)
    requires Represents(cfg.windowSize, ch.window, accepted)
    requires Live(h, got, j) && InEpoch(h, j, c) && ChainInv(chain, h.epochs[j].seed, Used(h, j, accepted + {c}))
    requires recv' == ch.recv[h.epochs[j].start := chain]
    ensures ChainsInv(h, got, recv', accepted + {c}) && recv'.Keys == ch.recv.Keys
    ensures Represents(cfg.windowSize, Mark(cfg.windowSize, ch.window, c), accepted + {c})
  {
    MarkRepresents(cfg.windowSize, ch.window, accepted, c);
    PlainAcceptKeepsChains(h, got, ch.recv, accepted, j, c, chain);
    assert h.epochs[j].start in ch.recv;
  }

  lemma PlainAcceptKeepsReceiver(cfg: Config, h: History, y: Side, y': Side, j: nat, c: nat, chain: RecvState)
    requires ReceiverInv(cfg, h, y) && Ordered(h.epochs) && Live(h, y.got, j) && InEpoch(h, j, c)
    requires c < |h.log| && h.log[c].epoch == j
    requires ChainInv(chain, h.epochs[j].seed, Used(h, j, y.accepted + {c}))
    requires y'.got == y.got && y'.accepted == y.accepted + {c}
    requires y'.ch.recv == y.ch.recv[h.epochs[j].start := chain] && y'.ch.peerPub == y.ch.peerPub
    requires y'.ch.window == Mark(cfg.windowSize, y.ch.window, c)
    ensures ReceiverInv(cfg, h, y')
  {
    PlainAcceptKeepsTable(cfg, h, y.got, y.ch, y.accepted, j, c, chain, y'.ch.recv);
  }

  // ----- delivering an announcement

  lemma AcceptedBefore(h: History, got: nat, accepted: set<nat>, j: nat, c: nat)
    requires Ordered(h.epochs) && LoggedInEpoch(h) && got < j < |h.epochs| && c == h.epochs[j].start
    requires AcceptedInv(h, got, accepted)
    ensures forall a | a in accepted :: a < c
  {
    forall a | a in accepted ensures a < c {
      EpochSeparates(h, h.log[a].epoch, a, j);
    }
  }

  lemma AnnouncementIsFresh(cfg: Config, h: History, y: Side, j: nat, c: nat)
    requires ReceiverInv(cfg, h, y) && Ordered(h.epochs) && LoggedInEpoch(h)
    requires y.got < j < |h.epochs| && c == h.epochs[j].start
    ensures c > y.ch.window.highest && Check(cfg.windowSize, y.ch.window, c) == Fresh
    ensures forall a | a in y.accepted :: a < c
  {
    AcceptedBefore(h, y.got, y.accepted, j, c);
  }

  lemma AnnouncedOutcome(cfg: Config, y: Chan, p: Frame, seed: Key)
    requires AnnouncesNewKey(y, p) && Check(cfg.windowSize, y.window, p.aad.counter) == Fresh
    requires seed == ChainOf(y.root, Exchange(y.myPriv, p.aad.announce.value))
    ensures Decrypted(cfg, y, p).1 == Unsealed(cfg, MessageKey(seed, 0), p)
    ensures Decrypted(cfg, y, p).1.Failure? ==> Decrypted(cfg, y, p).0 == y
    ensures Decrypted(cfg, y, p).1.Success? ==>
              Decrypted(cfg, y, p).0 ==
              Adopt(cfg, y, RootOf(y.root, Exchange(y.myPriv, p.aad.announce.value)),
                    RecvState(NextOf(seed), 1, map[]), p.aad.announce.value, p.aad.counter)
  {
    FirstKey(seed);
  }

  /** Adding one start above all others keeps the last MAX_RETAINED_CHAINS epochs. */
  lemma RetainedGrows<V>(h: History, got: nat, m: map<nat, V>, v: V)
    requires Ordered(h.epochs) && got + 1 < |h.epochs| && m.Keys == Retained(h, got)
    ensures SortedMaps.KeepHighest(m[h.epochs[got + 1].start := v], MAX_RETAINED_CHAINS).Keys == Retained(h, got + 1)
  {
    var m' := m[h.epochs[got + 1].start := v];
    var keys := m'.Keys;
    forall k: nat ensures k in SortedMaps.KeepHighest(m', MAX_RETAINED_CHAINS) <==> k in Retained(h, got + 1) {
      if k in keys {
        var i: nat :| Oldest(got) <= i <= got + 1 && h.epochs[i].start == k;
        if Oldest(got + 1) <= i {
          FewAbove(h, got, i, SortedMaps.Above(keys, k));
        } else if h.epochs[i].start == h.epochs[i + 1].start {
          FewAbove(h, got, i + 1, SortedMaps.Above(keys, k));
        } else {
          ThreeAbove(h, i, SortedMaps.Above(keys, k), keys);
        }
      }
    }
  }

  lemma FewAbove(h: History, got: nat, i: nat, above: set<nat>)
    requires Ordered(h.epochs) && got + 1 < |h.epochs| && Oldest(got + 1) <= i <= got + 1
    requires forall k | k in above ::
               k > h.epochs[i].start && exists j | Oldest(got) <= j <= got + 1 :: h.epochs[j].start == k
    ensures |above| < MAX_RETAINED_CHAINS
  {
    var top := set j | i < j <= got + 1 :: h.epochs[j].start;
    assert above <= top;
    SortedMaps.SubsetSize(above, top);
    assert top <= {h.epochs[got + 1].start, h.epochs[got].start};
    SortedMaps.SubsetSize(top, {h.epochs[got + 1].start, h.epochs[got].start});
  }

  lemma ThreeAbove(h: History, i: nat, above: set<nat>, keys: set<nat>)
    requires Ordered(h.epochs) && i + 3 < |h.epochs|
    requires h.epochs[i + 1].start in keys && h.epochs[i + 2].start in keys && h.epochs[i + 3].start in keys
    requires above == SortedMaps.Above(keys, h.epochs[i].start)
    ensures h.epochs[i].start < h.epochs[i + 1].start ==> |above| >= MAX_RETAINED_CHAINS
  {
    var three := {h.epochs[i + 1].start, h.epochs[i + 2].start, h.epochs[i + 3].start};
    if h.epochs[i].start < h.epochs[i + 1].start {
      assert three <= above;
      SortedMaps.SubsetSize(three, above);
    }
  }

  lemma NothingUsedAhead(h: History, got: nat, j: nat, c: nat, accepted: set<nat>)
    requires Ordered(h.epochs) && InEpoch(h, j, c) && c == h.epochs[j].start
    requires forall a | a in accepted :: a < c
    ensures Used(h, j, accepted + {c}) == {0}
  {
    forall i: nat ensures i in Used(h, j, accepted + {c}) <==> i == 0 {
      assert CounterAt(h, j, i) == c + i;
    }
  }

  /** Chains adopted earlier that survive pruning are the ones that were live, and untouched. */
  lemma LiveBefore(h: History, got: nat, i: nat)
    requires Ordered(h.epochs) && got + 1 < |h.epochs| && Live(h, got + 1, i) && i <= got
    ensures Live(h, got, i) && h.epochs[i].start < h.epochs[got + 1].start
  {
    if i < got { assert h.epochs[i + 1].start <= h.epochs[got + 1].start; }
  }

  lemma AdoptKeepsOldChain(h: History, got: nat, recv: map<nat, RecvState>, accepted: set<nat>, c: nat, i: nat)
    requires Ordered(h.epochs) && got + 1 < |h.epochs| && ChainsInv(h, got, recv, accepted)
    requires InEpoch(h, got + 1, c) && c == h.epochs[got + 1].start
    requires Live(h, got + 1, i) && i <= got
    ensures h.epochs[i].start in recv && h.epochs[i].start != c
    ensures ChainInv(recv[h.epochs[i].start], h.epochs[i].seed, Used(h, i, accepted + {c}))
  {
    LiveBefore(h, got, i);
    UsedGrows(h, got + 1, i, accepted, c);
  }

  lemma AdoptKeepsChains(h: History, got: nat, recv: map<nat, RecvState>, recv': map<nat, RecvState>,
                         accepted: set<nat>, c: nat, chain: RecvState)
    requires Ordered(h.epochs) && got + 1 < |h.epochs| && ChainsInv(h, got, recv, accepted)
    requires InEpoch(h, got + 1, c) && c == h.epochs[got + 1].start && forall a | a in accepted :: a < c
    requires recv'.Keys == Retained(h, got + 1)
    requires forall k | k in recv' && k != c :: k in recv && recv'[k] == recv[k]
    requires c in recv' ==> recv'[c] == chain
    requires ChainInv(chain, h.epochs[got + 1].seed, {0})
    ensures ChainsInv(h, got + 1, recv', accepted + {c})
  {
    NothingUsedAhead(h, got, got + 1, c, accepted);
    forall i: nat | Live(h, got + 1, i)
      ensures h.epochs[i].start in recv'
              && ChainInv(recv'[h.epochs[i].start], h.epochs[i].seed, Used(h, i, accepted + {c}))
    {
      assert h.epochs[i].start in Retained(h, got + 1);
      if i <= got {
        AdoptKeepsOldChain(h, got, recv, accepted, c, i);
      }
    }
  }

  lemma AdoptKeepsAccepted(h: History, got: nat, accepted: set<nat>, c: nat)
    requires got + 1 < |h.epochs| && AcceptedInv(h, got, accepted)
    requires c < |h.log| && h.log[c].epoch == got + 1 && c == h.epochs[got + 1].start
    ensures AcceptedInv(h, got + 1, accepted + {c})
  {
  }

  lemma AdoptedTable(h: History, got: nat, recv: map<nat, RecvState>, accepted: set<nat>, c: nat, chain: RecvState)
    requires Ordered(h.epochs) && got + 1 < |h.epochs| && ChainsInv(h, got, recv, accepted)
    requires InEpoch(h, got + 1, c) && c == h.epochs[got + 1].start && forall a | a in accepted :: a < c
    requires recv.Keys == Retained(h, got)
    requires ChainInv(chain, h.epochs[got + 1].seed, {0})
    ensures SortedMaps.KeepHighest(recv[c := chain], MAX_RETAINED_CHAINS).Keys == Retained(h, got + 1)
    ensures ChainsInv(h, got + 1, SortedMaps.KeepHighest(recv[c := chain], MAX_RETAINED_CHAINS), accepted + {c})
  {
    RetainedGrows(h, got, recv, chain);
    AdoptKeepsChains(h, got, recv, SortedMaps.KeepHighest(recv[c := chain], MAX_RETAINED_CHAINS), accepted, c, chain);
  }

  lemma AdoptedReceiver(cfg: Config, h: History, got: nat, ch: Chan, accepted: set<nat>, y': Side, root: Key,
                        chain: RecvState, c: nat)
    requires Ordered(h.epochs) && got + 1 < |h.epochs| && c == h.epochs[got + 1].start
    requires AcceptedInv(h, got, accepted) && Represents(cfg.windowSize, ch.window, accepted)
    requires ch.recv.Keys == Retained(h, got) && ChainsInv(h, got, ch.recv, accepted)
    requires c < |h.log| && h.log[c].epoch == got + 1 && InEpoch(h, got + 1, c)
    requires forall a | a in accepted :: a < c
    requires ChainInv(chain, h.epochs[got + 1].seed, {0})
    requires y'.ch == Adopt(cfg, ch, root, chain, h.epochs[got + 1].priv.pub, c)
    requires y'.got == got + 1 && y'.accepted == accepted + {c}
    ensures ReceiverInv(cfg, h, y')
  {
    AdoptedTable(h, got, ch.recv, accepted, c, chain);
    MarkRepresents(cfg.windowSize, ch.window, accepted, c);
    AdoptKeepsAccepted(h, got, accepted, c);
  }

  // ----- the one outcome of every delivery

  /** A frame of an adopted epoch may arrive at any time, an announcement at any time at all; a plain frame
      may not overtake the announcement of its own epoch. */
  predicate MayArrive(h: History, y: Side, c: nat)
    requires c < |h.log| && InEpoch(h, h.log[c].epoch, c)
  {
    h.log[c].epoch <= y.got || c == h.epochs[h.log[c].epoch].start
  }

  /** What becomes of the frame with counter `c`. */
  ghost function Outcome(cfg: Config, h: History, y: Side, c: nat): Result<Bytes, DecryptError>
    requires c < |h.log| && InEpoch(h, h.log[c].epoch, c)
  {
    var j := h.log[c].epoch;
    match Verdict(cfg.windowSize, y.ch.window.highest, y.accepted, c)
    case OlderThanWindow => Failure(StaleCounter)
    case Duplicate => Failure(DuplicateCounter)
    case Fresh =>
      if j > y.got + 1 then Failure(BadTag)
      else if j < Oldest(y.got) then Failure(NoChain)
      else if j <= y.got && h.epochs[j].start in y.ch.recv
              && c - h.epochs[j].start > y.ch.recv[h.epochs[j].start].next + MAX_SKIP
      then Failure(Desync(TooFarAhead))
      else Success(h.log[c].text)
  }

  lemma RejectedIsUntouched(cfg: Config, y: Side, p: Frame)
    requires Decrypted(cfg, y.ch, p).0 == y.ch && Decrypted(cfg, y.ch, p).1.Failure?
    ensures ReceiveSide(cfg, y, p) == y
  {
  }

  lemma TriedUnderOwnChain(cfg: Config, h: History, y: Side, c: nat, p: Frame, j: nat, start: nat, n: nat,
                           before: RecvState)
    requires ReceiverInv(cfg, h, y) && Ordered(h.epochs)
    requires Carries(cfg, h, c, p) && h.log[c].epoch == j && Live(h, y.got, j) && start == h.epochs[j].start
    requires Check(cfg.windowSize, y.ch.window, c) == Fresh
    requires start in y.ch.recv && before == y.ch.recv[start] && n == c - start
    ensures Decrypted(cfg, y.ch, p) ==
            FinishPlain(cfg, y.ch.(recv := y.ch.recv[start := RecvKey(before, n).0]), RecvKey(before, n).1, p)
  {
    RoutedOutcome(cfg, h, y, c, p, start);
    DecryptPlainRouted(cfg, y.ch, p, start, n, before);
  }

  lemma OwnChainKey(cfg: Config, h: History, got: nat, ch: Chan, accepted: set<nat>, j: nat, c: nat, n: nat,
                    before: RecvState)
    requires Ordered(h.epochs) && got < |h.epochs|
    requires ChainsInv(h, got, ch.recv, accepted) && Represents(cfg.windowSize, ch.window, accepted)
    requires cfg.windowSize <= MAX_SKIP + 1 && Check(cfg.windowSize, ch.window, c) == Fresh
    requires Live(h, got, j) && InEpoch(h, j, c) && n == c - h.epochs[j].start && before == ch.recv[h.epochs[j].start]
    ensures RecvKey(before, n).1 ==
            if n > before.next + MAX_SKIP then Failure(TooFarAhead) else Success(MessageKey(h.epochs[j].seed, n))
    ensures RecvKey(before, n).1.Failure? ==> RecvKey(before, n).0 == before
    ensures RecvKey(before, n).1.Success? ==>
              ChainInv(RecvKey(before, n).0, h.epochs[j].seed, Used(h, j, accepted + {c}))
  {
    FreshKeyInChain(cfg, h, got, ch, accepted, j, c, before, n);
    if RecvKey(before, n).1.Success? {
      PlainAcceptKeepsOwnChain(h, got, ch.recv, accepted, j, c, RecvKey(before, n).0);
    }
  }

  lemma LiveChain(h: History, got: nat, recv: map<nat, RecvState>, accepted: set<nat>, j: nat)
    requires got < |h.epochs| && ChainsInv(h, got, recv, accepted) && Live(h, got, j)
    ensures h.epochs[j].start in recv
  {
  }

  lemma {:induction false} DepthOfRootBefore(x: Side, y: Side, i: nat)
    requires Linked(x, y) && y.got < i < |x.sent.epochs|
    ensures Depth(RootBefore(x, y, i)) == Depth(y.ch.root) + i - y.got - 1
  {
    if i > y.got + 1 {
      DepthOfRootBefore(x, y, i - 1);
      assert LinkedAt(x, y, i - 1);
    }
  }

  /** The announcement after the last one adopted opens; one further ahead does not, and leaves no trace. */
  lemma AnnouncementOpens(cfg: Config, x: Side, y: Side, j: nat, c: nat, p: Frame)
    requires Linked(x, y) && ReceiverInv(cfg, x.sent, y)
    requires Ordered(x.sent.epochs) && LoggedInEpoch(x.sent) && OwnKeys(x.sent.epochs)
    requires Carries(cfg, x.sent, c, p) && x.sent.log[c].epoch == j > y.got && c == x.sent.epochs[j].start
    ensures AnnouncesNewKey(y.ch, p) && Check(cfg.windowSize, y.ch.window, c) == Fresh
    ensures j == y.got + 1 ==>
              Decrypted(cfg, y.ch, p) ==
              (Adopt(cfg, y.ch, x.sent.epochs[j].root, RecvState(NextOf(x.sent.epochs[j].seed), 1, map[]),
                     x.sent.epochs[j].priv.pub, c),
               Success(x.sent.log[c].text))
    ensures j > y.got + 1 ==> Decrypted(cfg, y.ch, p) == (y.ch, Failure(BadTag))
  {
    var e := x.sent.epochs[j];
    AnnouncementIsFresh(cfg, x.sent, y, j, c);
    assert e.priv != x.sent.epochs[y.got].priv;
    assert LinkedAt(x, y, j);
    var seed := ChainOf(y.ch.root, Exchange(y.ch.myPriv, e.priv.pub));
    AnnouncedOutcome(cfg, y.ch, p, seed);
    if j == y.got + 1 {
      SentFrameOpens(cfg, x.sent, c, p);
    } else {
      DepthOfRootBefore(x, y, j);
      assert MessageKey(seed, 0) != MessageKey(e.seed, 0);
    }
  }

  lemma AdoptKeepsRoots(x: Side, y: Side, y': Side)
    requires RootsInv(x, y) && InFlight(x, y) > 0
    requires y'.got == y.got + 1 && y'.sent == y.sent && y'.ch.myPriv == y.ch.myPriv
    requires y'.ch.root == x.sent.epochs[y'.got].root
    ensures RootsInv(x, y')
  {
    forall i: nat | y'.got < i < |x.sent.epochs| ensures LinkedAt(x, y', i) {
      assert LinkedAt(x, y, i);
    }
    assert InFlight(y', x) == InFlight(y, x) == 0;
  }

  lemma NextAnnouncementReceived(cfg: Config, x: Side, y: Side, y': Side, c: nat, p: Frame, e: Epoch)
    requires Linked(x, y) && ReceiverInv(cfg, x.sent, y)
    requires Ordered(x.sent.epochs) && LoggedInEpoch(x.sent) && OwnKeys(x.sent.epochs)
    requires Carries(cfg, x.sent, c, p) && x.sent.log[c].epoch == y.got + 1 && c == e.start
    requires e == x.sent.epochs[y.got + 1] && y' == ReceiveSide(cfg, y, p)
    ensures y'.got == y.got + 1 && y'.accepted == y.accepted + {c}
    ensures y'.ch == Adopt(cfg, y.ch, e.root, RecvState(NextOf(e.seed), 1, map[]), e.priv.pub, c)
    ensures Decrypted(cfg, y.ch, p).1 == Success(x.sent.log[c].text)
  {
    AnnouncementOpens(cfg, x, y, y.got + 1, c, p);
  }

  lemma NextAnnouncementAdopted(cfg: Config, h: History, got: nat, ch: Chan, accepted: set<nat>, y': Side,
                                c: nat, e: Epoch)
    requires Ordered(h.epochs) && LoggedInEpoch(h) && got + 1 < |h.epochs| && e == h.epochs[got + 1] && c == e.start
    requires AcceptedInv(h, got, accepted) && Represents(cfg.windowSize, ch.window, accepted)
    requires ch.recv.Keys == Retained(h, got) && ChainsInv(h, got, ch.recv, accepted)
    requires c < |h.log| && h.log[c].epoch == got + 1 && InEpoch(h, got + 1, c)
    requires y'.got == got + 1 && y'.accepted == accepted + {c}
    requires y'.ch == Adopt(cfg, ch, e.root, RecvState(NextOf(e.seed), 1, map[]), e.priv.pub, c)
    ensures ReceiverInv(cfg, h, y')
  {
    AcceptedBefore(h, got, accepted, got + 1, c);
    FirstKey(e.seed);
    AdoptedReceiver(cfg, h, got, ch, accepted, y', e.root, RecvState(NextOf(e.seed), 1, map[]), c);
  }

  lemma AdoptMoves(cfg: Config, c: Chan, root: Key, chain: RecvState, peerPub: PubKey, start: nat)
    ensures Adopt(cfg, c, root, chain, peerPub, start).root == root
    ensures Adopt(cfg, c, root, chain, peerPub, start).myPriv == c.myPriv
  {
  }

  lemma NextAnnouncementKeepsReceiver(cfg: Config, x: Side, y: Side, y': Side, c: nat, p: Frame, e: Epoch)
    requires Linked(x, y) && ReceiverInv(cfg, x.sent, y)
    requires Ordered(x.sent.epochs) && LoggedInEpoch(x.sent) && OwnKeys(x.sent.epochs)
    requires Carries(cfg, x.sent, c, p) && x.sent.log[c].epoch == y.got + 1 && c == e.start
    requires e == x.sent.epochs[y.got + 1] && y' == ReceiveSide(cfg, y, p)
    ensures ReceiverInv(cfg, x.sent, y')
    ensures y'.got == y.got + 1 && y'.ch.root == e.root && y'.ch.myPriv == y.ch.myPriv
    ensures Decrypted(cfg, y.ch, p).1 == Success(x.sent.log[c].text)
  {
    NextAnnouncementReceived(cfg, x, y, y', c, p, e);
    AdoptMoves(cfg, y.ch, e.root, RecvState(NextOf(e.seed), 1, map[]), e.priv.pub, c);
    NextAnnouncementAdopted(cfg, x.sent, y.got, y.ch, y.accepted, y', c, e);
  }

  lemma NextAnnouncementKeeps(cfg: Config, x: Side, y: Side, y': Side, c: nat, p: Frame, e: Epoch)
    requires SenderInv(cfg, y) && RootsInv(x, y) && ReceiverInv(cfg, x.sent, y)
    requires Ordered(x.sent.epochs) && LoggedInEpoch(x.sent) && OwnKeys(x.sent.epochs)
    requires Carries(cfg, x.sent, c, p) && x.sent.log[c].epoch == y.got + 1 && c == e.start
    requires e == x.sent.epochs[y.got + 1] && y' == ReceiveSide(cfg, y, p)
    ensures SenderInv(cfg, y') && RootsInv(x, y') && ReceiverInv(cfg, x.sent, y')
    ensures Decrypted(cfg, y.ch, p).1 == Success(x.sent.log[c].text)
  {
    NextAnnouncementKeepsReceiver(cfg, x, y, y', c, p, e);
    ReceiveKeepsSender(cfg, y, p);
    AdoptKeepsRoots(x, y, y');
  }

  lemma NextAnnouncement(cfg: Config, x: Side, y: Side, c: nat, p: Frame)
    requires LockInv(cfg, x, y) && Carries(cfg, x.sent, c, p)
    requires x.sent.log[c].epoch == y.got + 1 && c == x.sent.epochs[y.got + 1].start
    ensures LockInv(cfg, x, ReceiveSide(cfg, y, p))
    ensures Decrypted(cfg, y.ch, p).1 == Success(x.sent.log[c].text)
  {
    NextAnnouncementKeeps(cfg, x, y, ReceiveSide(cfg, y, p), c, p, x.sent.epochs[y.got + 1]);
    ReceiveKeepsSender(cfg, y, p);
  }

  lemma AheadExactly(cfg: Config, x: Side, y: Side, c: nat, p: Frame)
    requires LockInv(cfg, x, y)
    requires Carries(cfg, x.sent, c, p) && x.sent.log[c].epoch > y.got && c == x.sent.epochs[x.sent.log[c].epoch].start
    ensures Decrypted(cfg, y.ch, p).1 == Outcome(cfg, x.sent, y, c)
    ensures Decrypted(cfg, y.ch, p).1.Failure? ==> ReceiveSide(cfg, y, p) == y
    ensures LockInv(cfg, x, ReceiveSide(cfg, y, p))
  {
    AnnouncementOpens(cfg, x, y, x.sent.log[c].epoch, c, p);
    CheckIsVerdict(cfg.windowSize, y.ch.window, y.accepted, c);
    if x.sent.log[c].epoch == y.got + 1 { NextAnnouncement(cfg, x, y, c, p); }
  }

  lemma PrunedExactly(cfg: Config, x: Side, y: Side, c: nat, p: Frame)
    requires LockInv(cfg, x, y) && Check(cfg.windowSize, y.ch.window, c) == Fresh
    requires Carries(cfg, x.sent, c, p) && x.sent.log[c].epoch < Oldest(y.got)
    ensures Decrypted(cfg, y.ch, p).1 == Outcome(cfg, x.sent, y, c)
    ensures ReceiveSide(cfg, y, p) == y
  {
    PrunedOutcome(cfg, x.sent, y, c, p);
    CheckIsVerdict(cfg.windowSize, y.ch.window, y.accepted, c);
  }

  /** Main result, one delivery: in lockstep, every frame the peer sent meets exactly the outcome that its
      place in the peer's history dictates, and the parties stay in lockstep. */
  lemma DeliverExactly(cfg: Config, x: Side, y: Side, c: nat, p: Frame)
    requires LockInv(cfg, x, y) && cfg.windowSize <= MAX_SKIP + 1
    requires Carries(cfg, x.sent, c, p) && MayArrive(x.sent, y, c)
    ensures Decrypted(cfg, y.ch, p).1 == Outcome(cfg, x.sent, y, c)
    ensures Decrypted(cfg, y.ch, p).1.Failure? ==> ReceiveSide(cfg, y, p) == y
    ensures LockInv(cfg, x, ReceiveSide(cfg, y, p))
  {
    if Check(cfg.windowSize, y.ch.window, c) != Fresh {
      CheckIsVerdict(cfg.windowSize, y.ch.window, y.accepted, c);
      RepeatedOutcome(cfg, y, p);
    } else if x.sent.log[c].epoch > y.got {
      AheadExactly(cfg, x, y, c, p);
    } else if x.sent.log[c].epoch < Oldest(y.got) {
      PrunedExactly(cfg, x, y, c, p);
    } else {
      AdoptedEpochExactly(cfg, x, y, c, p);
    }
  }

  lemma RepeatedOutcome(cfg: Config, y: Side, p: Frame)
    requires p.Parsed? && Check(cfg.windowSize, y.ch.window, p.aad.counter) != Fresh
    ensures ReceiveSide(cfg, y, p) == y
    ensures Decrypted(cfg, y.ch, p).1 ==
            Failure(if Check(cfg.windowSize, y.ch.window, p.aad.counter) == Duplicate
                    then DuplicateCounter else StaleCounter)
  {
  }

  lemma AdoptedEpochExactly(cfg: Config, x: Side, y: Side, c: nat, p: Frame)
    requires LockInv(cfg, x, y) && cfg.windowSize <= MAX_SKIP + 1
    requires Carries(cfg, x.sent, c, p) && Oldest(y.got) <= x.sent.log[c].epoch <= y.got
    requires Check(cfg.windowSize, y.ch.window, c) == Fresh
    ensures Decrypted(cfg, y.ch, p).1 == Outcome(cfg, x.sent, y, c)
    ensures Decrypted(cfg, y.ch, p).1.Failure? ==> ReceiveSide(cfg, y, p) == y
    ensures LockInv(cfg, x, ReceiveSide(cfg, y, p))
  {
    var j := x.sent.log[c].epoch;
    var y' := ReceiveSide(cfg, y, p);
    CheckIsVerdict(cfg.windowSize, y.ch.window, y.accepted, c);
    RetainedExactly(cfg, x.sent, y, y', c, p, j, x.sent.epochs[j].start);
    if y' != y {
      ReceiveKeepsSender(cfg, y, p);
      PlainAcceptKeepsRoots(x, y, y');
    }
  }

  /** The frame's chain yields its key: the side after the delivery. */
  lemma FinishedOpened(cfg: Config, h: History, y: Side, y': Side, c: nat, p: Frame, start: nat,
                       chain: RecvState, key: Key)
    requires Carries(cfg, h, c, p) && !AnnouncesNewKey(y.ch, p) && y' == ReceiveSide(cfg, y, p)
    requires key == MessageKey(h.epochs[h.log[c].epoch].seed, c - h.epochs[h.log[c].epoch].start)
    requires Decrypted(cfg, y.ch, p) == FinishPlain(cfg, y.ch.(recv := y.ch.recv[start := chain]), Success(key), p)
    ensures Decrypted(cfg, y.ch, p).1 == Success(h.log[c].text)
    ensures y'.sent == y.sent && y'.got == y.got && y'.accepted == y.accepted + {c}
    ensures y'.ch == y.ch.(recv := y.ch.recv[start := chain], window := Mark(cfg.windowSize, y.ch.window, c))
  {
    OpenedOutcome(cfg, h, y.ch.(recv := y.ch.recv[start := chain]), c, p, key);
  }

  lemma FinishedDesync(cfg: Config, y: Side, p: Frame, start: nat)
    requires start in y.ch.recv && p.Parsed?
    requires Decrypted(cfg, y.ch, p)
             == FinishPlain(cfg, y.ch.(recv := y.ch.recv[start := y.ch.recv[start]]), Failure(TooFarAhead), p)
    ensures Decrypted(cfg, y.ch, p) == (y.ch, Failure(Desync(TooFarAhead)))
    ensures ReceiveSide(cfg, y, p) == y
  {
    assert y.ch.recv[start := y.ch.recv[start]] == y.ch.recv;
  }

  lemma RetainedExactly(cfg: Config, h: History, y: Side, y': Side, c: nat, p: Frame, j: nat, start: nat)
    requires ReceiverInv(cfg, h, y) && Ordered(h.epochs) && cfg.windowSize <= MAX_SKIP + 1
    requires Carries(cfg, h, c, p) && h.log[c].epoch == j && Oldest(y.got) <= j <= y.got && start == h.epochs[j].start
    requires Check(cfg.windowSize, y.ch.window, c) == Fresh && y' == ReceiveSide(cfg, y, p)
    ensures start in y.ch.recv
    ensures ReceiverInv(cfg, h, y')
    ensures y'.got == y.got && y'.ch.root == y.ch.root
    ensures Decrypted(cfg, y.ch, p).1 ==
            if c - start > y.ch.recv[start].next + MAX_SKIP
            then Failure(Desync(TooFarAhead)) else Success(h.log[c].text)
    ensures Decrypted(cfg, y.ch, p).1.Failure? ==> y' == y
  {
    RoutedToOwnEpoch(h, y.got, j, c);
    LiveChain(h, y.got, y.ch.recv, y.accepted, j);
    var n: nat, before := c - start, y.ch.recv[start];
    var chain, key := RecvKey(before, n).0, RecvKey(before, n).1;
    AdoptedIsPlain(cfg, h, y, c, p);
    TriedUnderOwnChain(cfg, h, y, c, p, j, start, n, before);
    OwnChainKey(cfg, h, y.got, y.ch, y.accepted, j, c, n, before);
    if key.Failure? {
      FinishedDesync(cfg, y, p, start);
    } else {
      FinishedOpened(cfg, h, y, y', c, p, start, chain, key.value);
      PlainAcceptKeepsReceiver(cfg, h, y, y', j, c, chain);
    }
  }

  lemma PlainAcceptKeepsRoots(x: Side, y: Side, y': Side)
    requires RootsInv(x, y)
    requires y'.got == y.got && y'.sent == y.sent && y'.ch.myPriv == y.ch.myPriv && y'.ch.root == y.ch.root
    ensures RootsInv(x, y')
  {
    forall i: nat | y'.got < i < |x.sent.epochs| ensures LinkedAt(x, y', i) { assert LinkedAt(x, y, i); }
    forall i: nat | x.got < i < |y'.sent.epochs| ensures LinkedAt(y', x, i) { assert LinkedAt(y, x, i); }
  }
}
