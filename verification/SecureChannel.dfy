/** `secure_channel.py`: one end of the ratcheted channel. The functions say what `encrypt` and
    `decrypt` do to a channel's state; the class is the source's object and is proved to do just that. */
module Channel {
  import opened ByteCodec
  import opened Wrappers
  import opened SymbolicCrypto
  import opened WireFormat
  import opened Ratchet
  import opened ReplayWindow
  import Padding
  import SortedMaps

  const MAX_RETAINED_CHAINS: nat := 3

  datatype Config = Config(windowSize: nat, rekeyInterval: int, padMessages: bool)

  const DEFAULTS: Config := Config(1024, 20, true)

  datatype Chan = Chan(
    send: SendState,
    recv: map<nat, RecvState>,
    root: Key,
    myPriv: PrivKey,
    peerPub: PubKey,
    sinceRekey: nat,
    owed: bool,
    sendCounter: nat,
    window: Window)

  type Frame = Parsed<Cipher>

  /** `encrypt` fails after its state has moved on: the counter no longer fits its eight bytes, or the
      plaintext no longer fits the padding's length prefix. */
  datatype EncryptError = CounterOverflow | MessageTooLong

  /** `ReplayError` is the first two; `NoChain` is the empty `max()`; the rest are `TamperError`. */
  datatype DecryptError =
    | StaleCounter | DuplicateCounter
    | Malformed | Desync(reason: ChainDesync) | BadTag | BadPadding
    | NoChain

  function NewChannel(sendKey: Key, recvKey: Key, root: Key, myPriv: PrivKey, peerPub: PubKey): Chan {
    Chan(SendState(sendKey, 0), map[0 := FreshChain(recvKey)], root, myPriv, peerPub, 0, false, 0, EMPTY)
  }

  // ----- sending

  /** The reactive, the count and the time trigger. */
  predicate StepDue(cfg: Config, c: Chan, timeDue: bool) {
    c.owed || c.sinceRekey >= cfg.rekeyInterval || timeDue
  }

  /** `_perform_send_ratchet_step` with the newly generated key `newPriv`. */
  function SendStep(c: Chan, newPriv: PrivKey): Chan {
    var (root, chainKey) := DhRatchetStep(c.root, Exchange(newPriv, c.peerPub));
    c.(root := root, send := SendState(chainKey, 0), myPriv := newPriv, sinceRekey := 0, owed := false)
  }

  /** The channel after the ratchet step, if one is due, and before the message key is drawn. */
  function Stepped(cfg: Config, c: Chan, timeDue: bool, newPriv: PrivKey): Chan {
    if StepDue(cfg, c, timeDue) then SendStep(c, newPriv) else c
  }

  function Payload(cfg: Config, text: Bytes): Option<Bytes> {
    if !cfg.padMessages then Some(text)
    else match Padding.Pad(text)
      case Success(p) => Some(p)
      case Failure(_) => None
  }

  /** A frame with this counter and plaintext leaves `encrypt`. */
  predicate Emittable(cfg: Config, counter: nat, text: Bytes) {
    counter < Pow256(COUNTER_SIZE) && (cfg.padMessages ==> |text| <= Padding.MAX_PLAINTEXT_SIZE)
  }

  function Seal(cfg: Config, key: Key, aad: Aad, text: Bytes): Result<Frame, EncryptError> {
    if aad.counter >= Pow256(COUNTER_SIZE) then Failure(CounterOverflow)
    else match Payload(cfg, text)
      case Some(p) => Success(Parsed(aad, Sealed(key, aad.counter, aad, p)))
      case None => Failure(MessageTooLong)
  }

  function Encrypted(cfg: Config, c: Chan, text: Bytes, timeDue: bool, newPriv: PrivKey)
    : (Chan, Result<Frame, EncryptError>)
  {
    var s := Stepped(cfg, c, timeDue, newPriv);
    var aad := Aad(if StepDue(cfg, c, timeDue) then Some(newPriv.pub) else None, s.sendCounter);
    var (send, key) := SendNext(s.send);
    (s.(send := send, sendCounter := s.sendCounter + 1, sinceRekey := s.sinceRekey + 1),
     Seal(cfg, key, aad, text))
  }

  // ----- receiving

  function Unsealed(cfg: Config, key: Key, p: Frame): Result<Bytes, DecryptError>
    requires p.Parsed?
  {
    match Open(key, p.aad.counter, p.aad, p.body)
    case None => Failure(BadTag)
    case Some(payload) =>
      if !cfg.padMessages then Success(payload)
      else match Padding.Unpad(payload)
        case Success(text) => Success(text)
        case Failure(_) => Failure(BadPadding)
  }

  /** The frame announces a ratchet key other than the peer's current one. */
  predicate AnnouncesNewKey(c: Chan, p: Frame) {
    p.Parsed? && p.aad.announce.Some? && p.aad.announce.value != c.peerPub
  }

  /** `_commit_receive_ratchet_step` with the candidate root key and chain. */
  function CommitStep(c: Chan, root: Key, chain: RecvState, peerPub: PubKey, start: nat): Chan {
    c.(root := root,
       recv := SortedMaps.KeepHighest(c.recv[start := chain], MAX_RETAINED_CHAINS),
       peerPub := peerPub,
       owed := true)
  }

  /** Commit the step and record the counter of the frame that announced it. */
  function Adopt(cfg: Config, c: Chan, root: Key, chain: RecvState, peerPub: PubKey, start: nat): Chan {
    var c' := CommitStep(c, root, chain, peerPub, start);
    c'.(window := Mark(cfg.windowSize, c'.window, start))
  }

  function DecryptAnnounced(cfg: Config, c: Chan, p: Frame): (Chan, Result<Bytes, DecryptError>)
    requires AnnouncesNewKey(c, p)
  {
    var pub := p.aad.announce.value;
    var (root, chainKey) := DhRatchetStep(c.root, Exchange(c.myPriv, pub));
    var (chain, key) := RecvKey(FreshChain(chainKey), 0);
    match key
    case Failure(e) => (c, Failure(Desync(e)))
    case Success(k) =>
      var r := Unsealed(cfg, k, p);
      (if r.Failure? then c else Adopt(cfg, c, root, chain, pub, p.aad.counter), r)
  }

  /** `max(k for k in recv_chains if k <= counter)` */
  function Route(starts: set<nat>, counter: nat): (r: Option<nat>)
    ensures r == None ==> forall k | k in starts :: k > counter
    ensures r.Some? ==> r.value in starts && r.value <= counter
    ensures r.Some? ==> forall k | k in starts && k <= counter :: k <= r.value
  {
    var eligible := set k | k in starts && k <= counter;
    if eligible == {} then
      assert forall k | k in starts :: k <= counter ==> k in eligible;
      None
    else
      assert forall k | k in starts && k <= counter :: k in eligible;
      Some(SortedMaps.Maximum(eligible))
  }

  lemma RouteFinds(starts: set<nat>, counter: nat, start: nat)
    requires start in starts && start <= counter && forall k | k in starts :: k <= start || k > counter
    ensures Route(starts, counter) == Some(start)
  {
    var r := Route(starts, counter);
    assert r.Some? && r.value <= start <= r.value;
  }

  lemma RouteFindsNone(starts: set<nat>, counter: nat)
    requires forall k | k in starts :: k > counter
    ensures Route(starts, counter) == None
  {
  }

  /** The channel after its chain `start` was asked for its n-th key. */
  function AskChain(c: Chan, start: nat, n: nat): Chan
    requires start in c.recv
  {
    c.(recv := c.recv[start := RecvKey(c.recv[start], n).0])
  }

  /** The rest of a plain `decrypt` once the routed chain has been asked for its key. */
  function FinishPlain(cfg: Config, c: Chan, key: Result<Key, ChainDesync>, p: Frame)
    : (Chan, Result<Bytes, DecryptError>)
    requires p.Parsed?
  {
    match key
    case Failure(e) => (c, Failure(Desync(e)))
    case Success(k) =>
      var r := Unsealed(cfg, k, p);
      (if r.Failure? then c else c.(window := Mark(cfg.windowSize, c.window, p.aad.counter)), r)
  }

  function DecryptRouted(cfg: Config, c: Chan, start: nat, n: nat, p: Frame): (Chan, Result<Bytes, DecryptError>)
    requires p.Parsed? && start in c.recv
  {
    FinishPlain(cfg, AskChain(c, start, n), RecvKey(c.recv[start], n).1, p)
  }

  function DecryptPlain(cfg: Config, c: Chan, p: Frame): (Chan, Result<Bytes, DecryptError>)
    requires p.Parsed?
  {
    match Route(c.recv.Keys, p.aad.counter)
    case None => (c, Failure(NoChain))
    case Some(start) =>
      DecryptRouted(cfg, c, start, p.aad.counter - start, p)
  }

  lemma DecryptPlainRouted(cfg: Config, c: Chan, p: Frame, start: nat, n: nat, chain: RecvState)
    requires p.Parsed? && p.aad.counter == start + n && Route(c.recv.Keys, p.aad.counter) == Some(start)
    requires start in c.recv && chain == c.recv[start]
    ensures DecryptPlain(cfg, c, p) ==
            FinishPlain(cfg, c.(recv := c.recv[start := RecvKey(chain, n).0]), RecvKey(chain, n).1, p)
  {
    assert DecryptPlain(cfg, c, p) == DecryptRouted(cfg, c, start, n, p);
  }

  function Decrypted(cfg: Config, c: Chan, p: Frame): (Chan, Result<Bytes, DecryptError>) {
    if !p.Parsed? then (c, Failure(Malformed))
    else match Check(cfg.windowSize, c.window, p.aad.counter)
      case OlderThanWindow => (c, Failure(StaleCounter))
      case Duplicate => (c, Failure(DuplicateCounter))
      case Fresh => if AnnouncesNewKey(c, p) then DecryptAnnounced(cfg, c, p) else DecryptPlain(cfg, c, p)
  }

  predicate SameSending(c: Chan, c': Chan) {
    && c'.send == c.send && c'.sendCounter == c.sendCounter && c'.sinceRekey == c.sinceRekey
    && c'.myPriv == c.myPriv && (c.owed ==> c'.owed)
  }

  /** Nothing received ever moves the sending half, except that a reply may become owed. */
  lemma DecryptKeepsSending(cfg: Config, c: Chan, p: Frame)
    ensures SameSending(c, Decrypted(cfg, c, p).0)
  {
    if p.Parsed? {
      if AnnouncesNewKey(c, p) {
        assert SameSending(c, DecryptAnnounced(cfg, c, p).0);
      } else {
        assert SameSending(c, DecryptPlain(cfg, c, p).0);
      }
    }
  }

  // ----- the source's object

  /** The values of a table of chain objects. */
  ghost function StatesOf(chains: map<nat, ReceivingChain>): map<nat, RecvState>
    reads chains.Values
  {
    map k | k in chains :: chains[k].State()
  }

  /** No chain object is filed under two start counters. */
  ghost predicate Distinct(chains: map<nat, ReceivingChain>) {
    forall i, j | i in chains && j in chains && i != j :: chains[i] != chains[j]
  }

  lemma StatesOfUpdate(chains: map<nat, ReceivingChain>, k: nat, chain: ReceivingChain)
    ensures StatesOf(chains[k := chain]) == StatesOf(chains)[k := chain.State()]
  {
  }

  lemma StatesOfKeepHighest(chains: map<nat, ReceivingChain>, limit: nat)
    ensures StatesOf(SortedMaps.KeepHighest(chains, limit)) == SortedMaps.KeepHighest(StatesOf(chains), limit)
  {
    assert StatesOf(chains).Keys == chains.Keys;
  }

  lemma AddedAndPruned(chains: map<nat, ReceivingChain>, k: nat, chain: ReceivingChain, limit: nat)
    requires Distinct(chains) && chain !in chains.Values
    ensures Distinct(SortedMaps.KeepHighest(chains[k := chain], limit))
    ensures StatesOf(SortedMaps.KeepHighest(chains[k := chain], limit)) ==
            SortedMaps.KeepHighest(StatesOf(chains)[k := chain.State()], limit)
  {
    StatesOfUpdate(chains, k, chain);
    StatesOfKeepHighest(chains[k := chain], limit);
  }

  class SecureChannel {
    const cfg: Config
    var sendingChain: SendingChain
    var recvChains: map<nat, ReceivingChain>
    var rootKey: Key
    var myRatchetPriv: PrivKey
    var peerRatchetPub: PubKey
    var messagesSinceRekey: nat
    var sendRatchetOwed: bool
    var sendCounter: nat
    var highestRecvCounter: int
    var recvBitmap: nat

    ghost predicate Valid()
      reads this
    {
      Distinct(recvChains)
    }

    ghost function State(): Chan
      reads this, sendingChain, recvChains.Values
    {
      Chan(sendingChain.State(), StatesOf(recvChains), rootKey, myRatchetPriv, peerRatchetPub,
           messagesSinceRekey, sendRatchetOwed, sendCounter, Window(highestRecvCounter, recvBitmap))
    }

    constructor (sendKey: Key, recvKey: Key, root: Key, myPriv: PrivKey, peerPub: PubKey, cfg: Config)
      ensures Valid() && this.cfg == cfg
      ensures State() == NewChannel(sendKey, recvKey, root, myPriv, peerPub)
      ensures fresh(sendingChain) && forall k | k in recvChains :: fresh(recvChains[k])
    {
      this.cfg := cfg;
      var s := new SendingChain(sendKey);
      var r := new ReceivingChain(recvKey);
      sendingChain, recvChains := s, map[0 := r];
      rootKey, myRatchetPriv, peerRatchetPub := root, myPriv, peerPub;
      messagesSinceRekey, sendRatchetOwed, sendCounter := 0, false, 0;
      highestRecvCounter, recvBitmap := -1, 0;
    }

    method Encrypt(text: Bytes, timeDue: bool, newPriv: PrivKey) returns (r: Result<Frame, EncryptError>)
      requires Valid()
      modifies this, sendingChain
      ensures Valid() && recvChains == old(recvChains)
      ensures sendingChain == old(sendingChain) || fresh(sendingChain)
      ensures State() == Encrypted(cfg, old(State()), text, timeDue, newPriv).0
      ensures r == Encrypted(cfg, old(State()), text, timeDue, newPriv).1
    {
      var announce := None;
      if sendRatchetOwed || messagesSinceRekey >= cfg.rekeyInterval || timeDue {
        PerformSendRatchetStep(newPriv);
        announce := Some(myRatchetPriv.pub);
      }
      var counter := sendCounter;
      sendCounter := sendCounter + 1;
      messagesSinceRekey := messagesSinceRekey + 1;
      var _, key := sendingChain.Next();
      r := Seal(cfg, key, Aad(announce, counter), text);
    }

    method PerformSendRatchetStep(newPriv: PrivKey)
      requires Valid()
      modifies this
      ensures Valid() && recvChains == old(recvChains)
      ensures State() == SendStep(old(State()), newPriv)
      ensures fresh(sendingChain)
    {
      var step := DhRatchetStep(rootKey, Exchange(newPriv, peerRatchetPub));
      rootKey := step.0;
      sendingChain := new SendingChain(step.1);
      myRatchetPriv := newPriv;
      messagesSinceRekey, sendRatchetOwed := 0, false;
    }

    method Decrypt(p: Frame) returns (r: Result<Bytes, DecryptError>)
      requires Valid()
      modifies this, recvChains.Values
      ensures Valid() && sendingChain == old(sendingChain)
      ensures fresh(recvChains.Values - old(recvChains.Values))
      ensures State() == Decrypted(cfg, old(State()), p).0
      ensures r == Decrypted(cfg, old(State()), p).1
    {
      if !p.Parsed? {
        return Failure(Malformed);
      }
      match Check(cfg.windowSize, Window(highestRecvCounter, recvBitmap), p.aad.counter) {
        case OlderThanWindow => return Failure(StaleCounter);
        case Duplicate => return Failure(DuplicateCounter);
        case Fresh =>
      }
      if p.aad.announce.Some? && p.aad.announce.value != peerRatchetPub {
        r := ReceiveAnnounced(p);
      } else {
        r := ReceivePlain(p);
      }
    }

    /** The candidate step is computed on locals; nothing of the channel changes until the tag verifies. */
    method ReceiveAnnounced(p: Frame) returns (r: Result<Bytes, DecryptError>)
      requires Valid() && AnnouncesNewKey(State(), p)
      modifies this
      ensures Valid() && sendingChain == old(sendingChain)
      ensures fresh(recvChains.Values - old(recvChains.Values))
      ensures State() == DecryptAnnounced(cfg, old(State()), p).0
      ensures r == DecryptAnnounced(cfg, old(State()), p).1
    {
      ghost var c := State();
      var step := DhRatchetStep(rootKey, Exchange(myRatchetPriv, p.aad.announce.value));
      var chain := new ReceivingChain(step.1);
      var key, _ := chain.KeyFor(0);
      assert key.Success? && State() == c;
      r := Unsealed(cfg, key.value, p);
      if r.Success? {
        CommitReceiveRatchetStep(step.0, chain, p.aad.announce.value, p.aad.counter);
        MarkSeen(p.aad.counter);
        assert State() == Adopt(cfg, c, step.0, chain.State(), p.aad.announce.value, p.aad.counter);
      }
    }

    method CommitReceiveRatchetStep(root: Key, chain: ReceivingChain, peerPub: PubKey, start: nat)
      requires Valid() && chain !in recvChains.Values
      modifies this`rootKey, this`recvChains, this`peerRatchetPub, this`sendRatchetOwed
      ensures Valid() && recvChains.Values <= old(recvChains.Values) + {chain}
      ensures State() == CommitStep(old(State()), root, chain.State(), peerPub, start)
    {
      AddedAndPruned(recvChains, start, chain, MAX_RETAINED_CHAINS);
      rootKey := root;
      recvChains := recvChains[start := chain];
      peerRatchetPub := peerPub;
      recvChains := SortedMaps.TrimToHighest(recvChains, MAX_RETAINED_CHAINS);
      sendRatchetOwed := true;
    }

    method ReceivePlain(p: Frame) returns (r: Result<Bytes, DecryptError>)
      requires Valid() && p.Parsed?
      modifies this, recvChains.Values
      ensures Valid() && sendingChain == old(sendingChain)
      ensures fresh(recvChains.Values - old(recvChains.Values))
      ensures State() == DecryptPlain(cfg, old(State()), p).0
      ensures r == DecryptPlain(cfg, old(State()), p).1
    {
      ghost var c := State();
      ghost var expected := DecryptPlain(cfg, c, p);
      assert c.recv.Keys == recvChains.Keys;
      var route := Route(recvChains.Keys, p.aad.counter);
      if route.None? {
        return Failure(NoChain);
      }
      var key := StepChain(route.value, p.aad.counter - route.value);
      assert expected == FinishPlain(cfg, State(), key, p);
      r := Finish(key, p);
    }

    method Finish(key: Result<Key, ChainDesync>, p: Frame) returns (r: Result<Bytes, DecryptError>)
      requires p.Parsed?
      modifies this`highestRecvCounter, this`recvBitmap
      ensures State() == FinishPlain(cfg, old(State()), key, p).0
      ensures r == FinishPlain(cfg, old(State()), key, p).1
    {
      if key.Failure? {
        return Failure(Desync(key.error));
      }
      r := Unsealed(cfg, key.value, p);
      if r.Success? {
        MarkSeen(p.aad.counter);
      }
    }

    method StepChain(start: nat, n: nat) returns (key: Result<Key, ChainDesync>)
      requires Valid() && start in recvChains
      modifies recvChains[start]
      ensures State() == AskChain(old(State()), start, n)
      ensures key == RecvKey(old(State()).recv[start], n).1
    {
      ghost var states := StatesOf(recvChains);
      var found, _ := recvChains[start].KeyFor(n);
      assert StatesOf(recvChains) == states[start := RecvKey(states[start], n).0];
      key := found;
    }

    method MarkSeen(counter: nat)
      modifies this`highestRecvCounter, this`recvBitmap
      ensures Window(highestRecvCounter, recvBitmap) ==
              Mark(cfg.windowSize, Window(old(highestRecvCounter), old(recvBitmap)), counter)
    {
      if counter > highestRecvCounter {
        var shift := counter - highestRecvCounter;
        if shift >= cfg.windowSize {
          recvBitmap := 1;
        } else {
          recvBitmap := Mask(SetBit(ShiftLeft(recvBitmap, shift), 0), cfg.windowSize);
        }
        highestRecvCounter := counter;
      } else {
        recvBitmap := SetBit(recvBitmap, highestRecvCounter - counter);
      }
    }
  }
}
