/** Two channels, the network between them, and the history that the properties speak about. */
module TwoParty {
  import opened ByteCodec
  import opened Wrappers
  import opened SymbolicCrypto
  import opened WireFormat
  import opened Ratchet
  import opened Channel
  import Padding

  /** A stretch of a party's own sending: the counter it starts at, its chain key, its ratchet key, and
      the root key after the step that began it. Epoch 0 is what the handshake handed over. */
  datatype Epoch = Epoch(start: nat, seed: Key, priv: PrivKey, root: Key)

  datatype Sent = Sent(epoch: nat, text: Bytes)

  /** Everything a party has sent: its epochs, and its plaintexts by counter. */
  datatype History = History(epochs: seq<Epoch>, log: seq<Sent>)

  /** A channel with its past: what it sent, how many of the peer's announcements it adopted, and which
      of the peer's counters it accepted. */
  datatype Side = Side(ch: Chan, sent: History, got: nat, accepted: set<nat>)

  /** `used` holds every ratchet key that exists or has been announced on the wire. */
  datatype Sys = Sys(a: Side, b: Side, used: set<PubKey>)

  datatype Party = Alice | Bob

  datatype Event =
    | Send(who: Party, text: Bytes, timeDue: bool, newPriv: PrivKey)
    | Receive(who: Party, frame: Frame)

  function Start(ch: Chan): Side {
    Side(ch, History([Epoch(0, ch.send.chainKey, ch.myPriv, ch.root)], []), 0, {})
  }

  function Extend(h: History, step: Option<Epoch>, text: Bytes): History {
    var epochs := if step.Some? then h.epochs + [step.value] else h.epochs;
    History(epochs, h.log + [Sent(if epochs == [] then 0 else |epochs| - 1, text)])
  }

  /** The epoch that this send begins, if it takes a ratchet step. */
  function NewEpoch(cfg: Config, c: Chan, timeDue: bool, newPriv: PrivKey): Option<Epoch> {
    if StepDue(cfg, c, timeDue) then
      var s := SendStep(c, newPriv);
      Some(Epoch(c.sendCounter, s.send.chainKey, newPriv, s.root))
    else None
  }

  function SendSide(cfg: Config, s: Side, text: Bytes, timeDue: bool, newPriv: PrivKey): Side {
    s.(ch := Encrypted(cfg, s.ch, text, timeDue, newPriv).0,
       sent := Extend(s.sent, NewEpoch(cfg, s.ch, timeDue, newPriv), text))
  }

  function ReceiveSide(cfg: Config, s: Side, p: Frame): Side {
    var (ch, r) := Decrypted(cfg, s.ch, p);
    if r.Failure? || !p.Parsed? then s.(ch := ch)
    else s.(ch := ch,
            got := if AnnouncesNewKey(s.ch, p) then s.got + 1 else s.got,
            accepted := s.accepted + {p.aad.counter})
  }

  function Mine(sys: Sys, who: Party): Side {
    if who == Alice then sys.a else sys.b
  }

  function Peer(sys: Sys, who: Party): Side {
    if who == Alice then sys.b else sys.a
  }

  function Replace(sys: Sys, who: Party, s: Side): Sys {
    if who == Alice then sys.(a := s) else sys.(b := s)
  }

  function Step(cfg: Config, sys: Sys, e: Event): Sys {
    match e
    case Send(who, text, timeDue, newPriv) =>
      var sys' := Replace(sys, who, SendSide(cfg, Mine(sys, who), text, timeDue, newPriv));
      if StepDue(cfg, Mine(sys, who).ch, timeDue) then sys'.(used := sys.used + {newPriv.pub}) else sys'
    case Receive(who, p) =>
      var sys' := Replace(sys, who, ReceiveSide(cfg, Mine(sys, who), p));
      if p.Parsed? && p.aad.announce.Some? then sys'.(used := sys.used + {p.aad.announce.value}) else sys'
  }

  /** A ratchet key drawn by a step has never been seen before. */
  predicate FreshKeys(cfg: Config, sys: Sys, e: Event) {
    e.Send? && StepDue(cfg, Mine(sys, e.who).ch, e.timeDue) ==> e.newPriv.pub !in sys.used
  }

  function Run(cfg: Config, sys: Sys, es: seq<Event>): Sys {
    if es == [] then sys else Step(cfg, Run(cfg, sys, es[..|es| - 1]), es[|es| - 1])
  }

  lemma RunStep(cfg: Config, sys: Sys, es: seq<Event>, n: nat)
    requires n < |es|
    ensures Run(cfg, sys, es[..n + 1]) == Step(cfg, Run(cfg, sys, es[..n]), es[n])
  {
    assert es[..n + 1][..n] == es[..n];
  }

  /** A run is its beginning and then the rest. */
  lemma {:induction false} RunSplits(cfg: Config, sys: Sys, es: seq<Event>, more: seq<Event>)
    ensures Run(cfg, sys, es + more) == Run(cfg, Run(cfg, sys, es), more)
  {
    if more == [] {
      assert es + more == es;
    } else {
      RunSplits(cfg, sys, es, more[..|more| - 1]);
      assert (es + more)[..|es + more| - 1] == es + more[..|more| - 1];
    }
  }

  lemma RunContinues(cfg: Config, sys: Sys, es: seq<Event>, i: nat, j: nat)
    requires i <= j <= |es|
    ensures Run(cfg, sys, es[..j]) == Run(cfg, Run(cfg, sys, es[..i]), es[i..j])
  {
    assert es[..j] == es[..i] + es[i..j];
    RunSplits(cfg, sys, es[..i], es[i..j]);
  }

  // ----- a sender and its own history

  function Last(h: History): Epoch
    requires h.epochs != []
  {
    h.epochs[|h.epochs| - 1]
  }

  /** The first counter after epoch `j`. */
  function End(h: History, j: nat): nat
    requires j < |h.epochs|
  {
    if j + 1 < |h.epochs| then h.epochs[j + 1].start else |h.log|
  }

  predicate InEpoch(h: History, j: nat, c: nat) {
    j < |h.epochs| && h.epochs[j].start <= c < End(h, j)
  }

  function EpochLimit(cfg: Config): nat {
    if cfg.rekeyInterval <= 1 then 1 else cfg.rekeyInterval
  }

  /** Epochs start in order, and only epoch 0 may be empty. */
  predicate Ordered(epochs: seq<Epoch>) {
    forall i, j | 0 <= i < j < |epochs| ::
      epochs[i].start <= epochs[j].start && (i > 0 ==> epochs[i].start < epochs[j].start)
  }

  /** Every epoch announces a ratchet key of its own. */
  predicate OwnKeys(epochs: seq<Epoch>) {
    forall i, j | 0 <= i < j < |epochs| :: epochs[i].priv != epochs[j].priv
  }

  /** Every frame lies in the epoch it is logged under. */
  predicate LoggedInEpoch(h: History) {
    forall c: nat | c < |h.log| :: InEpoch(h, h.log[c].epoch, c)
  }

  /** No epoch is longer than the rekey interval allows. */
  predicate EpochsBounded(cfg: Config, h: History) {
    forall j: nat | j < |h.epochs| :: EpochLength(h, j) <= EpochLimit(cfg)
  }

  function EpochLength(h: History, j: nat): int
    requires j < |h.epochs|
  {
    End(h, j) - h.epochs[j].start
  }

  predicate HistoryInv(cfg: Config, h: History) {
    && h.epochs != [] && h.epochs[0].start == 0
    && Ordered(h.epochs) && OwnKeys(h.epochs)
    && Last(h).start <= |h.log| && (|h.epochs| > 1 ==> Last(h).start < |h.log|)
    && LoggedInEpoch(h)
    && EpochsBounded(cfg, h)
  }

  /** The sending half of a channel stands where its history ends. */
  predicate AtEnd(h: History, c: Chan)
    requires h.epochs != []
  {
    && Last(h).start <= |h.log|
    && c.send.chainKey == ChainKey(Last(h).seed, |h.log| - Last(h).start)
    && c.sendCounter == |h.log|
    && c.sinceRekey == |h.log| - Last(h).start
    && c.myPriv == Last(h).priv
  }

  predicate SenderInv(cfg: Config, s: Side) {
    HistoryInv(cfg, s.sent) && AtEnd(s.sent, s.ch)
  }

  /** The frame that carried counter `c`, rebuilt from the history: only the first frame of an epoch after
      epoch 0 announces, and the message key is the epoch's key of the frame's place in it. */
  function SentFrame(cfg: Config, h: History, c: nat): Frame
    requires c < |h.log| && InEpoch(h, h.log[c].epoch, c) && Emittable(cfg, c, h.log[c].text)
  {
    var j := h.log[c].epoch;
    var e := h.epochs[j];
    var aad := Aad(if j > 0 && c == e.start then Some(e.priv.pub) else None, c);
    Padding.PadRoundTrip(h.log[c].text);
    Parsed(aad, Sealed(MessageKey(e.seed, c - e.start), c, aad, Payload(cfg, h.log[c].text).value))
  }

  /** `p` is, byte for byte, the frame that carried counter `c`. */
  predicate Carries(cfg: Config, h: History, c: nat, p: Frame) {
    c < |h.log| && InEpoch(h, h.log[c].epoch, c) && Emittable(cfg, c, h.log[c].text) && p == SentFrame(cfg, h, c)
  }

  /** The key of a coming step is new to the sender. */
  predicate NewToSender(cfg: Config, s: Side, timeDue: bool, newPriv: PrivKey) {
    StepDue(cfg, s.ch, timeDue) ==> forall j | 0 <= j < |s.sent.epochs| :: s.sent.epochs[j].priv != newPriv
  }

  lemma ExtendInEpoch(h: History, step: Option<Epoch>, text: Bytes)
    requires h.epochs != [] && LoggedInEpoch(h) && Last(h).start <= |h.log|
    requires step.Some? ==> step.value.start == |h.log|
    ensures LoggedInEpoch(Extend(h, step, text))
  {
    var h' := Extend(h, step, text);
    forall c: nat | c < |h'.log| ensures InEpoch(h', h'.log[c].epoch, c) {
      if c < |h.log| {
        assert InEpoch(h, h.log[c].epoch, c) && h'.log[c] == h.log[c];
      }
    }
  }

  lemma ExtendBounded(cfg: Config, h: History, step: Option<Epoch>, text: Bytes)
    requires h.epochs != [] && EpochsBounded(cfg, h) && Last(h).start <= |h.log|
    requires step.Some? ==> step.value.start == |h.log|
    requires step.None? ==> |h.log| - Last(h).start < EpochLimit(cfg)
    ensures EpochsBounded(cfg, Extend(h, step, text))
  {
    var h' := Extend(h, step, text);
    forall j: nat | j < |h'.epochs| ensures EpochLength(h', j) <= EpochLimit(cfg) {
      if j < |h.epochs| {
        assert h'.epochs[j] == h.epochs[j] && EpochLength(h, j) <= EpochLimit(cfg);
      }
    }
  }

  /** One more epoch, beginning at or after the last one, at a place where all but epoch 0 are not empty. */
  lemma ExtendOrder(epochs: seq<Epoch>, e: Epoch)
    requires epochs != [] && Ordered(epochs) && OwnKeys(epochs)
    requires epochs[|epochs| - 1].start <= e.start && (|epochs| > 1 ==> epochs[|epochs| - 1].start < e.start)
    requires forall j | 0 <= j < |epochs| :: epochs[j].priv != e.priv
    ensures Ordered(epochs + [e]) && OwnKeys(epochs + [e])
  {
    var last := |epochs| - 1;
    forall i | 0 <= i < |epochs| ensures epochs[i].start <= e.start && (i > 0 ==> epochs[i].start < e.start) {
      if i < last { assert epochs[i].start <= epochs[last].start; }
    }
  }

  lemma ExtendHistory(cfg: Config, h: History, step: Option<Epoch>, text: Bytes)
    requires HistoryInv(cfg, h)
    requires step.Some? ==> step.value.start == |h.log|
    requires step.Some? ==> forall j | 0 <= j < |h.epochs| :: h.epochs[j].priv != step.value.priv
    requires step.None? ==> |h.log| - Last(h).start < EpochLimit(cfg)
    ensures HistoryInv(cfg, Extend(h, step, text))
  {
    ExtendInEpoch(h, step, text);
    ExtendBounded(cfg, h, step, text);
    if step.Some? { ExtendOrder(h.epochs, step.value); }
  }

  lemma SendStaysAtEnd(h: History, cfg: Config, c: Chan, text: Bytes, timeDue: bool, newPriv: PrivKey)
    requires h.epochs != [] && AtEnd(h, c)
    ensures AtEnd(Extend(h, NewEpoch(cfg, c, timeDue, newPriv), text), Encrypted(cfg, c, text, timeDue, newPriv).0)
  {
  }

  lemma SendKeepsSender(cfg: Config, s: Side, text: Bytes, timeDue: bool, newPriv: PrivKey)
    requires SenderInv(cfg, s) && NewToSender(cfg, s, timeDue, newPriv)
    ensures SenderInv(cfg, SendSide(cfg, s, text, timeDue, newPriv))
  {
    var step := NewEpoch(cfg, s.ch, timeDue, newPriv);
    ExtendHistory(cfg, s.sent, step, text);
    SendStaysAtEnd(s.sent, cfg, s.ch, text, timeDue, newPriv);
  }

  /** The books that make a history mean something, kept by any sends whatever, fresh keys or not. */
  predicate Recording(s: Side) {
    && s.sent.epochs != [] && LoggedInEpoch(s.sent) && AtEnd(s.sent, s.ch)
    && (|s.sent.epochs| > 1 ==> Last(s.sent).start < |s.sent.log|)
  }

  lemma SendKeepsRecording(cfg: Config, s: Side, text: Bytes, timeDue: bool, newPriv: PrivKey)
    requires Recording(s)
    ensures Recording(SendSide(cfg, s, text, timeDue, newPriv))
  {
    ExtendInEpoch(s.sent, NewEpoch(cfg, s.ch, timeDue, newPriv), text);
    SendStaysAtEnd(s.sent, cfg, s.ch, text, timeDue, newPriv);
  }

  /** What `encrypt` returns is the frame that the history then stands for. */
  lemma SendMakesFrame(cfg: Config, s: Side, text: Bytes, timeDue: bool, newPriv: PrivKey)
    requires Recording(s)
    ensures var h' := SendSide(cfg, s, text, timeDue, newPriv).sent;
            var r := Encrypted(cfg, s.ch, text, timeDue, newPriv).1;
            && (r.Success? <==> Emittable(cfg, |s.sent.log|, text))
            && (r.Success? ==> Carries(cfg, h', |s.sent.log|, r.value))
  {
    SendKeepsRecording(cfg, s, text, timeDue, newPriv);
    Padding.PadRoundTrip(text);
    var h' := SendSide(cfg, s, text, timeDue, newPriv).sent;
    assert InEpoch(h', h'.log[|s.sent.log|].epoch, |s.sent.log|);
  }

  /** A later send neither changes nor adds a meaning to an earlier counter. */
  lemma EarlierFramesStay(cfg: Config, h: History, step: Option<Epoch>, text: Bytes, c: nat, p: Frame)
    requires h.epochs != [] && LoggedInEpoch(h) && Last(h).start <= |h.log|
    requires step.Some? ==> step.value.start == |h.log|
    requires c < |h.log|
    ensures Carries(cfg, Extend(h, step, text), c, p) <==> Carries(cfg, h, c, p)
    ensures Extend(h, step, text).log[c] == h.log[c]
  {
    var h' := Extend(h, step, text);
    ExtendInEpoch(h, step, text);
    assert h'.log[c] == h.log[c] && InEpoch(h', h'.log[c].epoch, c) && InEpoch(h, h.log[c].epoch, c);
  }

  lemma ReceiveKeepsSender(cfg: Config, s: Side, p: Frame)
    requires SenderInv(cfg, s)
    ensures SenderInv(cfg, ReceiveSide(cfg, s, p)) && ReceiveSide(cfg, s, p).sent == s.sent
  {
    DecryptKeepsSending(cfg, s.ch, p);
  }

  // ----- what was sent, over any run

  /** Event `i` of the run is a send by `who`, and `p` is the frame that `encrypt` returned. */
  predicate SentAt(cfg: Config, sys: Sys, es: seq<Event>, i: nat, who: Party, p: Frame) {
    && i < |es| && es[i].Send? && es[i].who == who
    && Encrypted(cfg, Mine(Run(cfg, sys, es[..i]), who).ch, es[i].text, es[i].timeDue, es[i].newPriv).1 == Success(p)
  }

  /** Both parties keep books. */
  predicate Recorded(sys: Sys) {
    Recording(sys.a) && Recording(sys.b)
  }

  lemma ReceiveKeepsRecording(cfg: Config, s: Side, p: Frame)
    requires Recording(s)
    ensures Recording(ReceiveSide(cfg, s, p)) && ReceiveSide(cfg, s, p).sent == s.sent
  {
    DecryptKeepsSending(cfg, s.ch, p);
  }

  lemma {:induction false} RunKeepsRecords(cfg: Config, sys: Sys, es: seq<Event>)
    requires Recorded(sys)
    ensures Recorded(Run(cfg, sys, es))
  {
    if es != [] {
      var before := Run(cfg, sys, es[..|es| - 1]);
      RunKeepsRecords(cfg, sys, es[..|es| - 1]);
      match es[|es| - 1]
      case Send(who, text, timeDue, newPriv) => SendKeepsRecording(cfg, Mine(before, who), text, timeDue, newPriv);
      case Receive(who, p) => ReceiveKeepsRecording(cfg, Mine(before, who), p);
    }
  }

  /** What one event does to the history of `who`. */
  lemma HistoryMoves(cfg: Config, sys: Sys, e: Event, who: Party)
    requires Recorded(sys)
    ensures Mine(Step(cfg, sys, e), who).sent ==
            if e.Send? && e.who == who
            then SendSide(cfg, Mine(sys, who), e.text, e.timeDue, e.newPriv).sent else Mine(sys, who).sent
  {
    if e.Receive? && e.who == who { ReceiveKeepsRecording(cfg, Mine(sys, who), e.frame); }
  }

  /** What one event does to the frame of an earlier counter: nothing. */
  lemma EventKeepsFrame(cfg: Config, sys: Sys, e: Event, who: Party, c: nat, p: Frame)
    requires Recorded(sys) && c < |Mine(sys, who).sent.log|
    ensures c < |Mine(Step(cfg, sys, e), who).sent.log|
    ensures Mine(Step(cfg, sys, e), who).sent.log[c] == Mine(sys, who).sent.log[c]
    ensures Carries(cfg, Mine(Step(cfg, sys, e), who).sent, c, p) <==> Carries(cfg, Mine(sys, who).sent, c, p)
  {
    HistoryMoves(cfg, sys, e, who);
    if e.Send? && e.who == who {
      var s := Mine(sys, who);
      EarlierFramesStay(cfg, s.sent, NewEpoch(cfg, s.ch, e.timeDue, e.newPriv), e.text, c, p);
    }
  }

  lemma SentIsCarriedAtOnce(cfg: Config, sys: Sys, e: Event, who: Party, p: Frame, c: nat)
    requires Recorded(sys) && e.Send? && e.who == who && c == |Mine(sys, who).sent.log|
    requires Encrypted(cfg, Mine(sys, who).ch, e.text, e.timeDue, e.newPriv).1 == Success(p)
    ensures Carries(cfg, Mine(Step(cfg, sys, e), who).sent, c, p)
    ensures Mine(Step(cfg, sys, e), who).sent.log[c].text == e.text
  {
    SendMakesFrame(cfg, Mine(sys, who), e.text, e.timeDue, e.newPriv);
  }

  /** A frame that `encrypt` returned is carried by the history ever after, with its text. */
  lemma {:induction false} SentIsCarried(cfg: Config, sys: Sys, es: seq<Event>, i: nat, who: Party, p: Frame, c: nat)
    requires Recorded(sys) && SentAt(cfg, sys, es, i, who, p)
    requires c == |Mine(Run(cfg, sys, es[..i]), who).sent.log|
    ensures Carries(cfg, Mine(Run(cfg, sys, es), who).sent, c, p)
    ensures Mine(Run(cfg, sys, es), who).sent.log[c].text == es[i].text
    decreases |es|
  {
    var before := es[..|es| - 1];
    RunKeepsRecords(cfg, sys, before);
    if i == |es| - 1 {
      SentIsCarriedAtOnce(cfg, Run(cfg, sys, before), es[i], who, p, c);
    } else {
      assert before[..i] == es[..i] && before[i] == es[i];
      SentIsCarried(cfg, sys, before, i, who, p, c);
      EventKeepsFrame(cfg, Run(cfg, sys, before), es[|es| - 1], who, c, p);
    }
  }

  /** The frame of the newest counter is the one that `encrypt` just returned. */
  lemma NewestWasSent(cfg: Config, s: Side, text: Bytes, timeDue: bool, newPriv: PrivKey, c: nat, p: Frame)
    requires Recording(s) && c == |s.sent.log|
    requires Carries(cfg, SendSide(cfg, s, text, timeDue, newPriv).sent, c, p)
    ensures Encrypted(cfg, s.ch, text, timeDue, newPriv).1 == Success(p)
    ensures SendSide(cfg, s, text, timeDue, newPriv).sent.log[c].text == text
  {
    SendMakesFrame(cfg, s, text, timeDue, newPriv);
  }

  /** A frame that the history carries was returned by `encrypt` in an earlier send, of the text it carries. */
  lemma {:induction false} CarriedWasSent(cfg: Config, sys: Sys, es: seq<Event>, who: Party, c: nat, p: Frame)
    returns (i: nat)
    requires Recorded(sys) && Mine(sys, who).sent.log == []
    requires Carries(cfg, Mine(Run(cfg, sys, es), who).sent, c, p)
    ensures SentAt(cfg, sys, es, i, who, p) && c == |Mine(Run(cfg, sys, es[..i]), who).sent.log|
    ensures es[i].text == Mine(Run(cfg, sys, es), who).sent.log[c].text
    decreases |es|
  {
    var last := |es| - 1;
    var before := Run(cfg, sys, es[..last]);
    var s := Mine(before, who);
    RunKeepsRecords(cfg, sys, es[..last]);
    HistoryMoves(cfg, before, es[last], who);
    if c < |s.sent.log| {
      EventKeepsFrame(cfg, before, es[last], who, c, p);
      i := CarriedWasSent(cfg, sys, es[..last], who, c, p);
      assert es[..last][..i] == es[..i] && es[..last][i] == es[i];
    } else {
      i := last;
      NewestWasSent(cfg, s, es[i].text, es[i].timeDue, es[i].newPriv, c, p);
    }
  }

  /** The same at any point of a run. */
  lemma CarriedWasSentBefore(cfg: Config, sys: Sys, es: seq<Event>, n: nat, who: Party, now: Side, c: nat, p: Frame)
    returns (i: nat)
    requires Recorded(sys) && Mine(sys, who).sent.log == []
    requires n <= |es| && now == Mine(Run(cfg, sys, es[..n]), who) && Carries(cfg, now.sent, c, p)
    ensures i < n && SentAt(cfg, sys, es, i, who, p) && es[i].text == now.sent.log[c].text
  {
    i := CarriedWasSent(cfg, sys, es[..n], who, c, p);
    assert es[..n][..i] == es[..i] && es[..n][i] == es[i];
  }

  // ----- the cadence of ratchet steps, over any run

  predicate Bounded(cfg: Config, s: Side) {
    s.sent.epochs != [] && AtEnd(s.sent, s.ch) && EpochsBounded(cfg, s.sent)
  }

  lemma SendKeepsBounded(cfg: Config, s: Side, text: Bytes, timeDue: bool, newPriv: PrivKey)
    requires Bounded(cfg, s)
    ensures Bounded(cfg, SendSide(cfg, s, text, timeDue, newPriv))
  {
    ExtendBounded(cfg, s.sent, NewEpoch(cfg, s.ch, timeDue, newPriv), text);
    SendStaysAtEnd(s.sent, cfg, s.ch, text, timeDue, newPriv);
  }

  lemma ReceiveKeepsBounded(cfg: Config, s: Side, p: Frame)
    requires Bounded(cfg, s)
    ensures Bounded(cfg, ReceiveSide(cfg, s, p))
  {
    DecryptKeepsSending(cfg, s.ch, p);
    assert ReceiveSide(cfg, s, p).sent == s.sent;
  }

  lemma StepKeepsBounded(cfg: Config, sys: Sys, e: Event)
    requires Bounded(cfg, sys.a) && Bounded(cfg, sys.b)
    ensures Bounded(cfg, Step(cfg, sys, e).a) && Bounded(cfg, Step(cfg, sys, e).b)
  {
    match e
    case Send(who, text, timeDue, newPriv) => SendKeepsBounded(cfg, Mine(sys, who), text, timeDue, newPriv);
    case Receive(who, p) => ReceiveKeepsBounded(cfg, Mine(sys, who), p);
  }

  /** From fresh channels, whatever is sent and whatever the network delivers, no epoch of either party
      ever carries more than max(1, rekeyInterval) frames. */
  lemma {:induction false} EpochsStayShort(cfg: Config, sys: Sys, es: seq<Event>)
    requires Bounded(cfg, sys.a) && Bounded(cfg, sys.b)
    ensures Bounded(cfg, Run(cfg, sys, es).a) && Bounded(cfg, Run(cfg, sys, es).b)
  {
    if es != [] {
      EpochsStayShort(cfg, sys, es[..|es| - 1]);
      StepKeepsBounded(cfg, Run(cfg, sys, es[..|es| - 1]), es[|es| - 1]);
    }
  }
}
