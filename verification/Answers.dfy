/** Every answer of `decrypt`, to any frame and in any state: which one it is follows from the bytes on the wire,
    the counters accepted before, and the keys the chains still have. */
module Answers {
  import opened ByteCodec
  import opened Wrappers
  import opened SymbolicCrypto
  import opened WireFormat
  import opened Ratchet
  import opened ReplayWindow
  import opened Channel
  import opened TwoParty
  import opened Authenticity
  import opened OnTheWire
  import Padding

  // ----- bytes that are no frame

  /** Shorter than a header, or than a header with a key if its first byte announces one, or with a first byte
      that means nothing. */
  predicate Unparsable(framed: Bytes) {
    || |framed| < 9
    || (framed[0] == 1 && |framed| < 41)
    || framed[0] > 1
  }

  lemma OnlyUnparsedIsMalformed(cfg: Config, c: Chan, p: Frame)
    ensures Decrypted(cfg, c, p).1 == Failure(Malformed) <==> !p.Parsed?
    ensures !p.Parsed? ==> Decrypted(cfg, c, p).0 == c
  {
  }

  /** For every byte string, in any state: exactly the unparsable ones are answered as malformed, an error that
      the receive loops catch, and they change nothing. */
  lemma MalformedExactly(cfg: Config, c: Chan, framed: Bytes, dec: Decode)
    ensures Decrypted(cfg, c, Understood(framed, dec)).1 == Failure(Malformed) <==> Unparsable(framed)
    ensures Unparsable(framed) ==> Decrypted(cfg, c, Understood(framed, dec)).0 == c
  {
    BuildParse(framed);
    OnlyUnparsedIsMalformed(cfg, c, Understood(framed, dec));
  }

  // ----- every answer

  /** A counter further on than the whole window was accepted. */
  predicate Overtaken(size: nat, accepted: set<nat>, counter: nat) {
    exists a | a in accepted :: a >= counter + size
  }

  predicate NewCounter(cfg: Config, accepted: set<nat>, p: Frame) {
    p.Parsed? && !Overtaken(cfg.windowSize, accepted, p.aad.counter) && p.aad.counter !in accepted
  }

  /** The last of the starts up to the counter. */
  predicate LastStart(starts: set<nat>, counter: nat, start: nat) {
    start in starts && start <= counter && forall k | k in starts && k <= counter :: k <= start
  }

  /** The chain has this key for index `n`, in its cache or within reach. */
  predicate Yields(c: RecvState, n: nat, key: Key) {
    || (n in c.skipped && key == c.skipped[n])
    || (n !in c.skipped && c.next <= n <= c.next + MAX_SKIP && key == MessageKey(c.chainKey, n - c.next))
  }

  /** The chain has no key for index `n`, for this reason. */
  predicate Refuses(c: RecvState, n: nat, why: ChainDesync) {
    n !in c.skipped && if why == AlreadyPassed then n < c.next else n > c.next + MAX_SKIP
  }

  /** The key that the frame is tried under: the first of the announced chain, or that of the frame's place in the
      chain it is routed to. */
  predicate TriedUnder(c: Chan, p: Frame, key: Key) {
    p.Parsed? &&
    if AnnouncesNewKey(c, p) then key == MsgOf(ChainOf(c.root, DH({c.myPriv.pub, p.aad.announce.value})))
    else exists start | start in c.recv ::
           LastStart(c.recv.Keys, p.aad.counter, start) && Yields(c.recv[start], p.aad.counter - start, key)
  }

  /** What was sealed says `text`: all of it, or what its length prefix covers. */
  predicate Says(cfg: Config, payload: Bytes, text: Bytes) {
    if cfg.padMessages then |text| <= Padding.MAX_PLAINTEXT_SIZE && Padding.BigEndianPrefix(|text|) + text <= payload
    else payload == text
  }

  predicate SealedUnder(p: Frame, key: Key) {
    p.Parsed? && p.body.Sealed? && p.body == Sealed(key, p.aad.counter, p.aad, p.body.payload)
  }

  /** When this is the answer. */
  ghost predicate Meets(cfg: Config, c: Chan, accepted: set<nat>, p: Frame, r: Result<Bytes, DecryptError>) {
    match r
    case Failure(Malformed) => !p.Parsed?
    case Failure(StaleCounter) => p.Parsed? && Overtaken(cfg.windowSize, accepted, p.aad.counter)
    case Failure(DuplicateCounter) =>
      p.Parsed? && !Overtaken(cfg.windowSize, accepted, p.aad.counter) && p.aad.counter in accepted
    case Failure(NoChain) =>
      NewCounter(cfg, accepted, p) && !AnnouncesNewKey(c, p) && forall k | k in c.recv :: k > p.aad.counter
    case Failure(Desync(why)) =>
      && NewCounter(cfg, accepted, p) && !AnnouncesNewKey(c, p)
      && exists start | start in c.recv ::
           LastStart(c.recv.Keys, p.aad.counter, start) && Refuses(c.recv[start], p.aad.counter - start, why)
    case Failure(BadTag) =>
      NewCounter(cfg, accepted, p) && exists key :: TriedUnder(c, p, key) && !SealedUnder(p, key)
    case Failure(BadPadding) =>
      && NewCounter(cfg, accepted, p)
      && exists key :: TriedUnder(c, p, key) && SealedUnder(p, key) && forall text :: !Says(cfg, p.body.payload, text)
    case Success(text) =>
      && NewCounter(cfg, accepted, p)
      && exists key :: TriedUnder(c, p, key) && SealedUnder(p, key) && Says(cfg, p.body.payload, text)
  }

  lemma CounterAnswers(cfg: Config, w: Window, accepted: set<nat>, counter: nat)
    requires Represents(cfg.windowSize, w, accepted)
    ensures Check(cfg.windowSize, w, counter) ==
            if Overtaken(cfg.windowSize, accepted, counter) then OlderThanWindow
            else if counter in accepted then Duplicate else Fresh
  {
    CheckIsVerdict(cfg.windowSize, w, accepted, counter);
    if w.highest >= 0 && w.highest - counter >= cfg.windowSize { assert w.highest in accepted; }
  }

  lemma Unsealing(cfg: Config, key: Key, p: Frame, r: Result<Bytes, DecryptError>)
    requires p.Parsed?
    ensures Unsealed(cfg, key, p) == r <==>
            match r
            case Success(text) => SealedUnder(p, key) && Says(cfg, p.body.payload, text)
            case Failure(BadTag) => !SealedUnder(p, key)
            case Failure(BadPadding) => SealedUnder(p, key) && forall text :: !Says(cfg, p.body.payload, text)
            case Failure(_) => false
  {
    if SealedUnder(p, key) {
      assert Open(key, p.aad.counter, p.aad, p.body) == Some(p.body.payload);
      forall text ensures Says(cfg, p.body.payload, text) <==> Unsealed(cfg, key, p) == Success(text) {
        if cfg.padMessages { Padding.UnpadAccepts(p.body.payload, text); }
      }
      if Unsealed(cfg, key, p).Success? {
        assert Says(cfg, p.body.payload, Unsealed(cfg, key, p).value);
      }
    }
  }

  lemma AskingAnswers(c: RecvState, n: nat)
    ensures forall key :: Yields(c, n, key) <==> RecvKey(c, n).1 == Success(key)
    ensures forall why :: Refuses(c, n, why) <==> RecvKey(c, n).1 == Failure(why)
  {
  }

  lemma LastStartIsRoute(starts: set<nat>, counter: nat, start: nat)
    ensures LastStart(starts, counter, start) <==> Route(starts, counter) == Some(start)
  {
    if LastStart(starts, counter, start) { RouteFinds(starts, counter, start); }
  }

  /** A new frame whose one key to try is `key`. */
  lemma TriedAnswers(cfg: Config, c: Chan, accepted: set<nat>, p: Frame, key: Key, r: Result<Bytes, DecryptError>)
    requires NewCounter(cfg, accepted, p) && forall k :: TriedUnder(c, p, k) <==> k == key
    requires r.Failure? && r.error.NoChain? ==> !Meets(cfg, c, accepted, p, r)
    requires r.Failure? && r.error.Desync? ==> !Meets(cfg, c, accepted, p, r)
    ensures Unsealed(cfg, key, p) == r <==> Meets(cfg, c, accepted, p, r)
  {
    Unsealing(cfg, key, p, r);
    assert TriedUnder(c, p, key);
  }

  lemma RoutedAnswers(cfg: Config, c: Chan, accepted: set<nat>, p: Frame, start: nat, r: Result<Bytes, DecryptError>)
    requires NewCounter(cfg, accepted, p) && !AnnouncesNewKey(c, p)
    requires start in c.recv && LastStart(c.recv.Keys, p.aad.counter, start)
    ensures DecryptPlain(cfg, c, p).1 == r <==> Meets(cfg, c, accepted, p, r)
  {
    var n, chain := p.aad.counter - start, c.recv[start];
    LastStartIsRoute(c.recv.Keys, p.aad.counter, start);
    DecryptPlainRouted(cfg, c, p, start, n, chain);
    AskingAnswers(chain, n);
    match RecvKey(chain, n).1
    case Success(key) =>
      assert Yields(chain, n, key);
      TriedAnswers(cfg, c, accepted, p, key, r);
    case Failure(why) =>
      assert Refuses(chain, n, why);
      assert forall key :: !TriedUnder(c, p, key);
  }

  /** Main result: in any state, for any frame, what the answer is. `accepted` are the counters accepted so far,
      which is what the window stands for (`FilterRefinesAcceptedSet`). */
  lemma EveryAnswer(cfg: Config, c: Chan, accepted: set<nat>, p: Frame, r: Result<Bytes, DecryptError>)
    requires Represents(cfg.windowSize, c.window, accepted)
    ensures Decrypted(cfg, c, p).1 == r <==> Meets(cfg, c, accepted, p, r)
  {
    if p.Parsed? {
      CounterAnswers(cfg, c.window, accepted, p.aad.counter);
      if NewCounter(cfg, accepted, p) {
        if AnnouncesNewKey(c, p) {
          var seed := ChainOf(c.root, Exchange(c.myPriv, p.aad.announce.value));
          FirstKey(seed);
          TriedAnswers(cfg, c, accepted, p, MsgOf(seed), r);
        } else {
          var route := Route(c.recv.Keys, p.aad.counter);
          if route.Some? {
            LastStartIsRoute(c.recv.Keys, p.aad.counter, route.value);
            RoutedAnswers(cfg, c, accepted, p, route.value, r);
          }
        }
      }
    }
  }

  // ----- the two errors of `encrypt`

  lemma EightByteCounters()
    ensures Pow256(COUNTER_SIZE) == 0x1_0000_0000_0000_0000
  {
    assert Pow256(4) == 256 * (256 * (256 * (256 * Pow256(0))));
    assert Pow256(8) == 256 * (256 * (256 * (256 * Pow256(4))));
  }

  /** Which error it is; in both cases the channel has moved on as if the frame had been made. */
  lemma EncryptErrors(cfg: Config, c: Chan, text: Bytes, timeDue: bool, newPriv: PrivKey, other: Bytes)
    ensures var (c', r) := Encrypted(cfg, c, text, timeDue, newPriv);
            && (r == Failure(CounterOverflow) <==> c.sendCounter >= 0x1_0000_0000_0000_0000)
            && (r == Failure(MessageTooLong) <==>
                  c.sendCounter < 0x1_0000_0000_0000_0000 && cfg.padMessages && |text| > 0xFFFF_FFFF)
            && c' == Encrypted(cfg, c, other, timeDue, newPriv).0
            && c'.sendCounter == c.sendCounter + 1
  {
    EightByteCounters();
    Padding.PadRoundTrip(text);
  }

  // ----- over any run

  /** Event `i` accepts a frame with this counter. */
  predicate TakesAt(cfg: Config, sys: Sys, es: seq<Event>, i: nat, who: Party, counter: nat) {
    && AcceptedAt(cfg, sys, es, i) && es[i].who == who
    && es[i].frame.Parsed? && es[i].frame.aad.counter == counter
  }

  predicate TakenIn(cfg: Config, sys: Sys, es: seq<Event>, who: Party, counter: nat) {
    exists i | 0 <= i < |es| :: TakesAt(cfg, sys, es, i, who, counter)
  }

  lemma TakesAtPrefix(cfg: Config, sys: Sys, es: seq<Event>, before: seq<Event>, i: nat, who: Party, counter: nat)
    requires i < |before| <= |es| && before == es[..|before|]
    ensures TakesAt(cfg, sys, before, i, who, counter) <==> TakesAt(cfg, sys, es, i, who, counter)
  {
    assert before[..i] == es[..i] && before[i] == es[i];
  }

  lemma TakenByLast(cfg: Config, sys: Sys, es: seq<Event>, before: seq<Event>, who: Party, counter: nat, last: nat)
    requires |es| == last + 1 && before == es[..last]
    ensures TakenIn(cfg, sys, es, who, counter) <==>
              TakenIn(cfg, sys, before, who, counter) || TakesAt(cfg, sys, es, last, who, counter)
  {
    if TakenIn(cfg, sys, before, who, counter) {
      var i :| 0 <= i < |before| && TakesAt(cfg, sys, before, i, who, counter);
      TakesAtPrefix(cfg, sys, es, before, i, who, counter);
    } else if TakenIn(cfg, sys, es, who, counter) {
      var i :| 0 <= i < |es| && TakesAt(cfg, sys, es, i, who, counter);
      if i < last { TakesAtPrefix(cfg, sys, es, before, i, who, counter); }
    }
  }

  lemma AcceptedByEvent(cfg: Config, sys: Sys, e: Event, who: Party, counter: nat)
    ensures counter in Mine(Step(cfg, sys, e), who).accepted <==>
            || counter in Mine(sys, who).accepted
            || (e.Receive? && e.who == who && e.frame.Parsed? && e.frame.aad.counter == counter
                && Decrypted(cfg, Mine(sys, who).ch, e.frame).1.Success?)
  {
  }

  lemma {:induction false} AcceptedIsTaken(cfg: Config, sys: Sys, es: seq<Event>, who: Party, counter: nat)
    requires Mine(sys, who).accepted == {}
    ensures counter in Mine(Run(cfg, sys, es), who).accepted <==> TakenIn(cfg, sys, es, who, counter)
  {
    if es != [] {
      var last := |es| - 1;
      AcceptedIsTaken(cfg, sys, es[..last], who, counter);
      AcceptedByEvent(cfg, Run(cfg, sys, es[..last]), es[last], who, counter);
      TakenByLast(cfg, sys, es, es[..last], who, counter, last);
    }
  }

  /** After any run of any events, whatever the network did: the answer to any further frame. */
  lemma EveryAnswerInRun(cfg: Config, d0: Secret, sys: Sys, es: seq<Event>, who: Party, now: Side, p: Frame,
                         r: Result<Bytes, DecryptError>)
    requires AuthSys(cfg, d0, sys) && sys.a.accepted == sys.b.accepted == {}
    requires now == Mine(Run(cfg, sys, es), who)
    ensures Decrypted(cfg, now.ch, p).1 == r <==> Meets(cfg, now.ch, now.accepted, p, r)
    ensures forall counter: nat :: counter in now.accepted <==> TakenIn(cfg, sys, es, who, counter)
  {
    RunKeepsAuth(cfg, d0, sys, es);
    EveryAnswer(cfg, now.ch, now.accepted, p, r);
    forall counter: nat ensures counter in now.accepted <==> TakenIn(cfg, sys, es, who, counter) {
      AcceptedIsTaken(cfg, sys, es, who, counter);
    }
  }
}
