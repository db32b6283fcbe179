/** `decrypt` rejects without a trace: what a rejected frame can and cannot leave behind. */
module Rejection {
  import opened ByteCodec
  import opened Wrappers
  import opened SymbolicCrypto
  import opened Ratchet
  import opened ReplayWindow
  import opened Channel
  import opened TwoParty
  import SortedMaps

  /** Same channel, except that the chain to which `counter` is routed may have moved forward along its
      own KDF sequence. */
  ghost predicate OnlyRoutedChainMoved(c: Chan, counter: nat, c': Chan) {
    && c' == c.(recv := c'.recv) && c'.recv.Keys == c.recv.Keys
    && (forall k | k in c.recv && Route(c.recv.Keys, counter) != Some(k) :: c'.recv[k] == c.recv[k])
    && (forall k, seed | k in c.recv && OnSequence(c.recv[k], seed) :: OnSequence(c'.recv[k], seed))
  }

  lemma AskedOnlyMovesChain(c: Chan, counter: nat, start: nat, n: nat, chain: RecvState)
    requires start in c.recv && chain == RecvKey(c.recv[start], n).0 && Route(c.recv.Keys, counter) == Some(start)
    ensures OnlyRoutedChainMoved(c, counter, c.(recv := c.recv[start := chain]))
  {
    forall k, seed | k in c.recv && OnSequence(c.recv[k], seed) ensures OnSequence(c.recv[start := chain][k], seed) {
      if k == start { KeyForOnSequence(c.recv[start], seed, n); }
    }
  }

  lemma RejectedPlain(cfg: Config, c: Chan, p: Frame)
    requires p.Parsed? && DecryptPlain(cfg, c, p).1.Failure?
    ensures OnlyRoutedChainMoved(c, p.aad.counter, DecryptPlain(cfg, c, p).0)
    ensures DecryptPlain(cfg, c, p).1.error !in {BadTag, BadPadding} ==> DecryptPlain(cfg, c, p).0 == c
  {
    var route := Route(c.recv.Keys, p.aad.counter);
    if route.Some? {
      var n, asked := p.aad.counter - route.value, c.recv[route.value];
      DecryptPlainRouted(cfg, c, p, route.value, n, asked);
      AskedOnlyMovesChain(c, p.aad.counter, route.value, n, RecvKey(asked, n).0);
      if RecvKey(asked, n).1.Failure? {
        assert RecvKey(asked, n).0 == asked;
        assert c.recv[route.value := asked] == c.recv;
      }
    }
  }

  /** Main result, one call: a rejected frame leaves root key, peer key, epoch starts, owed flag, window and
      the whole sending half as they were. Unless it is a plain frame whose tag or padding is bad it leaves
      nothing behind at all, and then it moved only the chain it was routed to, along its own sequence. */
  lemma RejectionIsTransactional(cfg: Config, c: Chan, p: Frame)
    requires Decrypted(cfg, c, p).1.Failure?
    ensures Decrypted(cfg, c, p).0 == c || (p.Parsed? && OnlyRoutedChainMoved(c, p.aad.counter, Decrypted(cfg, c, p).0))
    ensures AnnouncesNewKey(c, p) || Decrypted(cfg, c, p).1.error !in {BadTag, BadPadding} ==>
              Decrypted(cfg, c, p).0 == c
  {
    if p.Parsed? && Check(cfg.windowSize, c.window, p.aad.counter) == Fresh && !AnnouncesNewKey(c, p) {
      RejectedPlain(cfg, c, p);
    }
  }

  // ----- what a rejected frame costs a genuine one

  /** Asking the chain for index `n` gets a key and so uses up the key of index `m`: they are the same, or
      `m` waits in the cache and there is no more room for it below the other keys once all keys up to `n`
      have been cached. */
  predicate UsesUp(c: RecvState, n: nat, m: nat) {
    && (n in c.skipped || c.next <= n <= c.next + MAX_SKIP)
    && (n == m || (c.next <= n && m in c.skipped && |SortedMaps.Above(c.skipped.Keys, m)| + n - c.next >= MAX_SKIP))
  }

  /** Both frames are plain and routed to one chain, and trying `p` there uses up the key of `q`. */
  predicate Burns(cfg: Config, c: Chan, p: Frame, q: Frame) {
    && p.Parsed? && q.Parsed? && !AnnouncesNewKey(c, p) && !AnnouncesNewKey(c, q)
    && Check(cfg.windowSize, c.window, p.aad.counter) == Fresh
    && var start := Route(c.recv.Keys, p.aad.counter);
    && start.Some? && start == Route(c.recv.Keys, q.aad.counter)
    && UsesUp(c.recv[start.value], p.aad.counter - start.value, q.aad.counter - start.value)
  }

  lemma OneMoreAbove(keys: set<nat>, x: nat, m: nat)
    requires x !in keys && x > m
    ensures |SortedMaps.Above(keys + {x}, m)| == |SortedMaps.Above(keys, m)| + 1
  {
    assert SortedMaps.Above(keys + {x}, m) == SortedMaps.Above(keys, m) + {x};
  }

  lemma NoneAbove(keys: set<nat>, m: nat)
    requires forall k | k in keys :: k <= m
    ensures |SortedMaps.Above(keys, m)| == 0
  {
    assert SortedMaps.Above(keys, m) == {};
  }

  /** How many keys are above `m` once all up to `n` have been cached. */
  lemma {:induction false} AboveOnceDerived(c: RecvState, n: nat, m: nat)
    requires c.next <= n && m < n && forall i | i in c.skipped :: i < c.next
    ensures |SortedMaps.Above(SkippedUpTo(c, n).Keys, m)| ==
            if m < c.next then |SortedMaps.Above(c.skipped.Keys, m)| + n - c.next else n - 1 - m
    decreases n
  {
    SkippedContents(c, n);
    if n > c.next && m == n - 1 {
      NoneAbove(SkippedUpTo(c, n).Keys, m);
    } else if n > c.next {
      SkippedContents(c, n - 1);
      AboveOnceDerived(c, n - 1, m);
      OneMoreAbove(SkippedUpTo(c, n - 1).Keys, n - 1, m);
      assert SkippedUpTo(c, n).Keys == SkippedUpTo(c, n - 1).Keys + {n - 1};
    }
  }

  lemma KeyAfterKey(c: RecvState, n: nat, m: nat, c': RecvState)
    requires c' == RecvKey(c, n).0 && RecvKey(c, m).1.Success?
    requires forall i | i in c.skipped :: i < c.next
    ensures if UsesUp(c, n, m) then RecvKey(c', m).1 == Failure(AlreadyPassed) else RecvKey(c', m).1 == RecvKey(c, m).1
  {
    if c.next <= n <= c.next + MAX_SKIP {
      SkippedContents(c, n);
      if m > n {
        ChainKeyAdds(c.chainKey, n - c.next + 1, m - n - 1);
      } else if m < n {
        AboveOnceDerived(c, n, m);
      }
    }
  }

  /** No chain has a key in its cache that it has yet to reach. */
  predicate CachesBehind(recv: map<nat, RecvState>) {
    forall k, i | k in recv && i in recv[k].skipped :: i < recv[k].next
  }

  lemma AskedCacheBehind(c: RecvState, n: nat)
    requires forall i | i in c.skipped :: i < c.next
    ensures forall i | i in RecvKey(c, n).0.skipped :: i < RecvKey(c, n).0.next
  {
    if c.next <= n { SkippedContents(c, n); }
  }

  /** A new channel's caches are empty, and no frame, accepted or not, puts a key ahead of its chain. */
  lemma CachesStayBehind(cfg: Config, c: Chan, p: Frame)
    requires CachesBehind(c.recv)
    ensures CachesBehind(Decrypted(cfg, c, p).0.recv)
  {
    if p.Parsed? {
      if AnnouncesNewKey(c, p) {
        FirstKey(ChainOf(c.root, Exchange(c.myPriv, p.aad.announce.value)));
      } else if Route(c.recv.Keys, p.aad.counter).Some? {
        var start := Route(c.recv.Keys, p.aad.counter).value;
        AskedCacheBehind(c.recv[start], p.aad.counter - start);
        DecryptPlainRouted(cfg, c, p, start, p.aad.counter - start, c.recv[start]);
      }
    }
  }

  /** So over any run, against any network. */
  lemma {:induction false} RunKeepsCachesBehind(cfg: Config, sys: Sys, es: seq<Event>)
    requires CachesBehind(sys.a.ch.recv) && CachesBehind(sys.b.ch.recv)
    ensures CachesBehind(Run(cfg, sys, es).a.ch.recv) && CachesBehind(Run(cfg, sys, es).b.ch.recv)
  {
    if es != [] {
      RunKeepsCachesBehind(cfg, sys, es[..|es| - 1]);
      StepKeepsCachesBehind(cfg, Run(cfg, sys, es[..|es| - 1]), es[|es| - 1]);
    }
  }

  lemma StepKeepsCachesBehind(cfg: Config, sys: Sys, e: Event)
    requires CachesBehind(sys.a.ch.recv) && CachesBehind(sys.b.ch.recv)
    ensures CachesBehind(Step(cfg, sys, e).a.ch.recv) && CachesBehind(Step(cfg, sys, e).b.ch.recv)
  {
    if e.Receive? { CachesStayBehind(cfg, Mine(sys, e.who).ch, e.frame); }
  }

  lemma PlainAfterPlain(cfg: Config, c: Chan, c': Chan, p: Frame, q: Frame, start: nat)
    requires p.Parsed? && q.Parsed? && CachesBehind(c.recv)
    requires Route(c.recv.Keys, p.aad.counter) == Some(start) == Route(c.recv.Keys, q.aad.counter)
    requires c' == AskChain(c, start, p.aad.counter - start) && DecryptPlain(cfg, c, q).1.Success?
    ensures DecryptPlain(cfg, c', q).1 ==
            if UsesUp(c.recv[start], p.aad.counter - start, q.aad.counter - start) then Failure(Desync(AlreadyPassed))
            else DecryptPlain(cfg, c, q).1
  {
    assert c'.recv.Keys == c.recv.Keys;
    KeyAfterKey(c.recv[start], p.aad.counter - start, q.aad.counter - start, c'.recv[start]);
  }

  lemma PlainAfterOther(cfg: Config, c: Chan, counter: nat, c': Chan, q: Frame)
    requires q.Parsed? && OnlyRoutedChainMoved(c, counter, c')
    requires Route(c.recv.Keys, counter) != Route(c.recv.Keys, q.aad.counter)
    ensures DecryptPlain(cfg, c', q).1 == DecryptPlain(cfg, c, q).1
  {
  }

  lemma AnnouncedAfterPlain(cfg: Config, c: Chan, counter: nat, c': Chan, q: Frame)
    requires OnlyRoutedChainMoved(c, counter, c') && AnnouncesNewKey(c, q)
    ensures AnnouncesNewKey(c', q) && DecryptAnnounced(cfg, c', q).1 == DecryptAnnounced(cfg, c, q).1
  {
  }

  lemma RejectedPlainAsks(cfg: Config, c: Chan, p: Frame)
    requires p.Parsed? && !AnnouncesNewKey(c, p) && Decrypted(cfg, c, p).1.Failure? && Decrypted(cfg, c, p).0 != c
    ensures Check(cfg.windowSize, c.window, p.aad.counter) == Fresh
    ensures var start := Route(c.recv.Keys, p.aad.counter);
            start.Some? && Decrypted(cfg, c, p).0 == AskChain(c, start.value, p.aad.counter - start.value)
  {
    assert Decrypted(cfg, c, p) == DecryptPlain(cfg, c, p);
    var route := Route(c.recv.Keys, p.aad.counter);
    DecryptPlainRouted(cfg, c, p, route.value, p.aad.counter - route.value, c.recv[route.value]);
  }

  lemma BurningChanges(cfg: Config, c: Chan, p: Frame, q: Frame)
    requires Burns(cfg, c, p, q) && Decrypted(cfg, c, p).1.Failure? && CachesBehind(c.recv)
    ensures Decrypted(cfg, c, p).0 != c
  {
    var start := Route(c.recv.Keys, p.aad.counter).value;
    var n := p.aad.counter - start;
    DecryptPlainRouted(cfg, c, p, start, n, c.recv[start]);
    assert RecvKey(c.recv[start], n).0 != c.recv[start];
    assert c.recv[start := RecvKey(c.recv[start], n).0][start] != c.recv[start];
  }

  /** A channel that differs only in its chains judges freshness and announcements alike. */
  lemma SameTriage(cfg: Config, c: Chan, c': Chan, q: Frame)
    requires c' == c.(recv := c'.recv) && Decrypted(cfg, c, q).1.Success?
    ensures q.Parsed? && AnnouncesNewKey(c', q) == AnnouncesNewKey(c, q)
    ensures AnnouncesNewKey(c, q) ==>
              && Decrypted(cfg, c, q) == DecryptAnnounced(cfg, c, q)
              && Decrypted(cfg, c', q) == DecryptAnnounced(cfg, c', q)
    ensures !AnnouncesNewKey(c, q) ==>
              Decrypted(cfg, c, q) == DecryptPlain(cfg, c, q) && Decrypted(cfg, c', q) == DecryptPlain(cfg, c', q)
  {
  }

  lemma SparedAfterAsking(cfg: Config, c: Chan, c': Chan, p: Frame, q: Frame, start: nat)
    requires p.Parsed? && !AnnouncesNewKey(c, p) && Check(cfg.windowSize, c.window, p.aad.counter) == Fresh
    requires Route(c.recv.Keys, p.aad.counter) == Some(start) && c' == AskChain(c, start, p.aad.counter - start)
    requires OnlyRoutedChainMoved(c, p.aad.counter, c')
    requires Decrypted(cfg, c, q).1.Success? && CachesBehind(c.recv)
    ensures Decrypted(cfg, c', q).1 ==
            if Burns(cfg, c, p, q) then Failure(Desync(AlreadyPassed)) else Decrypted(cfg, c, q).1
  {
    SameTriage(cfg, c, c', q);
    if AnnouncesNewKey(c, q) {
      AnnouncedAfterPlain(cfg, c, p.aad.counter, c', q);
    } else if Route(c.recv.Keys, q.aad.counter) != Some(start) {
      PlainAfterOther(cfg, c, p.aad.counter, c', q);
    } else {
      PlainAfterPlain(cfg, c, c', p, q, start);
    }
  }

  /** Main result, two calls: exactly when a rejected frame costs a genuine one. A frame that would have been
      accepted still is, with the same plaintext, if and only if the rejected one did not use up its key. */
  lemma RejectionSparesUnlessBurning(cfg: Config, c: Chan, p: Frame, q: Frame, c': Chan)
    requires Decrypted(cfg, c, p).1.Failure? && c' == Decrypted(cfg, c, p).0
    requires Decrypted(cfg, c, q).1.Success? && CachesBehind(c.recv)
    ensures Decrypted(cfg, c', q).1 ==
            if Burns(cfg, c, p, q) then Failure(Desync(AlreadyPassed)) else Decrypted(cfg, c, q).1
  {
    if c' == c {
      if Burns(cfg, c, p, q) { BurningChanges(cfg, c, p, q); }
    } else {
      RejectionIsTransactional(cfg, c, p);
      RejectedPlainAsks(cfg, c, p);
      SparedAfterAsking(cfg, c, c', p, q, Route(c.recv.Keys, p.aad.counter).value);
    }
  }

  // ----- any number of rejected frames

  function AfterFrames(cfg: Config, c: Chan, ps: seq<Frame>): Chan {
    if ps == [] then c else Decrypted(cfg, AfterFrames(cfg, c, ps[..|ps| - 1]), ps[|ps| - 1]).0
  }

  predicate AllRejected(cfg: Config, c: Chan, ps: seq<Frame>) {
    ps == [] || (AllRejected(cfg, c, ps[..|ps| - 1])
                 && Decrypted(cfg, AfterFrames(cfg, c, ps[..|ps| - 1]), ps[|ps| - 1]).1.Failure?)
  }

  /** One of the frames, when its turn comes, uses up the key of `q`. */
  predicate SomeBurns(cfg: Config, c: Chan, ps: seq<Frame>, q: Frame) {
    ps != [] && (SomeBurns(cfg, c, ps[..|ps| - 1], q)
                 || Burns(cfg, AfterFrames(cfg, c, ps[..|ps| - 1]), ps[|ps| - 1], q))
  }

  /** An index that is passed and not cached stays so, whatever else the chain is asked for. */
  lemma PassedStays(c: RecvState, n: nat, m: nat, c': RecvState)
    requires c' == RecvKey(c, n).0 && RecvKey(c, m).1 == Failure(AlreadyPassed)
    ensures RecvKey(c', m).1 == Failure(AlreadyPassed)
  {
    if c.next <= n && n !in c.skipped { SkippedContents(c, n); }
  }

  lemma BurnedIsPlain(cfg: Config, c: Chan, q: Frame, start: nat)
    requires Decrypted(cfg, c, q).1 == Failure(Desync(AlreadyPassed)) && q.Parsed?
    requires Route(c.recv.Keys, q.aad.counter) == Some(start)
    ensures !AnnouncesNewKey(c, q) && Check(cfg.windowSize, c.window, q.aad.counter) == Fresh
    ensures RecvKey(c.recv[start], q.aad.counter - start).1 == Failure(AlreadyPassed)
  {
    if AnnouncesNewKey(c, q) {
      FirstKey(ChainOf(c.root, Exchange(c.myPriv, q.aad.announce.value)));
    } else {
      DecryptPlainRouted(cfg, c, q, start, q.aad.counter - start, c.recv[start]);
    }
  }

  lemma BurnedIsRouted(cfg: Config, c: Chan, q: Frame)
    requires Decrypted(cfg, c, q).1 == Failure(Desync(AlreadyPassed))
    ensures q.Parsed? && Route(c.recv.Keys, q.aad.counter).Some?
  {
    if q.Parsed? && AnnouncesNewKey(c, q) {
      FirstKey(ChainOf(c.root, Exchange(c.myPriv, q.aad.announce.value)));
    }
  }

  lemma PassedIsRefused(cfg: Config, c: Chan, q: Frame, start: nat)
    requires q.Parsed? && !AnnouncesNewKey(c, q) && Check(cfg.windowSize, c.window, q.aad.counter) == Fresh
    requires Route(c.recv.Keys, q.aad.counter) == Some(start)
    requires RecvKey(c.recv[start], q.aad.counter - start).1 == Failure(AlreadyPassed)
    ensures Decrypted(cfg, c, q).1 == Failure(Desync(AlreadyPassed))
  {
    DecryptPlainRouted(cfg, c, q, start, q.aad.counter - start, c.recv[start]);
  }

  /** A burned frame stays burned. */
  lemma BurnedStays(cfg: Config, c: Chan, p: Frame, q: Frame, c': Chan)
    requires Decrypted(cfg, c, p).1.Failure? && c' == Decrypted(cfg, c, p).0
    requires Decrypted(cfg, c, q).1 == Failure(Desync(AlreadyPassed))
    ensures Decrypted(cfg, c', q).1 == Failure(Desync(AlreadyPassed))
  {
    if c' != c {
      RejectionIsTransactional(cfg, c, p);
      RejectedPlainAsks(cfg, c, p);
      BurnedIsRouted(cfg, c, q);
      var start, asked := Route(c.recv.Keys, q.aad.counter).value, Route(c.recv.Keys, p.aad.counter).value;
      BurnedIsPlain(cfg, c, q, start);
      if asked == start {
        PassedStays(c.recv[start], p.aad.counter - start, q.aad.counter - start, c'.recv[start]);
      }
      PassedIsRefused(cfg, c', q, start);
    }
  }

  /** Main result, any number of calls: a frame that would have been accepted still is after any list of
      rejected frames, with the same plaintext, if and only if none of them used up its key. */
  lemma {:induction false} RejectionsSpareUnlessOneBurns(cfg: Config, c: Chan, ps: seq<Frame>, q: Frame)
    requires AllRejected(cfg, c, ps) && Decrypted(cfg, c, q).1.Success? && CachesBehind(c.recv)
    ensures CachesBehind(AfterFrames(cfg, c, ps).recv)
    ensures Decrypted(cfg, AfterFrames(cfg, c, ps), q).1 ==
            if SomeBurns(cfg, c, ps, q) then Failure(Desync(AlreadyPassed)) else Decrypted(cfg, c, q).1
  {
    if ps != [] {
      var before, p := ps[..|ps| - 1], ps[|ps| - 1];
      var now := AfterFrames(cfg, c, before);
      RejectionsSpareUnlessOneBurns(cfg, c, before, q);
      CachesStayBehind(cfg, now, p);
      if SomeBurns(cfg, c, before, q) {
        BurnedStays(cfg, now, p, q, AfterFrames(cfg, c, ps));
      } else {
        RejectionSparesUnlessBurning(cfg, now, p, q, AfterFrames(cfg, c, ps));
      }
    }
  }

  lemma GarbageNeverOpens(cfg: Config, key: Result<Key, ChainDesync>, c: Chan, p: Frame)
    requires p.Parsed? && p.body.Garbage? && key.Success?
    ensures FinishPlain(cfg, c, key, p) == (c, Failure(BadTag))
  {
  }

  /** So a frame that is never authenticated can make its counter unusable: bytes that are no ciphertext,
      under the header of a plain frame yet to arrive, are rejected and leave that frame undecryptable. */
  lemma GarbageBurnsCounter(cfg: Config, c: Chan, q: Frame, p: Frame, c': Chan)
    requires Decrypted(cfg, c, q).1.Success? && !AnnouncesNewKey(c, q) && CachesBehind(c.recv)
    requires p.Parsed? && p.aad == q.aad && p.body.Garbage? && c' == Decrypted(cfg, c, p).0
    ensures Decrypted(cfg, c, p).1 == Failure(BadTag)
    ensures Decrypted(cfg, c', q).1 == Failure(Desync(AlreadyPassed))
  {
    var start := Route(c.recv.Keys, q.aad.counter).value;
    var n := q.aad.counter - start;
    DecryptPlainRouted(cfg, c, p, start, n, c.recv[start]);
    DecryptPlainRouted(cfg, c, q, start, n, c.recv[start]);
    GarbageNeverOpens(cfg, RecvKey(c.recv[start], n).1, AskChain(c, start, n), p);
    RejectionSparesUnlessBurning(cfg, c, p, q, c');
  }

  // ----- rejected announcements and a run without them

  datatype Output = Emitted(sent: Result<Frame, EncryptError>) | Delivered(got: Result<Bytes, DecryptError>)

  function OutputOf(cfg: Config, sys: Sys, e: Event): Output {
    match e
    case Send(who, text, timeDue, newPriv) => Emitted(Encrypted(cfg, Mine(sys, who).ch, text, timeDue, newPriv).1)
    case Receive(who, p) => Delivered(Decrypted(cfg, Mine(sys, who).ch, p).1)
  }

  /** The event is the rejection of a frame that announces an unknown key. */
  predicate Inert(cfg: Config, sys: Sys, e: Event) {
    && e.Receive? && AnnouncesNewKey(Mine(sys, e.who).ch, e.frame)
    && Decrypted(cfg, Mine(sys, e.who).ch, e.frame).1.Failure?
  }

  function WithoutInert(cfg: Config, sys: Sys, es: seq<Event>): seq<Event> {
    if es == [] then []
    else if Inert(cfg, Run(cfg, sys, es[..|es| - 1]), es[|es| - 1]) then WithoutInert(cfg, sys, es[..|es| - 1])
    else WithoutInert(cfg, sys, es[..|es| - 1]) + [es[|es| - 1]]
  }

  /** The outputs of all events of the run that are not inert. */
  function OtherOutputs(cfg: Config, sys: Sys, es: seq<Event>): seq<Output> {
    if es == [] then []
    else if Inert(cfg, Run(cfg, sys, es[..|es| - 1]), es[|es| - 1]) then OtherOutputs(cfg, sys, es[..|es| - 1])
    else OtherOutputs(cfg, sys, es[..|es| - 1]) + [OutputOf(cfg, Run(cfg, sys, es[..|es| - 1]), es[|es| - 1])]
  }

  function Outputs(cfg: Config, sys: Sys, es: seq<Event>): seq<Output> {
    if es == [] then [] else
    Outputs(cfg, sys, es[..|es| - 1]) + [OutputOf(cfg, Run(cfg, sys, es[..|es| - 1]), es[|es| - 1])]
  }

  predicate SameSides(s: Sys, t: Sys) {
    s.a == t.a && s.b == t.b
  }

  lemma SameSidesStep(cfg: Config, s: Sys, t: Sys, e: Event)
    requires SameSides(s, t)
    ensures SameSides(Step(cfg, s, e), Step(cfg, t, e)) && OutputOf(cfg, s, e) == OutputOf(cfg, t, e)
  {
  }

  lemma InertStep(cfg: Config, s: Sys, e: Event)
    requires Inert(cfg, s, e)
    ensures SameSides(Step(cfg, s, e), s)
  {
    RejectionIsTransactional(cfg, Mine(s, e.who).ch, e.frame);
  }

  lemma Snoc(cfg: Config, sys: Sys, es: seq<Event>, e: Event)
    ensures Run(cfg, sys, es + [e]) == Step(cfg, Run(cfg, sys, es), e)
    ensures Outputs(cfg, sys, es + [e]) == Outputs(cfg, sys, es) + [OutputOf(cfg, Run(cfg, sys, es), e)]
  {
    assert (es + [e])[..|es|] == es;
  }

  lemma ExtendInert(cfg: Config, sys: Sys, kept: seq<Event>, before: Sys, e: Event)
    requires SameSides(Run(cfg, sys, kept), before)
    ensures Inert(cfg, before, e) ==> SameSides(Run(cfg, sys, kept), Step(cfg, before, e))
    ensures SameSides(Run(cfg, sys, kept + [e]), Step(cfg, before, e))
    ensures Outputs(cfg, sys, kept + [e]) == Outputs(cfg, sys, kept) + [OutputOf(cfg, before, e)]
  {
    Snoc(cfg, sys, kept, e);
    SameSidesStep(cfg, Run(cfg, sys, kept), before, e);
    if Inert(cfg, before, e) { InertStep(cfg, before, e); }
  }

  /** Main result over runs: strike every rejected announcement of an unknown key from a run, and both
      parties end in the same state having produced the same outputs for everything else. */
  lemma {:induction false} InertFramesChangeNothing(cfg: Config, sys: Sys, es: seq<Event>)
    ensures SameSides(Run(cfg, sys, WithoutInert(cfg, sys, es)), Run(cfg, sys, es))
    ensures Outputs(cfg, sys, WithoutInert(cfg, sys, es)) == OtherOutputs(cfg, sys, es)
  {
    if es != [] {
      InertFramesChangeNothing(cfg, sys, es[..|es| - 1]);
      ExtendInert(cfg, sys, WithoutInert(cfg, sys, es[..|es| - 1]), Run(cfg, sys, es[..|es| - 1]), es[|es| - 1]);
    }
  }
}
