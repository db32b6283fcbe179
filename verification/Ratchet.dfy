/** `ratchet.py`: the symmetric KDF chains and the Diffie-Hellman step. */
module Ratchet {
  import opened Wrappers
  import opened SymbolicCrypto
  import SortedMaps

  const MAX_SKIP: nat := 1024

  /** One step of the symmetric ratchet: this step's message key and the next chain key. */
  function KdfChainStep(chainKey: Key): (Key, Key) {
    (MsgOf(chainKey), NextOf(chainKey))
  }

  /** The Diffie-Hellman ratchet: the new root key and a new chain key. */
  function DhRatchetStep(root: Key, dh: Secret): (Key, Key) {
    (RootOf(root, dh), ChainOf(root, dh))
  }

  /** The chain key after `n` steps from `seed`, and the message key of step `n`. */
  function ChainKey(seed: Key, n: nat): Key {
    if n == 0 then seed else NextOf(ChainKey(seed, n - 1))
  }

  function MessageKey(seed: Key, n: nat): Key {
    MsgOf(ChainKey(seed, n))
  }

  lemma {:induction false} ChainKeyAdds(seed: Key, m: nat, n: nat)
    ensures ChainKey(ChainKey(seed, m), n) == ChainKey(seed, m + n)
  {
    if n > 0 { ChainKeyAdds(seed, m, n - 1); }
  }

  /** A seed and a position determine a chain key and are determined by it. */
  lemma {:induction false} ChainKeyInjective(s: Key, m: nat, t: Key, n: nat)
    requires Origin(s) == s && Origin(t) == t
    requires ChainKey(s, m) == ChainKey(t, n)
    ensures s == t && m == n
  {
    if m > 0 && n > 0 {
      ChainKeyInjective(s, m - 1, t, n - 1);
    } else if m > 0 {
      OriginOfChainKey(s, m);
      assert t == NextOf(ChainKey(s, m - 1));
      OriginShrinks(ChainKey(s, m - 1), t);
    } else if n > 0 {
      OriginOfChainKey(t, n);
      assert s == NextOf(ChainKey(t, n - 1));
      OriginShrinks(ChainKey(t, n - 1), s);
    }
  }

  lemma {:induction false} OriginOfChainKey(seed: Key, n: nat)
    ensures Origin(ChainKey(seed, n)) == Origin(seed)
    ensures Origin(MessageKey(seed, n)) == Origin(seed)
  {
    if n > 0 { OriginOfChainKey(seed, n - 1); }
  }

  lemma {:induction false} OriginShrinks(c: Key, k: Key)
    requires k == NextOf(c)
    ensures Origin(k) != k
  {
    OriginIsSeed(c);
  }

  lemma {:induction false} OriginIsSeed(k: Key)
    ensures !Origin(k).NextOf? && !Origin(k).MsgOf?
  {
    match k
    case NextOf(c) => OriginIsSeed(c);
    case MsgOf(c) => OriginIsSeed(c);
    case _ =>
  }

  // ----- chain states

  datatype SendState = SendState(chainKey: Key, counter: nat)

  datatype RecvState = RecvState(chainKey: Key, next: nat, skipped: map<nat, Key>)

  datatype ChainDesync = AlreadyPassed | TooFarAhead

  function FreshChain(seed: Key): RecvState {
    RecvState(seed, 0, map[])
  }

  /** The cache once every index from `c.next` up to but not including `n` has been skipped. */
  function SkippedUpTo(c: RecvState, n: nat): map<nat, Key>
    requires c.next <= n
    decreases n
  {
    if n == c.next then c.skipped
    else SkippedUpTo(c, n - 1)[n - 1 := MessageKey(c.chainKey, n - 1 - c.next)]
  }

  lemma {:induction false} SkippedAt(c: RecvState, n: nat, i: nat)
    requires c.next <= n
    ensures i in SkippedUpTo(c, n) <==> i in c.skipped || c.next <= i < n
    ensures i in SkippedUpTo(c, n) ==>
              SkippedUpTo(c, n)[i] == if c.next <= i < n then MessageKey(c.chainKey, i - c.next) else c.skipped[i]
    decreases n
  {
    if c.next < n {
      SkippedAt(c, n - 1, i);
      assert SkippedUpTo(c, n) == SkippedUpTo(c, n - 1)[n - 1 := MessageKey(c.chainKey, n - 1 - c.next)];
    } else {
      assert SkippedUpTo(c, n) == c.skipped;
    }
  }

  lemma SkippedContents(c: RecvState, n: nat)
    requires c.next <= n
    ensures var m := SkippedUpTo(c, n);
            && (forall i: nat :: i in m <==> i in c.skipped || c.next <= i < n)
            && (forall i | i in m ::
                  m[i] == if c.next <= i < n then MessageKey(c.chainKey, i - c.next) else c.skipped[i])
  {
    var m := SkippedUpTo(c, n);
    forall i: nat
      ensures i in m <==> i in c.skipped || c.next <= i < n
      ensures i in m ==> m[i] == if c.next <= i < n then MessageKey(c.chainKey, i - c.next) else c.skipped[i]
    {
      SkippedAt(c, n, i);
    }
  }

  /** `ReceivingChain.key_for` on values. */
  function RecvKey(c: RecvState, n: nat): (RecvState, Result<Key, ChainDesync>) {
    if n in c.skipped then
      (c.(skipped := c.skipped - {n}), Success(c.skipped[n]))
    else if n < c.next then (c, Failure(AlreadyPassed))
    else if n - c.next > MAX_SKIP then (c, Failure(TooFarAhead))
    else
      (RecvState(ChainKey(c.chainKey, n - c.next + 1), n + 1,
                 SortedMaps.KeepHighest(SkippedUpTo(c, n), MAX_SKIP)),
       Success(MessageKey(c.chainKey, n - c.next)))
  }

  /** `SendingChain.next` on values. */
  function SendNext(s: SendState): (SendState, Key) {
    (SendState(KdfChainStep(s.chainKey).1, s.counter + 1), KdfChainStep(s.chainKey).0)
  }

  /** A chain's first key is always there to be had. */
  lemma FirstKey(seed: Key)
    ensures RecvKey(FreshChain(seed), 0) == (RecvState(NextOf(seed), 1, map[]), Success(MessageKey(seed, 0)))
    ensures ChainInv(RecvKey(FreshChain(seed), 0).0, seed, {0})
  {
    assert ChainKey(seed, 1) == NextOf(seed);
    SortedMaps.KeepHighestSize<Key>(map[], MAX_SKIP);
    KeyForKeepsInv(FreshChain(seed), seed, {}, 0);
  }

  // ----- the source's mutable chains

  class SendingChain {
    var chainKey: Key
    var counter: nat

    ghost function State(): SendState
      reads this
    {
      SendState(chainKey, counter)
    }

    constructor (seed: Key)
      ensures State() == SendState(seed, 0)
    {
      chainKey, counter := seed, 0;
    }

    method Next() returns (n: nat, key: Key)
      modifies this
      ensures State() == SendNext(old(State())).0
      ensures n == old(counter) && key == SendNext(old(State())).1
    {
      n := counter;
      var step := KdfChainStep(chainKey);
      key, chainKey := step.0, step.1;
      counter := counter + 1;
    }
  }

  class ReceivingChain {
    var chainKey: Key
    var nextCounter: nat
    var skipped: map<nat, Key>

    function State(): RecvState
      reads this
    {
      RecvState(chainKey, nextCounter, skipped)
    }

    constructor (seed: Key)
      ensures State() == FreshChain(seed)
    {
      chainKey, nextCounter, skipped := seed, 0, map[];
    }

    method KeyFor(n: nat) returns (r: Result<Key, ChainDesync>, steps: nat)
      modifies this
      ensures State() == RecvKey(old(State()), n).0 && r == RecvKey(old(State()), n).1
      ensures steps == nextCounter - old(nextCounter) <= MAX_SKIP + 1
    {
      steps := 0;
      if n in skipped {
        r := Success(skipped[n]);
        skipped := skipped - {n};
        return;
      }
      if n < nextCounter {
        return Failure(AlreadyPassed), 0;
      }
      if n - nextCounter > MAX_SKIP {
        return Failure(TooFarAhead), 0;
      }
      var key;
      key, steps := StepThrough(n);
      EvictExcessSkipped();
      r := Success(key);
    }

    /** The loop of `key_for`: derive every index up to `n`, caching all but the last. */
    method StepThrough(n: nat) returns (key: Key, steps: nat)
      requires nextCounter <= n
      modifies this
      ensures key == MessageKey(old(chainKey), n - old(nextCounter))
      ensures chainKey == ChainKey(old(chainKey), n - old(nextCounter) + 1)
      ensures nextCounter == n + 1 == old(nextCounter) + steps
      ensures skipped == SkippedUpTo(old(State()), n)
    {
      ghost var c := State();
      steps := 0;
      var found: Option<Key> := None;
      while nextCounter <= n
        invariant c.next <= nextCounter <= n + 1
        invariant steps == nextCounter - c.next
        invariant chainKey == ChainKey(c.chainKey, steps)
        invariant skipped == SkippedUpTo(c, if nextCounter <= n then nextCounter else n)
        invariant found == if nextCounter <= n then None else Some(MessageKey(c.chainKey, n - c.next))
      {
        var step := KdfChainStep(chainKey);
        chainKey := step.1;
        if nextCounter == n {
          found := Some(step.0);
        } else {
          skipped := skipped[nextCounter := step.0];
        }
        nextCounter := nextCounter + 1;
        steps := steps + 1;
      }
      key := found.value;
    }

    method EvictExcessSkipped()
      modifies this`skipped
      ensures skipped == SortedMaps.KeepHighest(old(skipped), MAX_SKIP)
    {
      skipped := SortedMaps.TrimToHighest(skipped, MAX_SKIP);
    }
  }

  // ----- what a sending chain yields

  function AfterSends(seed: Key, n: nat): SendState {
    if n == 0 then SendState(seed, 0) else SendNext(AfterSends(seed, n - 1)).0
  }

  /** The n-th call of `next` yields the message key of step n. */
  lemma {:induction false} NthSend(seed: Key, n: nat)
    ensures AfterSends(seed, n) == SendState(ChainKey(seed, n), n)
    ensures SendNext(AfterSends(seed, n)).1 == MessageKey(seed, n)
  {
    if n > 0 { NthSend(seed, n - 1); }
  }

  // ----- what a receiving chain keeps over any sequence of calls

  /** All of the chain's material lies on the KDF sequence of `seed`. */
  predicate OnSequence(c: RecvState, seed: Key) {
    && c.chainKey == ChainKey(seed, c.next)
    && forall i | i in c.skipped :: i < c.next && c.skipped[i] == MessageKey(seed, i)
  }

  /** `used` are the indices handed out so far. An index the chain has passed is handed out, cached,
      or more than MAX_SKIP behind the newest one. */
  ghost predicate ChainInv(c: RecvState, seed: Key, used: set<nat>) {
    && OnSequence(c, seed)
    && |c.skipped| <= MAX_SKIP
    && c.skipped.Keys !! used
    && (forall i | i in used :: i < c.next)
    && (c.next > 0 ==> c.next - 1 in used)
    && (forall i: nat | i < c.next :: i in c.skipped || i in used || i + MAX_SKIP + 2 <= c.next)
  }

  lemma SkippedOnSequence(c: RecvState, seed: Key, n: nat)
    requires OnSequence(c, seed) && c.next <= n
    ensures forall i | i in SkippedUpTo(c, n) :: i < n && SkippedUpTo(c, n)[i] == MessageKey(seed, i)
    ensures ChainKey(c.chainKey, n - c.next + 1) == ChainKey(seed, n + 1)
    ensures MessageKey(c.chainKey, n - c.next) == MessageKey(seed, n)
  {
    SkippedContents(c, n);
    forall i | c.next <= i <= n ensures ChainKey(c.chainKey, i - c.next) == ChainKey(seed, i) {
      ChainKeyAdds(seed, c.next, i - c.next);
    }
  }

  /** Whatever is asked of it, a chain stays on its own sequence and hands out only that sequence's keys. */
  lemma KeyForOnSequence(c: RecvState, seed: Key, n: nat)
    requires OnSequence(c, seed)
    ensures OnSequence(RecvKey(c, n).0, seed)
    ensures RecvKey(c, n).1.Success? ==> RecvKey(c, n).1.value == MessageKey(seed, n)
    ensures RecvKey(c, n).1.Failure? ==> RecvKey(c, n).0 == c
    ensures c.next <= RecvKey(c, n).0.next <= c.next + MAX_SKIP + 1
  {
    if n >= c.next { SkippedOnSequence(c, seed, n); }
  }

  /** Eviction only ever reaches indices more than MAX_SKIP behind. */
  lemma EvictedIsFarBehind(cache: map<nat, Key>, n: nat, e: nat)
    requires forall i | i in cache :: i < n
    requires e in cache && e !in SortedMaps.KeepHighest(cache, MAX_SKIP)
    ensures e + MAX_SKIP + 1 <= n
  {
    SortedMaps.IntervalSize(SortedMaps.Above(cache.Keys, e), e + 1, n);
  }

  lemma CachedKeyKeepsInv(c: RecvState, seed: Key, used: set<nat>, n: nat)
    requires ChainInv(c, seed, used) && n in c.skipped
    ensures ChainInv(RecvKey(c, n).0, seed, used + {n})
  {
    var c' := RecvKey(c, n).0;
    assert c'.skipped.Keys == c.skipped.Keys - {n};
    assert |c'.skipped.Keys| <= |c.skipped.Keys|;
  }

  lemma DerivedCache(c: RecvState, seed: Key, used: set<nat>, n: nat, i: nat)
    requires ChainInv(c, seed, used) && c.next <= n && i <= n
    ensures var kept := SortedMaps.KeepHighest(SkippedUpTo(c, n), MAX_SKIP);
            && (i in kept ==> i !in used && i < n)
            && (i !in kept ==> i in used || i == n || i + MAX_SKIP + 1 <= n)
  {
    var cache := SkippedUpTo(c, n);
    SkippedContents(c, n);
    if i in cache && i !in SortedMaps.KeepHighest(cache, MAX_SKIP) {
      EvictedIsFarBehind(cache, n, i);
    }
  }

  lemma DerivedChain(c: RecvState, n: nat, c': RecvState)
    requires n !in c.skipped && c.next <= n <= c.next + MAX_SKIP && c' == RecvKey(c, n).0
    ensures c'.next == n + 1 && c'.skipped == SortedMaps.KeepHighest(SkippedUpTo(c, n), MAX_SKIP)
    ensures |c'.skipped| <= MAX_SKIP
  {
    SortedMaps.KeepHighestSize(SkippedUpTo(c, n), MAX_SKIP);
  }

  lemma InvFromIndices(c: RecvState, seed: Key, used: set<nat>, n: nat)
    requires OnSequence(c, seed) && |c.skipped| <= MAX_SKIP && c.next == n + 1 && n in used
    requires forall i | i in used :: i <= n
    requires forall i: nat | i in c.skipped :: i !in used
    requires forall i: nat | i <= n :: i in c.skipped || i in used || i + MAX_SKIP + 1 <= n
    ensures ChainInv(c, seed, used)
  {
  }

  lemma DerivedKeyKeepsInv(c: RecvState, seed: Key, used: set<nat>, n: nat)
    requires ChainInv(c, seed, used) && n !in c.skipped && c.next <= n <= c.next + MAX_SKIP
    ensures ChainInv(RecvKey(c, n).0, seed, used + {n})
  {
    var c' := RecvKey(c, n).0;
    KeyForOnSequence(c, seed, n);
    DerivedChain(c, n, c');
    forall i: nat | i <= n
      ensures i in c'.skipped ==> i !in used && i < n
      ensures i !in c'.skipped ==> i in used || i == n || i + MAX_SKIP + 1 <= n
    {
      DerivedCache(c, seed, used, n, i);
    }
    InvFromIndices(c', seed, used + {n}, n);
  }

  lemma KeyForKeepsInv(c: RecvState, seed: Key, used: set<nat>, n: nat)
    requires ChainInv(c, seed, used)
    ensures ChainInv(RecvKey(c, n).0, seed, if RecvKey(c, n).1.Success? then used + {n} else used)
  {
    if n in c.skipped {
      CachedKeyKeepsInv(c, seed, used, n);
    } else if c.next <= n <= c.next + MAX_SKIP {
      DerivedKeyKeepsInv(c, seed, used, n);
    }
  }

  /** Exactly when a call succeeds, in terms of what has been handed out before. */
  lemma KeyForOutcome(c: RecvState, seed: Key, used: set<nat>, n: nat)
    requires ChainInv(c, seed, used)
    ensures var r := RecvKey(c, n).1;
            && (n in used ==> r == Failure(AlreadyPassed))
            && (n >= c.next ==> (r.Success? <==> n <= c.next + MAX_SKIP))
            && (n < c.next && n !in used && c.next <= n + MAX_SKIP + 1 ==> r.Success?)
            && (r.Success? ==> n !in used && r.value == MessageKey(seed, n))
  {
    KeyForOnSequence(c, seed, n);
  }

  /** An index not handed out and not more than MAX_SKIP behind is ahead of the chain or cached. */
  lemma KeyWithinReach(c: RecvState, seed: Key, used: set<nat>, n: nat)
    requires ChainInv(c, seed, used) && n !in used && c.next <= n + MAX_SKIP + 1
    ensures n >= c.next || n in c.skipped
    ensures RecvKey(c, n).1 == if n > c.next + MAX_SKIP then Failure(TooFarAhead) else Success(MessageKey(seed, n))
  {
    KeyForOutcome(c, seed, used, n);
  }

  // ----- whole runs

  /** The chain after a list of calls, and which indices it has handed out. */
  function AfterCalls(seed: Key, calls: seq<nat>): (RecvState, set<nat>) {
    if calls == [] then (FreshChain(seed), {})
    else
      var n := calls[|calls| - 1];
      var (c, used) := AfterCalls(seed, calls[..|calls| - 1]);
      var (c', r) := RecvKey(c, n);
      (c', if r.Success? then used + {n} else used)
  }

  function CallOutcome(seed: Key, calls: seq<nat>, i: nat): Result<Key, ChainDesync>
    requires i < |calls|
  {
    RecvKey(AfterCalls(seed, calls[..i]).0, calls[i]).1
  }

  lemma {:induction false} RunKeepsInv(seed: Key, calls: seq<nat>)
    ensures ChainInv(AfterCalls(seed, calls).0, seed, AfterCalls(seed, calls).1)
  {
    if calls != [] {
      RunKeepsInv(seed, calls[..|calls| - 1]);
      var (c, used) := AfterCalls(seed, calls[..|calls| - 1]);
      KeyForKeepsInv(c, seed, used, calls[|calls| - 1]);
    }
  }

  lemma {:induction false} UsedIsSucceeded(seed: Key, calls: seq<nat>, n: nat)
    ensures n in AfterCalls(seed, calls).1 <==>
            exists i | 0 <= i < |calls| :: calls[i] == n && CallOutcome(seed, calls, i).Success?
  {
    if calls != [] {
      var last := |calls| - 1;
      var before := calls[..last];
      UsedIsSucceeded(seed, before, n);
      forall i | 0 <= i < last ensures CallOutcome(seed, calls, i) == CallOutcome(seed, before, i) {
        assert before[..i] == calls[..i];
      }
      if n in AfterCalls(seed, calls).1 && n !in AfterCalls(seed, before).1 {
        assert calls[last] == n && CallOutcome(seed, calls, last).Success?;
      } else if n in AfterCalls(seed, before).1 {
        var i :| 0 <= i < |before| && before[i] == n && CallOutcome(seed, before, i).Success?;
        assert calls[i] == n && CallOutcome(seed, calls, i).Success?;
      }
    }
  }

  /** One of the first `i` calls asked for `n` and got it. */
  predicate GotBefore(seed: Key, calls: seq<nat>, i: nat, n: nat)
    requires i <= |calls|
  {
    exists j | 0 <= j < i :: calls[j] == n && CallOutcome(seed, calls, j).Success?
  }

  lemma GotBeforeIsUsed(seed: Key, calls: seq<nat>, i: nat, n: nat)
    requires i <= |calls|
    ensures GotBefore(seed, calls, i, n) <==> n in AfterCalls(seed, calls[..i]).1
  {
    var before := calls[..i];
    UsedIsSucceeded(seed, before, n);
    forall j: nat | j < i ensures CallOutcome(seed, calls, j) == CallOutcome(seed, before, j) && before[j] == calls[j] {
      assert before[..j] == calls[..j];
    }
  }

  /** Any order of calls: each success is the key the sender's chain yields for that index, no index succeeds twice, an
      index not asked for before succeeds whenever it is within MAX_SKIP of the chain's position on
      either side, one ahead of it succeeds only then, and the cache never outgrows MAX_SKIP. */
  lemma AnyOrderAgreement(seed: Key, calls: seq<nat>, i: nat)
    requires i < |calls|
    ensures var r := CallOutcome(seed, calls, i);
            var c := AfterCalls(seed, calls[..i]).0;
            && (r.Success? ==> r.value == SendNext(AfterSends(seed, calls[i])).1)
            && (r.Success? ==> !GotBefore(seed, calls, i, calls[i]))
            && (calls[i] >= c.next ==> (r.Success? <==> calls[i] <= c.next + MAX_SKIP))
            && (calls[i] < c.next <= calls[i] + MAX_SKIP + 1 ==> (r.Success? <==> !GotBefore(seed, calls, i, calls[i])))
            && |AfterCalls(seed, calls).0.skipped| <= MAX_SKIP
  {
    NthSend(seed, calls[i]);
    RunKeepsInv(seed, calls[..i]);
    RunKeepsInv(seed, calls);
    KeyForOutcome(AfterCalls(seed, calls[..i]).0, seed, AfterCalls(seed, calls[..i]).1, calls[i]);
    GotBeforeIsUsed(seed, calls, i, calls[i]);
  }

  // ----- what a captured receiving chain gives away

  function Captured(c: RecvState): Leak {
    Leak({}, {c.chainKey} + c.skipped.Values)
  }

  lemma {:induction false} CapturedChainKey(c: RecvState, seed: Key, i: nat)
    requires Origin(seed) == seed && OnSequence(c, seed)
    ensures Knows(Captured(c), ChainKey(seed, i)) <==> i >= c.next
  {
    if ChainKey(seed, i) == c.chainKey { ChainKeyInjective(seed, i, seed, c.next); }
    OriginIsSeed(seed);
    assert ChainKey(seed, i) !in c.skipped.Values;
    if i > 0 { CapturedChainKey(c, seed, i - 1); }
  }

  /** Forward secrecy of a chain, exactly: the message keys a captured receiving chain gives away are
      those it has not reached yet and those still waiting in its cache, and no others. */
  lemma CapturedChainLeaks(c: RecvState, seed: Key, i: nat)
    requires Origin(seed) == seed && OnSequence(c, seed)
    ensures Knows(Captured(c), MessageKey(seed, i)) <==> i >= c.next || i in c.skipped
  {
    CapturedChainKey(c, seed, i);
    if i in c.skipped {
      assert c.skipped[i] in c.skipped.Values;
    }
    if MessageKey(seed, i) in c.skipped.Values {
      var j :| j in c.skipped && c.skipped[j] == MessageKey(seed, i);
      ChainKeyInjective(seed, i, seed, j);
    }
    if MessageKey(seed, i) == c.chainKey {
      OriginIsSeed(seed);
    }
  }
}
