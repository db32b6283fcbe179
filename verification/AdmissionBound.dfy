/** What the limiter buys: with every attempt gated by `is_blocked`, as `server.py` does, an address gets
    only so many failures into any stretch of time no longer than the window. */
module AdmissionBound {
  import opened RateLimiter
  import opened RateLimiterRefinement

  /** Each failure of `key` follows an `is_blocked` that was answered "no", with no other failure of it in
      between, and the key never succeeds. `passed` says that such an answer is already behind us. */
  predicate Gated(answers: seq<Answer>, key: string, passed: bool, calls: seq<Call>)
    requires |answers| == |calls|
    decreases |calls|
  {
    calls == [] ||
    var c := calls[0];
    && !(c.Succeed? && c.key == key)
    && (c.Fail? && c.key == key ==> passed)
    && Gated(answers[1..], key, PassedAfter(answers[0], key, passed, c), calls[1..])
  }

  function PassedAfter(answer: Answer, key: string, passed: bool, c: Call): bool {
    if c.AskBlocked? && c.key == key then answer == Blocked(false)
    else if c.Fail? && c.key == key then false
    else passed
  }

  predicate Counted(c: Call, key: string, from: real, length: real) {
    c.Fail? && c.key == key && from <= c.now <= from + length
  }

  /** Failures of `key` between `from` and `from + length`. */
  function CountFailures(calls: seq<Call>, key: string, from: real, length: real): nat
    decreases |calls|
  {
    if calls == [] then 0
    else (if Counted(calls[0], key, from, length) then 1 else 0) + CountFailures(calls[1..], key, from, length)
  }

  function Bound(lim: Limits, length: real): int
    requires lim.cooldown > 0.0
  {
    lim.maxAttempts * ((length / lim.cooldown).Floor + 1)
  }

  predicate Sensible(lim: Limits, length: real) {
    lim.maxAttempts >= 1 && lim.cooldown > 0.0 && 0.0 <= length <= lim.window
  }

  /** What the books need of a deque and a block time, whatever the limiter's other entries. */
  predicate Books(lim: Limits, attempts: seq<real>, block: real, from: real, n: int, blocks: nat) {
    && |attempts| < lim.maxAttempts
    && n <= lim.maxAttempts * blocks + |Recent(attempts, from)|
    && (blocks > 0 ==> from + Served(blocks, lim.cooldown) <= block)
  }

  /** The time that many cooldowns take. */
  function Served(blocks: nat, cooldown: real): real {
    if blocks == 0 then 0.0 else Served(blocks - 1, cooldown) + cooldown
  }

  lemma {:induction false} ServedIsProduct(blocks: nat, cooldown: real)
    ensures Served(blocks, cooldown) == blocks as real * cooldown
  {
    if blocks > 0 {
      ServedIsProduct(blocks - 1, cooldown);
      assert blocks as real * cooldown == (blocks - 1) as real * cooldown + cooldown;
    }
  }

  /** `n` failures counted so far, `blocks` blocks imposed since `from`: each block accounts for at most
      maxAttempts of them, the rest are still in the deque, and each block has put `cooldown` behind us. */
  predicate Account(lim: Limits, m: Memory, now: real, key: string, passed: bool, from: real, n: int, blocks: nat) {
    && UpTo(Attempts(m, key), now)
    && (passed ==> key !in m.blockedUntil)
    && Books(lim, Attempts(m, key), if key in m.blockedUntil then m.blockedUntil[key] else now, from, n, blocks)
  }

  lemma {:induction false} RecentSize(s: seq<real>, oldest: real)
    ensures |Recent(s, oldest)| <= |s|
    ensures forall i | 0 <= i < |Recent(s, oldest)| :: Recent(s, oldest)[i] >= oldest
  {
    if s != [] { RecentSize(s[..|s| - 1], oldest); }
  }

  lemma {:induction false} NoneRecent(s: seq<real>, oldest: real)
    requires forall i | 0 <= i < |s| :: s[i] < oldest
    ensures Recent(s, oldest) == []
  {
    if s != [] { NoneRecent(s[..|s| - 1], oldest); }
  }

  lemma FloorBound(k: int, c: real, length: real)
    requires c > 0.0 && k as real * c <= length
    ensures k <= (length / c).Floor
  {
    var q := length / c;
    assert q * c == length;
    assert (q - k as real) * c >= 0.0;
    FactorNotNegative(q - k as real, c);
  }

  lemma FactorNotNegative(a: real, c: real)
    requires c > 0.0 && a * c >= 0.0
    ensures a >= 0.0
  {
  }

  lemma BoundGrows(lim: Limits, blocks: nat, length: real)
    requires Sensible(lim, length) && Served(blocks, lim.cooldown) <= length
    ensures lim.maxAttempts * (blocks + 1) <= Bound(lim, length)
  {
    ServedIsProduct(blocks, lim.cooldown);
    FloorBound(blocks, lim.cooldown, length);
    var f := (length / lim.cooldown).Floor;
    assert lim.maxAttempts * (f + 1) - lim.maxAttempts * (blocks + 1) == lim.maxAttempts * (f - blocks);
  }

  lemma FailureSize(lim: Limits, attempts: seq<real>, at: real, kept: seq<real>)
    requires UpTo(attempts, at) && kept == DropExpired(attempts + [at], at, lim.window)
    ensures UpTo(kept, at) && |kept| <= |attempts| + 1
  {
    FailureKept(lim, attempts, at, kept);
    RecentSize(attempts + [at], at - lim.window);
  }

  lemma RecentOfKept(attempts: seq<real>, at: real, oldest: real, from: real)
    requires oldest <= from <= at
    ensures Recent(Recent(attempts + [at], oldest), from) == Recent(attempts, from) + [at]
  {
    RecentTwice(attempts + [at], oldest, from);
    RecentAppend(attempts, at, from);
  }

  /** The deque after a failure, seen from `from`: the old recent ones and the new one, unless cleared. */
  lemma FailureDeque(lim: Limits, attempts: seq<real>, at: real, from: real, kept: seq<real>)
    requires UpTo(attempts, at) && kept == DropExpired(attempts + [at], at, lim.window)
    requires at - lim.window <= from <= at
    ensures Recent(kept, from) == Recent(attempts, from) + [at]
  {
    FailureKept(lim, attempts, at, kept);
    RecentOfKept(attempts, at, at - lim.window, from);
  }

  lemma OneMoreBlock(max: int, blocks: int)
    ensures max * (blocks + 1) == max * blocks + max
  {
  }

  lemma CountOneMore(lim: Limits, attempts: seq<real>, block: real, at: real, from: real, n: int, blocks: nat,
                     kept: seq<real>)
    requires lim.maxAttempts >= 1 && lim.cooldown > 0.0
    requires Books(lim, attempts, block, from, n, blocks) && block <= at && from <= at
    requires |kept| <= |attempts| + 1 && Recent(kept, from) == Recent(attempts, from) + [at]
    ensures n + 1 <= lim.maxAttempts * (blocks + 1)
    ensures |kept| < lim.maxAttempts ==> Books(lim, kept, at, from, n + 1, blocks)
    ensures |kept| >= lim.maxAttempts ==> Books(lim, [], at + lim.cooldown, from, n + 1, blocks + 1)
    ensures from + Served(blocks, lim.cooldown) <= at
  {
    RecentSize(kept, from);
    OneMoreBlock(lim.maxAttempts, blocks);
    assert |Recent(kept, from)| == |Recent(attempts, from)| + 1;
    assert Recent([], from) == [];
  }

  /** A failure inside the stretch. */
  lemma CountedFailure(lim: Limits, m: Memory, now: real, key: string, at: real, from: real, length: real, n: int,
                       blocks: nat)
    returns (blocks': nat)
    requires Sensible(lim, length) && Account(lim, m, now, key, true, from, n, blocks)
    requires now <= at && from <= at <= from + length
    ensures n + 1 <= Bound(lim, length)
    ensures Account(lim, MemFailure(lim, m, key, at), at, key, false, from, n + 1, blocks')
  {
    var attempts := Attempts(m, key);
    var kept := DropExpired(attempts + [at], at, lim.window);
    FailureSize(lim, attempts, at, kept);
    FailureDeque(lim, attempts, at, from, kept);
    CountOneMore(lim, attempts, now, at, from, n, blocks, kept);
    BoundGrows(lim, blocks, length);
    blocks' := if |kept| >= lim.maxAttempts then blocks + 1 else blocks;
    assert Attempts(MemFailure(lim, m, key, at), key) == if |kept| >= lim.maxAttempts then [] else kept;
  }

  /** A failure before the stretch begins. */
  lemma EarlyFailure(lim: Limits, m: Memory, now: real, key: string, at: real, from: real, n: int)
    requires lim.maxAttempts >= 1 && Account(lim, m, now, key, true, from, n, 0) && n <= 0
    requires now <= at < from
    ensures Account(lim, MemFailure(lim, m, key, at), at, key, false, from, n, 0)
  {
    FailureSize(lim, Attempts(m, key), at, DropExpired(Attempts(m, key) + [at], at, lim.window));
  }

  lemma OtherCall(lim: Limits, m: Memory, now: real, key: string, passed: bool, from: real, n: int, blocks: nat,
                  c: Call)
    requires Account(lim, m, now, key, passed, from, n, blocks) && now <= Clock(now, c)
    requires !(c.Fail? && c.key == key) && !(c.Succeed? && c.key == key)
    ensures Account(lim, MemCall(lim, m, c).0, Clock(now, c), key, PassedAfter(MemCall(lim, m, c).1, key, passed, c),
                    from, n, blocks)
  {
    assert Attempts(MemCall(lim, m, c).0, key) == Attempts(m, key);
  }

  lemma {:induction false} NothingCountedLater(now: real, calls: seq<Call>, key: string, from: real, length: real)
    requires Nondecreasing(now, calls) && now > from + length
    ensures CountFailures(calls, key, from, length) == 0
    decreases |calls|
  {
    if calls != [] { NothingCountedLater(Clock(now, calls[0]), calls[1..], key, from, length); }
  }

  lemma {:induction false} AccountHolds(lim: Limits, m: Memory, now: real, key: string, passed: bool,
                                        calls: seq<Call>, from: real, length: real, n: nat, blocks: nat)
    requires Sensible(lim, length) && Nondecreasing(now, calls) && Gated(MemAnswers(lim, m, calls), key, passed, calls)
    requires Account(lim, m, now, key, passed, from, n, blocks) && n <= Bound(lim, length)
    requires now < from ==> n == 0 && blocks == 0
    ensures n + CountFailures(calls, key, from, length) <= Bound(lim, length)
    decreases |calls|
  {
    if calls != [] {
      var c := calls[0];
      var later, m' := Clock(now, c), MemCall(lim, m, c).0;
      if later > from + length {
        NothingCountedLater(later, calls[1..], key, from, length);
      } else if !(c.Fail? && c.key == key) {
        OtherCall(lim, m, now, key, passed, from, n, blocks, c);
        AccountHolds(lim, m', later, key, PassedAfter(MemCall(lim, m, c).1, key, passed, c), calls[1..],
                     from, length, n, blocks);
      } else if c.now < from {
        EarlyFailure(lim, m, now, key, c.now, from, n);
        AccountHolds(lim, m', later, key, false, calls[1..], from, length, n, blocks);
      } else {
        var blocks' := CountedFailure(lim, m, now, key, c.now, from, length, n, blocks);
        AccountHolds(lim, m', later, key, false, calls[1..], from, length, n + 1, blocks');
      }
    }
  }

  /** Main result: any stretch no longer than the window holds at most maxAttempts failures per cooldown
      begun in it, whichever limiter answers at the gate. */
  lemma AdmittedFailuresBounded(lim: Limits, start: real, key: string, calls: seq<Call>, answers: seq<Answer>,
                                from: real, length: real)
    requires Sensible(lim, length) && Nondecreasing(start, calls)
    requires || answers == MemAnswers(lim, Memory(map[], map[]), calls)
             || answers == SqlAnswers(lim, Tables([], map[]), calls)
    requires Gated(answers, key, false, calls)
    ensures CountFailures(calls, key, from, length) <= lim.maxAttempts * ((length / lim.cooldown).Floor + 1)
  {
    SameAnswersFromStart(lim, start, calls);
    assert length / lim.cooldown >= 0.0;
    BoundGrows(lim, 0, length);
    AccountHolds(lim, Memory(map[], map[]), start, key, false, calls, from, length, 0, 0);
  }
}
