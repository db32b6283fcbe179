/** Who is blocked, and when: exactly those whose failures since their last success or block filled the window, for
    one cooldown, whichever limiter answers. */
module Throttling {
  import opened Wrappers
  import opened RateLimiter
  import opened RateLimiterRefinement

  // ----- the rule, in terms of the calls alone

  /** How far back the window reaches. */
  function Horizon(lim: Limits, now: real): real {
    now - lim.window
  }

  /** How many of these times are no earlier than `oldest`. */
  function CountSince(times: seq<real>, oldest: real): nat {
    if times == [] then 0
    else CountSince(times[..|times| - 1], oldest) + if times[|times| - 1] >= oldest then 1 else 0
  }

  /** The call is a failure of the key that, with those before it in the window, fills the quota. */
  predicate Fills(lim: Limits, streak: seq<real>, key: string, c: Call) {
    c.Fail? && c.key == key && CountSince(streak + [c.now], Horizon(lim, c.now)) >= lim.maxAttempts
  }

  function NextStreak(lim: Limits, streak: seq<real>, key: string, c: Call): seq<real> {
    if Fills(lim, streak, key, c) || (c.Succeed? && c.key == key) then []
    else if c.Fail? && c.key == key then streak + [c.now]
    else streak
  }

  function NextBlock(lim: Limits, streak: seq<real>, block: Option<real>, key: string, c: Call): Option<real> {
    if Fills(lim, streak, key, c) then Some(c.now)
    else if c.Succeed? && c.key == key then None
    else block
  }

  /** When the key failed since its last success or block. */
  function Streak(lim: Limits, calls: seq<Call>, key: string): seq<real> {
    if calls == [] then [] else NextStreak(lim, Streak(lim, calls[..|calls| - 1], key), key, calls[|calls| - 1])
  }

  /** When the key was last blocked, unless it has succeeded since. */
  function LastBlock(lim: Limits, calls: seq<Call>, key: string): Option<real> {
    if calls == [] then None else
    var before, c := calls[..|calls| - 1], calls[|calls| - 1];
    NextBlock(lim, Streak(lim, before, key), LastBlock(lim, before, key), key, c)
  }

  lemma RuleStep(lim: Limits, calls: seq<Call>, key: string, c: Call)
    ensures Streak(lim, calls + [c], key) == NextStreak(lim, Streak(lim, calls, key), key, c)
    ensures LastBlock(lim, calls + [c], key) ==
            NextBlock(lim, Streak(lim, calls, key), LastBlock(lim, calls, key), key, c)
  {
    assert (calls + [c])[..|calls|] == calls;
  }

  /** The block lasts one cooldown. */
  predicate InCooldown(lim: Limits, block: Option<real>, now: real) {
    block.Some? && now < block.value + lim.cooldown
  }

  // ----- runs of the in-memory limiter

  const NOTHING: Memory := Memory(map[], map[])

  function StateFrom(lim: Limits, m: Memory, calls: seq<Call>): Memory
    decreases |calls|
  {
    if calls == [] then m else StateFrom(lim, MemCall(lim, m, calls[0]).0, calls[1..])
  }

  function ClockAfter(now: real, calls: seq<Call>): real
    decreases |calls|
  {
    if calls == [] then now else ClockAfter(Clock(now, calls[0]), calls[1..])
  }

  lemma {:induction false} OneMoreCall(lim: Limits, m: Memory, now: real, calls: seq<Call>, c: Call)
    ensures StateFrom(lim, m, calls + [c]) == MemCall(lim, StateFrom(lim, m, calls), c).0
    ensures ClockAfter(now, calls + [c]) == Clock(ClockAfter(now, calls), c)
    ensures Nondecreasing(now, calls + [c]) <==>
              Nondecreasing(now, calls) && ClockAfter(now, calls) <= Clock(ClockAfter(now, calls), c)
    ensures MemAnswers(lim, m, calls + [c]) ==
            MemAnswers(lim, m, calls) + [MemCall(lim, StateFrom(lim, m, calls), c).1]
    decreases |calls|
  {
    if calls == [] {
      assert [c][1..] == [];
    } else {
      OneMoreCall(lim, MemCall(lim, m, calls[0]).0, Clock(now, calls[0]), calls[1..], c);
      assert (calls + [c])[1..] == calls[1..] + [c];
    }
  }

  lemma {:induction false} CountIsRecent(times: seq<real>, oldest: real)
    ensures CountSince(times, oldest) == |Recent(times, oldest)|
  {
    if times != [] { CountIsRecent(times[..|times| - 1], oldest); }
  }

  // ----- the limiter follows the rule

  /** What the limiter holds for the key, against the calls so far. */
  predicate Follows(lim: Limits, m: Memory, key: string, now: real, streak: seq<real>, block: Option<real>) {
    && UpTo(Attempts(m, key), now)
    && Recent(Attempts(m, key), Horizon(lim, now)) == Recent(streak, Horizon(lim, now))
    && FollowsBlock(lim, m.blockedUntil, key, now, block)
  }

  predicate FollowsBlock(lim: Limits, blocked: map<string, real>, key: string, now: real, block: Option<real>) {
    if key in blocked then block == Some(blocked[key] - lim.cooldown)
    else block.Some? ==> now >= block.value + lim.cooldown
  }

  lemma FollowsLater(lim: Limits, m: Memory, key: string, now: real, later: real, streak: seq<real>,
                     block: Option<real>)
    requires Follows(lim, m, key, now, streak, block) && now <= later
    ensures Follows(lim, m, key, later, streak, block)
  {
    RecentTwice(Attempts(m, key), Horizon(lim, now), Horizon(lim, later));
    RecentTwice(streak, Horizon(lim, now), Horizon(lim, later));
  }

  /** Two lists of the same recent times, each with one more. */
  lemma LongerAlike(a: seq<real>, b: seq<real>, now: real, oldest: real, kept: seq<real>, longer: seq<real>)
    requires Recent(a, oldest) == Recent(b, oldest)
    requires kept == Recent(a + [now], oldest) && longer == b + [now]
    ensures Recent(kept, oldest) == kept == Recent(longer, oldest) && |kept| == CountSince(longer, oldest)
  {
    SameRecentAndOneMore(a, b, now, oldest);
    CountIsRecent(longer, oldest);
  }

  lemma KeptIsRecent(lim: Limits, attempts: seq<real>, now: real, kept: seq<real>)
    requires UpTo(attempts, now) && kept == DropExpired(attempts + [now], now, lim.window)
    ensures UpTo(kept, now) && kept == Recent(attempts + [now], Horizon(lim, now))
  {
    FailureKept(lim, attempts, now, kept);
  }

  lemma FailureState(lim: Limits, m: Memory, key: string, now: real, kept: seq<real>, m': Memory)
    requires kept == DropExpired(Attempts(m, key) + [now], now, lim.window) && m' == MemFailure(lim, m, key, now)
    ensures Attempts(m', key) == if |kept| >= lim.maxAttempts then [] else kept
    ensures if |kept| >= lim.maxAttempts then key in m'.blockedUntil && m'.blockedUntil[key] == now + lim.cooldown
            else m'.blockedUntil == m.blockedUntil
  {
  }

  lemma FailureFollows(lim: Limits, m: Memory, key: string, now: real, streak: seq<real>, block: Option<real>,
                       m': Memory, fills: bool)
    requires Follows(lim, m, key, now, streak, block) && m' == MemFailure(lim, m, key, now)
    requires fills <==> Fills(lim, streak, key, Fail(key, now))
    ensures if fills then Follows(lim, m', key, now, [], Some(now))
            else Follows(lim, m', key, now, streak + [now], block)
  {
    var kept := DropExpired(Attempts(m, key) + [now], now, lim.window);
    KeptIsRecent(lim, Attempts(m, key), now, kept);
    LongerAlike(Attempts(m, key), streak, now, Horizon(lim, now), kept, streak + [now]);
    FailureState(lim, m, key, now, kept, m');
  }

  lemma CallFollows(lim: Limits, m: Memory, key: string, now: real, streak: seq<real>, block: Option<real>, c: Call)
    requires now == Clock(now, c) && Follows(lim, m, key, now, streak, block)
    ensures Follows(lim, MemCall(lim, m, c).0, key, now,
                    NextStreak(lim, streak, key, c), NextBlock(lim, streak, block, key, c))
  {
    var m' := MemCall(lim, m, c).0;
    if c.Fail? && c.key == key {
      FailureFollows(lim, m, key, now, streak, block, m', Fills(lim, streak, key, c));
    } else if !(c.Succeed? && c.key == key) {
      assert Attempts(m', key) == Attempts(m, key);
    }
  }

  lemma {:induction false} LimiterFollows(lim: Limits, start: real, calls: seq<Call>, key: string)
    requires Nondecreasing(start, calls)
    ensures Follows(lim, StateFrom(lim, NOTHING, calls), key, ClockAfter(start, calls),
                    Streak(lim, calls, key), LastBlock(lim, calls, key))
  {
    if calls != [] {
      var before, c := calls[..|calls| - 1], calls[|calls| - 1];
      assert calls == before + [c];
      OneMoreCall(lim, NOTHING, start, before, c);
      LimiterFollows(lim, start, before, key);
      var now := ClockAfter(start, before);
      FollowsLater(lim, StateFrom(lim, NOTHING, before), key, now, Clock(now, c),
                   Streak(lim, before, key), LastBlock(lim, before, key));
      CallFollows(lim, StateFrom(lim, NOTHING, before), key, Clock(now, c),
                  Streak(lim, before, key), LastBlock(lim, before, key), c);
      RuleStep(lim, before, key, c);
    }
  }

  lemma BlockedByRule(lim: Limits, m: Memory, key: string, now: real, streak: seq<real>, block: Option<real>)
    requires Follows(lim, m, key, now, streak, block)
    ensures MemIsBlocked(m, key, now).1 <==> InCooldown(lim, block, now)
    ensures MemSecondsLeft(m, key, now) == if InCooldown(lim, block, now) then block.value + lim.cooldown - now else 0.0
  {
  }

  /** Main result: ask either limiter about a key after any calls with nondecreasing times. It says "blocked" if and
      only if the key's failures have filled the quota of a window, with no success since, less than one
      cooldown ago; and how long to wait is what is left of that cooldown. */
  lemma BlockedExactly(lim: Limits, start: real, calls: seq<Call>, key: string, now: real, ask: Call)
    requires ask in {AskBlocked(key, now), AskSeconds(key, now)} && Nondecreasing(start, calls + [ask])
    ensures MemAnswers(lim, NOTHING, calls + [ask])[|calls|] ==
            SqlAnswers(lim, Tables([], map[]), calls + [ask])[|calls|]
    ensures MemAnswers(lim, NOTHING, calls + [ask])[|calls|] ==
            var block := LastBlock(lim, calls, key);
            if ask.AskBlocked? then Blocked(InCooldown(lim, block, now))
            else Seconds(if InCooldown(lim, block, now) then block.value + lim.cooldown - now else 0.0)
  {
    SameAnswersFromStart(lim, start, calls + [ask]);
    OneMoreCall(lim, NOTHING, start, calls, ask);
    LimiterFollows(lim, start, calls, key);
    var m := StateFrom(lim, NOTHING, calls);
    FollowsLater(lim, m, key, ClockAfter(start, calls), now, Streak(lim, calls, key), LastBlock(lim, calls, key));
    BlockedByRule(lim, m, key, now, Streak(lim, calls, key), LastBlock(lim, calls, key));
  }

  // ----- what follows for the key's owner

  /** When the key failed at all. */
  function Failures(calls: seq<Call>, key: string): seq<real> {
    if calls == [] then [] else
    var c := calls[|calls| - 1];
    if c.Fail? && c.key == key then Failures(calls[..|calls| - 1], key) + [c.now]
    else Failures(calls[..|calls| - 1], key)
  }

  lemma CountOneMoreTime(times: seq<real>, time: real, oldest: real)
    ensures CountSince(times + [time], oldest) == CountSince(times, oldest) + if time >= oldest then 1 else 0
  {
    assert (times + [time])[..|times|] == times;
  }

  lemma {:induction false} StreakIsOfFailures(lim: Limits, calls: seq<Call>, key: string, oldest: real)
    ensures CountSince(Streak(lim, calls, key), oldest) <= CountSince(Failures(calls, key), oldest)
  {
    if calls != [] {
      var before, c := calls[..|calls| - 1], calls[|calls| - 1];
      StreakIsOfFailures(lim, before, key, oldest);
      if c.Fail? {
        CountOneMoreTime(Streak(lim, before, key), c.now, oldest);
        CountOneMoreTime(Failures(before, key), c.now, oldest);
      }
    }
  }

  /** Call `i`, if it is a failure of the key, leaves fewer of them within the window than the quota. */
  predicate ModerateAt(lim: Limits, calls: seq<Call>, key: string, i: nat)
    requires i < |calls|
  {
    calls[i].Fail? && calls[i].key == key ==>
      CountSince(Failures(calls[..i + 1], key), Horizon(lim, calls[i].now)) < lim.maxAttempts
  }

  predicate Moderate(lim: Limits, calls: seq<Call>, key: string) {
    forall i: nat | i < |calls| :: ModerateAt(lim, calls, key, i)
  }

  lemma ModeratePrefix(lim: Limits, calls: seq<Call>, key: string, last: nat)
    requires Moderate(lim, calls, key) && last <= |calls|
    ensures Moderate(lim, calls[..last], key)
  {
    forall i: nat | i < last ensures ModerateAt(lim, calls[..last], key, i) {
      assert ModerateAt(lim, calls, key, i) && calls[..last][..i + 1] == calls[..i + 1];
    }
  }

  lemma FewerStayFewer(times: seq<real>, more: seq<real>, now: real, oldest: real, limit: int)
    requires CountSince(times, oldest) <= CountSince(more, oldest) && CountSince(more + [now], oldest) < limit
    ensures CountSince(times + [now], oldest) < limit
  {
    CountOneMoreTime(times, now, oldest);
    CountOneMoreTime(more, now, oldest);
  }

  lemma ModerateDoesNotFill(lim: Limits, calls: seq<Call>, key: string, before: seq<Call>, c: Call)
    requires calls == before + [c] && ModerateAt(lim, calls, key, |before|)
    ensures !Fills(lim, Streak(lim, before, key), key, c)
  {
    if c.Fail? && c.key == key {
      assert calls[..|before| + 1] == calls && calls[..|before|] == before;
      StreakIsOfFailures(lim, before, key, Horizon(lim, c.now));
      assert Failures(calls, key) == Failures(before, key) + [c.now];
      FewerStayFewer(Streak(lim, before, key), Failures(before, key), c.now, Horizon(lim, c.now), lim.maxAttempts);
    }
  }

  lemma {:induction false} ModerateIsNotBlocked(lim: Limits, calls: seq<Call>, key: string)
    requires Moderate(lim, calls, key)
    ensures LastBlock(lim, calls, key) == None
  {
    if calls != [] {
      var last := |calls| - 1;
      ModeratePrefix(lim, calls, key, last);
      ModerateIsNotBlocked(lim, calls[..last], key);
      assert calls[..last] + [calls[last]] == calls && ModerateAt(lim, calls, key, last);
      ModerateDoesNotFill(lim, calls, key, calls[..last], calls[last]);
    }
  }

  /** Safe for the moderate: a key that never failed as often as the quota within one window is never blocked. */
  lemma ModerateKeysStayFree(lim: Limits, start: real, calls: seq<Call>, key: string, now: real)
    requires Moderate(lim, calls, key) && Nondecreasing(start, calls + [AskBlocked(key, now)])
    ensures MemAnswers(lim, NOTHING, calls + [AskBlocked(key, now)])[|calls|] == Blocked(false)
    ensures SqlAnswers(lim, Tables([], map[]), calls + [AskBlocked(key, now)])[|calls|] == Blocked(false)
  {
    ModerateIsNotBlocked(lim, calls, key);
    BlockedExactly(lim, start, calls, key, now, AskBlocked(key, now));
  }

  predicate FillsAt(lim: Limits, before: seq<Call>, more: seq<Call>, key: string, i: nat) {
    i < |more| && Fills(lim, Streak(lim, before + more[..i], key), key, more[i])
  }

  lemma FillsAtPrefix(lim: Limits, before: seq<Call>, more: seq<Call>, key: string, n: nat)
    requires n <= |more| && forall j: nat :: !FillsAt(lim, before, more, key, j)
    ensures forall j: nat :: !FillsAt(lim, before, more[..n], key, j)
  {
    forall j: nat ensures !FillsAt(lim, before, more[..n], key, j) {
      if j < n { assert !FillsAt(lim, before, more, key, j) && more[..n][..j] == more[..j]; }
    }
  }

  /** As long as nothing is filled and nothing succeeds, every failure is remembered. */
  lemma {:induction false} FailuresPile(lim: Limits, before: seq<Call>, more: seq<Call>, key: string, oldest: real)
    requires forall c | c in more :: !(c.Succeed? && c.key == key)
    requires forall i: nat :: !FillsAt(lim, before, more, key, i)
    ensures CountSince(Streak(lim, before + more, key), oldest) >= CountSince(Failures(more, key), oldest)
  {
    if more != [] {
      var last := |more| - 1;
      var init, c := more[..last], more[last];
      assert (before + more)[..|before + more| - 1] == before + init && (before + more)[|before + more| - 1] == c;
      FillsAtPrefix(lim, before, more, key, last);
      FailuresPile(lim, before, init, key, oldest);
      assert !FillsAt(lim, before, more, key, last);
      if c.Fail? && c.key == key {
        CountOneMoreTime(Streak(lim, before + init, key), c.now, oldest);
        CountOneMoreTime(Failures(init, key), c.now, oldest);
      }
    }
  }

  lemma MoreStayMore(times: seq<real>, fewer: seq<real>, now: real, oldest: real, limit: int)
    requires CountSince(times, oldest) >= CountSince(fewer, oldest) && CountSince(fewer + [now], oldest) >= limit
    ensures CountSince(times + [now], oldest) >= limit
  {
    CountOneMoreTime(times, now, oldest);
    CountOneMoreTime(fewer, now, oldest);
  }

  lemma FilledByLast(lim: Limits, before: seq<Call>, more: seq<Call>, key: string, now: real, init: seq<Call>)
    requires more == init + [Fail(key, now)] && forall c | c in init :: !(c.Succeed? && c.key == key)
    requires CountSince(Failures(more, key), Horizon(lim, now)) >= lim.maxAttempts
    requires forall j: nat :: !FillsAt(lim, before, init, key, j)
    ensures FillsAt(lim, before, more, key, |init|)
  {
    FailuresPile(lim, before, init, key, Horizon(lim, now));
    assert more[..|init|] == init && Failures(more, key) == Failures(init, key) + [now];
    MoreStayMore(Streak(lim, before + init, key), Failures(init, key), now, Horizon(lim, now), lim.maxAttempts);
  }

  /** And no mercy for the others: among calls without a success of the key, as many failures as the quota within
      one window bring a block, whatever came before. */
  lemma EnoughFailuresBlock(lim: Limits, before: seq<Call>, more: seq<Call>, key: string, now: real)
    returns (i: nat)
    requires more != [] && more[|more| - 1] == Fail(key, now)
    requires forall c | c in more :: !(c.Succeed? && c.key == key)
    requires CountSince(Failures(more, key), Horizon(lim, now)) >= lim.maxAttempts
    ensures i < |more| && more[i].Fail? && more[i].key == key
    ensures LastBlock(lim, before + more[..i + 1], key) == Some(more[i].now)
  {
    i := |more| - 1;
    if exists j: nat :: FillsAt(lim, before, more, key, j) {
      i :| FillsAt(lim, before, more, key, i);
    } else {
      FillsAtPrefix(lim, before, more, key, i);
      assert more == more[..i] + [more[i]];
      FilledByLast(lim, before, more, key, now, more[..i]);
    }
    assert FillsAt(lim, before, more, key, i);
    var upTo := before + more[..i + 1];
    assert upTo[..|upTo| - 1] == before + more[..i] && upTo[|upTo| - 1] == more[i];
  }

  /** The rule remembers the same about the key. */
  predicate Alike(lim: Limits, a: seq<Call>, b: seq<Call>, key: string) {
    Streak(lim, a, key) == Streak(lim, b, key) && LastBlock(lim, a, key) == LastBlock(lim, b, key)
  }

  lemma AlikeAfterOneMore(lim: Limits, a: seq<Call>, b: seq<Call>, key: string, c: Call)
    requires Alike(lim, a, b, key)
    ensures Alike(lim, a + [c], b + [c], key)
  {
    RuleStep(lim, a, key, c);
    RuleStep(lim, b, key, c);
  }

  lemma Regroup(a: seq<Call>, init: seq<Call>, c: Call, more: seq<Call>)
    requires more == init + [c]
    ensures a + more == a + init + [c]
  {
  }

  lemma {:induction false} AlikeFromThenOn(lim: Limits, a: seq<Call>, b: seq<Call>, key: string, more: seq<Call>)
    requires Alike(lim, a, b, key)
    ensures Alike(lim, a + more, b + more, key)
    decreases |more|
  {
    if more == [] {
      assert a + more == a && b + more == b;
    } else {
      var init, c := more[..|more| - 1], more[|more| - 1];
      AlikeFromThenOn(lim, a, b, key, init);
      AlikeAfterOneMore(lim, a + init, b + init, key, c);
      Regroup(a, init, c, more);
      Regroup(b, init, c, more);
    }
  }

  /** A success starts the key afresh: whatever came before, later answers about it are those of a new limiter. */
  lemma SuccessForgets(lim: Limits, start: real, before: seq<Call>, more: seq<Call>, key: string, now: real,
                       again: real, all: seq<Call>, ask: Call)
    requires ask in {AskBlocked(key, now), AskSeconds(key, now)}
    requires all == before + [Succeed(key)] + more
    requires Nondecreasing(start, all + [ask]) && Nondecreasing(again, more + [ask])
    ensures MemAnswers(lim, NOTHING, all + [ask])[|all|] == MemAnswers(lim, NOTHING, more + [ask])[|more|]
    ensures SqlAnswers(lim, Tables([], map[]), all + [ask])[|all|] ==
            SqlAnswers(lim, Tables([], map[]), more + [ask])[|more|]
  {
    var cleared := before + [Succeed(key)];
    assert cleared[..|before|] == before;
    AlikeFromThenOn(lim, cleared, [], key, more);
    assert [] + more == more;
    BlockedExactly(lim, start, all, key, now, ask);
    BlockedExactly(lim, again, more, key, now, ask);
  }
}
