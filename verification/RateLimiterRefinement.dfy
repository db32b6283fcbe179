/** The two limiters give the same answers, although one evicts per key when it is next touched and the
    other sweeps every key on every failure. */
module RateLimiterRefinement {
  import opened RateLimiter

  // ----- calls and answers

  datatype Call =
    | AskBlocked(key: string, now: real)
    | AskSeconds(key: string, now: real)
    | Fail(key: string, now: real)
    | Succeed(key: string)
    | Restart   // the process ends and a new one opens the database; the in-memory limiter keeps running

  datatype Answer = Blocked(blocked: bool) | Seconds(seconds: real) | NoAnswer

  function MemCall(lim: Limits, m: Memory, c: Call): (Memory, Answer) {
    match c
    case AskBlocked(key, now) => (MemIsBlocked(m, key, now).0, Blocked(MemIsBlocked(m, key, now).1))
    case AskSeconds(key, now) => (m, Seconds(MemSecondsLeft(m, key, now)))
    case Fail(key, now) => (MemFailure(lim, m, key, now), NoAnswer)
    case Succeed(key) => (MemSuccess(m, key), NoAnswer)
    case Restart => (m, NoAnswer)
  }

  function SqlCall(lim: Limits, t: Tables, c: Call): (Tables, Answer) {
    match c
    case AskBlocked(key, now) => (SqlIsBlocked(t, key, now).0, Blocked(SqlIsBlocked(t, key, now).1))
    case AskSeconds(key, now) => (t, Seconds(SqlSecondsLeft(t, key, now)))
    case Fail(key, now) => (SqlFailure(lim, t, key, now), NoAnswer)
    case Succeed(key) => (SqlSuccess(t, key), NoAnswer)
    case Restart => (t, NoAnswer)
  }

  function MemAnswers(lim: Limits, m: Memory, calls: seq<Call>): (answers: seq<Answer>)
    ensures |answers| == |calls|
    decreases |calls|
  {
    if calls == [] then [] else
    [MemCall(lim, m, calls[0]).1] + MemAnswers(lim, MemCall(lim, m, calls[0]).0, calls[1..])
  }

  function SqlAnswers(lim: Limits, t: Tables, calls: seq<Call>): (answers: seq<Answer>)
    ensures |answers| == |calls|
    decreases |calls|
  {
    if calls == [] then [] else
    [SqlCall(lim, t, calls[0]).1] + SqlAnswers(lim, SqlCall(lim, t, calls[0]).0, calls[1..])
  }

  /** The clock after a call. */
  function Clock(now: real, c: Call): real {
    if c.Succeed? || c.Restart? then now else c.now
  }

  predicate Nondecreasing(now: real, calls: seq<Call>)
    decreases |calls|
  {
    calls != [] ==> now <= Clock(now, calls[0]) && Nondecreasing(Clock(now, calls[0]), calls[1..])
  }

  // ----- lists of times

  predicate Ordered(s: seq<real>) {
    forall i, j | 0 <= i < j < |s| :: s[i] <= s[j]
  }

  function Recent(s: seq<real>, oldest: real): seq<real> {
    if s == [] then []
    else if s[|s| - 1] < oldest then Recent(s[..|s| - 1], oldest)
    else Recent(s[..|s| - 1], oldest) + [s[|s| - 1]]
  }

  lemma {:induction false} RecentOfSuffix(s: seq<real>, oldest: real)
    requires s != [] && s[0] < oldest
    ensures Recent(s, oldest) == Recent(s[1..], oldest)
  {
    if |s| > 1 {
      RecentOfSuffix(s[..|s| - 1], oldest);
      assert s[..|s| - 1][1..] == s[1..][..|s| - 2];
    }
  }

  lemma {:induction false} RecentOfAll(s: seq<real>, oldest: real)
    requires forall i | 0 <= i < |s| :: s[i] >= oldest
    ensures Recent(s, oldest) == s
  {
    if s != [] { RecentOfAll(s[..|s| - 1], oldest); }
  }

  lemma {:induction false} RecentTwice(s: seq<real>, older: real, newer: real)
    requires older <= newer
    ensures Recent(Recent(s, older), newer) == Recent(s, newer)
  {
    if s != [] {
      var init, last := s[..|s| - 1], s[|s| - 1];
      RecentTwice(init, older, newer);
      RecentAppend(Recent(init, older), last, newer);
    }
  }

  lemma RecentAppend(s: seq<real>, x: real, oldest: real)
    ensures Recent(s + [x], oldest) == if x < oldest then Recent(s, oldest) else Recent(s, oldest) + [x]
  {
    assert (s + [x])[..|s|] == s;
  }

  /** On ordered times, dropping from the front is keeping the recent ones. */
  lemma {:induction false} DropIsRecent(s: seq<real>, now: real, window: real)
    requires Ordered(s)
    ensures DropExpired(s, now, window) == Recent(s, now - window)
  {
    if s != [] && now - s[0] > window {
      RecentOfSuffix(s, now - window);
      DropIsRecent(s[1..], now, window);
    } else {
      RecentOfAll(s, now - window);
    }
  }

  lemma {:induction false} DropKeepsOrder(s: seq<real>, now: real, window: real, latest: real)
    requires Ordered(s) && forall i | 0 <= i < |s| :: s[i] <= latest
    ensures Ordered(DropExpired(s, now, window))
    ensures forall i | 0 <= i < |DropExpired(s, now, window)| :: DropExpired(s, now, window)[i] <= latest
  {
    if s != [] && now - s[0] > window { DropKeepsOrder(s[1..], now, window, latest); }
  }

  // ----- lists of rows

  lemma {:induction false} TimesOfSweep(rows: seq<Row>, oldest: real, key: string)
    ensures TimesOf(Sweep(rows, oldest), key) == Recent(TimesOf(rows, key), oldest)
  {
    if rows != [] {
      var init, last := rows[..|rows| - 1], rows[|rows| - 1];
      TimesOfSweep(init, oldest, key);
      TimesOfAppend(Sweep(init, oldest), last, key);
      RecentAppend(TimesOf(init, key), last.ts, oldest);
    }
  }

  lemma TimesOfAppend(rows: seq<Row>, r: Row, key: string)
    ensures TimesOf(rows + [r], key) == if r.key == key then TimesOf(rows, key) + [r.ts] else TimesOf(rows, key)
  {
    assert (rows + [r])[..|rows|] == rows;
  }

  lemma {:induction false} TimesOfOthers(rows: seq<Row>, gone: string, key: string)
    ensures TimesOf(WithoutKey(rows, gone), key) == if key == gone then [] else TimesOf(rows, key)
  {
    if rows != [] {
      var init, last := rows[..|rows| - 1], rows[|rows| - 1];
      TimesOfOthers(init, gone, key);
      TimesOfAppend(WithoutKey(init, gone), last, key);
    }
  }

  // ----- the simulation relation

  /** The block on a key that is still in force at `now`. */
  function InForce(blocks: map<string, real>, key: string, now: real): real {
    if key in blocks && blocks[key] > now then blocks[key] else now
  }

  predicate UpTo(s: seq<real>, now: real) {
    Ordered(s) && forall i | 0 <= i < |s| :: s[i] <= now
  }

  /** On one key, the limiters differ at most in times outside the window and blocks that are over. */
  predicate KeyAgrees(lim: Limits, m: Memory, t: Tables, now: real, key: string) {
    && UpTo(Attempts(m, key), now)
    && Recent(Attempts(m, key), now - lim.window) == Recent(TimesOf(t.attempts, key), now - lim.window)
    && InForce(m.blockedUntil, key, now) == InForce(t.blocks, key, now)
  }

  ghost predicate Agree(lim: Limits, m: Memory, t: Tables, now: real) {
    forall key :: KeyAgrees(lim, m, t, now, key)
  }

  lemma TimePasses(lim: Limits, m: Memory, t: Tables, now: real, later: real, key: string)
    requires KeyAgrees(lim, m, t, now, key) && now <= later
    ensures KeyAgrees(lim, m, t, later, key)
  {
    RecentTwice(Attempts(m, key), now - lim.window, later - lim.window);
    RecentTwice(TimesOf(t.attempts, key), now - lim.window, later - lim.window);
  }

  lemma FailureKept(lim: Limits, attempts: seq<real>, now: real, kept: seq<real>)
    requires UpTo(attempts, now) && kept == DropExpired(attempts + [now], now, lim.window)
    ensures kept == Recent(attempts + [now], now - lim.window) && UpTo(kept, now)
  {
    DropIsRecent(attempts + [now], now, lim.window);
    DropKeepsOrder(attempts + [now], now, lim.window, now);
  }

  lemma SameRecentAndOneMore(a: seq<real>, b: seq<real>, x: real, oldest: real)
    requires Recent(a, oldest) == Recent(b, oldest)
    ensures Recent(a + [x], oldest) == Recent(b + [x], oldest)
    ensures Recent(Recent(a + [x], oldest), oldest) == Recent(a + [x], oldest)
  {
    RecentAppend(a, x, oldest);
    RecentAppend(b, x, oldest);
    RecentTwice(a + [x], oldest, oldest);
  }

  lemma TimesAfterSweep(rows: seq<Row>, key: string, now: real, oldest: real)
    ensures TimesOf(Sweep(rows + [Row(key, now)], oldest), key) == Recent(TimesOf(rows, key) + [now], oldest)
  {
    TimesOfSweep(rows + [Row(key, now)], oldest, key);
    TimesOfAppend(rows, Row(key, now), key);
  }

  /** Both limiters count the same recent failures of the key that failed. */
  lemma FailureCounts(lim: Limits, m: Memory, t: Tables, key: string, now: real, kept: seq<real>, rows: seq<Row>)
    requires KeyAgrees(lim, m, t, now, key)
    requires kept == DropExpired(Attempts(m, key) + [now], now, lim.window)
    requires rows == Sweep(t.attempts + [Row(key, now)], now - lim.window)
    ensures TimesOf(rows, key) == kept && UpTo(kept, now) && Recent(kept, now - lim.window) == kept
  {
    FailureKept(lim, Attempts(m, key), now, kept);
    SameRecentAndOneMore(Attempts(m, key), TimesOf(t.attempts, key), now, now - lim.window);
    TimesAfterSweep(t.attempts, key, now, now - lim.window);
  }

  /** What a failure leaves of each table, key by key. */
  lemma FailureLeaves(lim: Limits, m: Memory, t: Tables, failed: string, now: real, key: string, rows: seq<Row>)
    requires rows == Sweep(t.attempts + [Row(failed, now)], now - lim.window)
    ensures TimesOf(SqlFailure(lim, t, failed, now).attempts, key) ==
            if key == failed && |TimesOf(rows, failed)| >= lim.maxAttempts then [] else TimesOf(rows, key)
    ensures Attempts(MemFailure(lim, m, failed, now), key) ==
            if key != failed then Attempts(m, key)
            else if |DropExpired(Attempts(m, key) + [now], now, lim.window)| >= lim.maxAttempts then []
            else DropExpired(Attempts(m, key) + [now], now, lim.window)
  {
    TimesOfOthers(rows, failed, key);
  }

  /** A new block of `cooldown` seconds, as far as it is in force. */
  function NewBlock(lim: Limits, now: real): real {
    if now + lim.cooldown > now then now + lim.cooldown else now
  }

  lemma InForceOfUpdate(blocks: map<string, real>, blocked: string, until: real, key: string, now: real)
    ensures InForce(blocks[blocked := until], key, now) ==
            if key != blocked then InForce(blocks, key, now) else if until > now then until else now
  {
  }

  lemma InForceOfUnexpired(blocks: map<string, real>, key: string, now: real)
    ensures InForce(Unexpired(blocks, now), key, now) == InForce(blocks, key, now)
  {
  }

  lemma MemFailureBlocks(lim: Limits, m: Memory, failed: string, now: real, key: string, kept: seq<real>)
    requires kept == DropExpired(Attempts(m, failed) + [now], now, lim.window)
    ensures InForce(MemFailure(lim, m, failed, now).blockedUntil, key, now) ==
            if key == failed && |kept| >= lim.maxAttempts then NewBlock(lim, now) else InForce(m.blockedUntil, key, now)
  {
    InForceOfUpdate(m.blockedUntil, failed, now + lim.cooldown, key, now);
  }

  lemma SqlFailureBlocks(lim: Limits, t: Tables, failed: string, now: real, key: string, rows: seq<Row>)
    requires rows == Sweep(t.attempts + [Row(failed, now)], now - lim.window)
    ensures InForce(SqlFailure(lim, t, failed, now).blocks, key, now) ==
            if key == failed && |TimesOf(rows, failed)| >= lim.maxAttempts then NewBlock(lim, now)
            else InForce(t.blocks, key, now)
  {
    InForceOfUnexpired(t.blocks, key, now);
    InForceOfUpdate(Unexpired(t.blocks, now), failed, now + lim.cooldown, key, now);
  }

  lemma FailureOnOtherKey(lim: Limits, m: Memory, t: Tables, failed: string, now: real, key: string)
    requires KeyAgrees(lim, m, t, now, key) && key != failed
    ensures KeyAgrees(lim, MemFailure(lim, m, failed, now), SqlFailure(lim, t, failed, now), now, key)
  {
    var rows := Sweep(t.attempts + [Row(failed, now)], now - lim.window);
    TimesOfSweep(t.attempts + [Row(failed, now)], now - lim.window, key);
    TimesOfAppend(t.attempts, Row(failed, now), key);
    FailureLeaves(lim, m, t, failed, now, key, rows);
    MemFailureBlocks(lim, m, failed, now, key, DropExpired(Attempts(m, failed) + [now], now, lim.window));
    SqlFailureBlocks(lim, t, failed, now, key, rows);
    RecentTwice(TimesOf(t.attempts, key), now - lim.window, now - lim.window);
  }

  lemma FailureOnKey(lim: Limits, m: Memory, t: Tables, key: string, now: real)
    requires KeyAgrees(lim, m, t, now, key)
    ensures KeyAgrees(lim, MemFailure(lim, m, key, now), SqlFailure(lim, t, key, now), now, key)
  {
    var rows := Sweep(t.attempts + [Row(key, now)], now - lim.window);
    var kept := DropExpired(Attempts(m, key) + [now], now, lim.window);
    FailureCounts(lim, m, t, key, now, kept, rows);
    FailureLeaves(lim, m, t, key, now, key, rows);
    MemFailureBlocks(lim, m, key, now, key, kept);
    SqlFailureBlocks(lim, t, key, now, key, rows);
  }

  lemma SuccessAgrees(lim: Limits, m: Memory, t: Tables, now: real, cleared: string, key: string)
    requires KeyAgrees(lim, m, t, now, key)
    ensures KeyAgrees(lim, MemSuccess(m, cleared), SqlSuccess(t, cleared), now, key)
  {
    TimesOfOthers(t.attempts, cleared, key);
    assert key != cleared ==> Attempts(MemSuccess(m, cleared), key) == Attempts(m, key);
  }

  lemma CallAgrees(lim: Limits, m: Memory, t: Tables, now: real, c: Call, key: string)
    requires KeyAgrees(lim, m, t, Clock(now, c), key)
    ensures KeyAgrees(lim, MemCall(lim, m, c).0, SqlCall(lim, t, c).0, Clock(now, c), key)
  {
    match c
    case Fail(failed, at) =>
      if failed == key { FailureOnKey(lim, m, t, key, at); } else { FailureOnOtherKey(lim, m, t, failed, at, key); }
    case Succeed(cleared) => SuccessAgrees(lim, m, t, now, cleared, key);
    case AskBlocked(_, _) =>
    case AskSeconds(_, _) =>
    case Restart =>
  }

  lemma AnswerAgrees(lim: Limits, m: Memory, t: Tables, now: real, c: Call)
    requires !(c.Succeed? || c.Restart?) ==> KeyAgrees(lim, m, t, c.now, c.key)
    ensures MemCall(lim, m, c).1 == SqlCall(lim, t, c).1
  {
  }

  /** Main result: on any calls with nondecreasing times, with any limits, from agreeing states, the two
      limiters give identical answers throughout, wherever the persistent one is restarted. */
  lemma {:induction false} SameAnswers(lim: Limits, m: Memory, t: Tables, now: real, calls: seq<Call>)
    requires Agree(lim, m, t, now) && Nondecreasing(now, calls)
    ensures MemAnswers(lim, m, calls) == SqlAnswers(lim, t, calls)
    decreases |calls|
  {
    if calls != [] {
      var c := calls[0];
      var later := Clock(now, c);
      forall key ensures KeyAgrees(lim, m, t, later, key) { TimePasses(lim, m, t, now, later, key); }
      AnswerAgrees(lim, m, t, now, c);
      forall key ensures KeyAgrees(lim, MemCall(lim, m, c).0, SqlCall(lim, t, c).0, later, key) {
        CallAgrees(lim, m, t, now, c, key);
      }
      SameAnswers(lim, MemCall(lim, m, c).0, SqlCall(lim, t, c).0, later, calls[1..]);
    }
  }

  lemma SameAnswersFromStart(lim: Limits, now: real, calls: seq<Call>)
    requires Nondecreasing(now, calls)
    ensures MemAnswers(lim, Memory(map[], map[]), calls) == SqlAnswers(lim, Tables([], map[]), calls)
  {
    SameAnswers(lim, Memory(map[], map[]), Tables([], map[]), now, calls);
  }

  // ----- no garbage

  lemma {:induction false} SweptIsRecent(rows: seq<Row>, oldest: real)
    ensures forall r | r in Sweep(rows, oldest) :: r.ts >= oldest && r in rows
  {
    if rows != [] { SweptIsRecent(rows[..|rows| - 1], oldest); }
  }

  lemma {:induction false} RemovingKeepsOthers(rows: seq<Row>, key: string)
    ensures forall r | r in WithoutKey(rows, key) :: r in rows
  {
    if rows != [] { RemovingKeepsOthers(rows[..|rows| - 1], key); }
  }

  /** Why the sweep is global: after any failure the file holds nothing of any key that is out of date, so
      addresses that never come back leave nothing behind for good. */
  lemma FailureLeavesNoGarbage(lim: Limits, t: Tables, key: string, now: real)
    requires lim.cooldown > 0.0
    ensures forall r | r in SqlFailure(lim, t, key, now).attempts :: r.ts >= now - lim.window
    ensures forall k | k in SqlFailure(lim, t, key, now).blocks :: SqlFailure(lim, t, key, now).blocks[k] > now
  {
    var rows := Sweep(t.attempts + [Row(key, now)], now - lim.window);
    SweptIsRecent(t.attempts + [Row(key, now)], now - lim.window);
    RemovingKeepsOthers(rows, key);
  }
}
