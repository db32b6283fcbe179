/** `rate_limiter.py`: the in-memory and the SQL-backed limiter of failed handshake attempts. */
module RateLimiter {
  import opened Wrappers

  datatype Limits = Limits(maxAttempts: int, window: real, cooldown: real)

  // ----- the in-memory limiter, on values

  datatype Memory = Memory(failures: map<string, seq<real>>, blockedUntil: map<string, real>)

  /** `self._failures[key]` of a `defaultdict(deque)` */
  function Attempts(m: Memory, key: string): seq<real> {
    if key in m.failures then m.failures[key] else []
  }

  /** The popleft loop. */
  function DropExpired(attempts: seq<real>, now: real, window: real): seq<real> {
    if attempts != [] && now - attempts[0] > window then DropExpired(attempts[1..], now, window) else attempts
  }

  function MemIsBlocked(m: Memory, key: string, now: real): (Memory, bool) {
    if key !in m.blockedUntil then (m, false)
    else if now >= m.blockedUntil[key] then (m.(blockedUntil := m.blockedUntil - {key}), false)
    else (m, true)
  }

  function MemSecondsLeft(m: Memory, key: string, now: real): real {
    if key !in m.blockedUntil || now >= m.blockedUntil[key] then 0.0 else m.blockedUntil[key] - now
  }

  function MemFailure(lim: Limits, m: Memory, key: string, now: real): Memory {
    var attempts := DropExpired(Attempts(m, key) + [now], now, lim.window);
    if |attempts| >= lim.maxAttempts
    then Memory(m.failures[key := []], m.blockedUntil[key := now + lim.cooldown])
    else m.(failures := m.failures[key := attempts])
  }

  function MemSuccess(m: Memory, key: string): Memory {
    Memory(m.failures - {key}, m.blockedUntil - {key})
  }

  // ----- the SQL-backed limiter, on values

  datatype Row = Row(key: string, ts: real)

  /** The two tables: rows of `attempts` in insertion order, and `blocks` by its primary key. */
  datatype Tables = Tables(attempts: seq<Row>, blocks: map<string, real>)

  /** `DELETE FROM attempts WHERE ts < ?`, of every key */
  function Sweep(rows: seq<Row>, oldest: real): seq<Row> {
    if rows == [] then []
    else if rows[|rows| - 1].ts < oldest then Sweep(rows[..|rows| - 1], oldest)
    else Sweep(rows[..|rows| - 1], oldest) + [rows[|rows| - 1]]
  }

  /** `DELETE FROM attempts WHERE key = ?` */
  function WithoutKey(rows: seq<Row>, key: string): seq<Row> {
    if rows == [] then []
    else if rows[|rows| - 1].key == key then WithoutKey(rows[..|rows| - 1], key)
    else WithoutKey(rows[..|rows| - 1], key) + [rows[|rows| - 1]]
  }

  /** `SELECT COUNT(*) FROM attempts WHERE key = ?` */
  function CountKey(rows: seq<Row>, key: string): nat {
    |TimesOf(rows, key)|
  }

  /** The timestamps recorded for a key, in order. */
  function TimesOf(rows: seq<Row>, key: string): seq<real> {
    if rows == [] then []
    else if rows[|rows| - 1].key == key then TimesOf(rows[..|rows| - 1], key) + [rows[|rows| - 1].ts]
    else TimesOf(rows[..|rows| - 1], key)
  }

  function SqlIsBlocked(t: Tables, key: string, now: real): (Tables, bool) {
    if key !in t.blocks then (t, false)
    else if now >= t.blocks[key] then (t.(blocks := t.blocks - {key}), false)
    else (t, true)
  }

  function SqlSecondsLeft(t: Tables, key: string, now: real): real {
    if key !in t.blocks || now >= t.blocks[key] then 0.0 else t.blocks[key] - now
  }

  /** `DELETE FROM blocks WHERE blocked_until <= ?` */
  function Unexpired(blocks: map<string, real>, now: real): map<string, real> {
    map k | k in blocks && blocks[k] > now :: blocks[k]
  }

  function SqlFailure(lim: Limits, t: Tables, key: string, now: real): Tables {
    var attempts := Sweep(t.attempts + [Row(key, now)], now - lim.window);
    var blocks := Unexpired(t.blocks, now);
    if CountKey(attempts, key) >= lim.maxAttempts
    then Tables(WithoutKey(attempts, key), blocks[key := now + lim.cooldown])
    else Tables(attempts, blocks)
  }

  function SqlSuccess(t: Tables, key: string): Tables {
    Tables(WithoutKey(t.attempts, key), t.blocks - {key})
  }

  // ----- the source's objects

  class InMemoryLimiter {
    const lim: Limits
    var failures: map<string, seq<real>>
    var blockedUntil: map<string, real>

    function State(): Memory
      reads this
    {
      Memory(failures, blockedUntil)
    }

    constructor (lim: Limits)
      ensures this.lim == lim && State() == Memory(map[], map[])
    {
      this.lim := lim;
      failures, blockedUntil := map[], map[];
    }

    method IsBlocked(key: string, now: real) returns (blocked: bool)
      modifies this
      ensures State() == MemIsBlocked(old(State()), key, now).0 && blocked == MemIsBlocked(old(State()), key, now).1
      ensures key in blockedUntil <==> blocked
      ensures blockedUntil - {key} == old(blockedUntil) - {key} && failures == old(failures)
    {
      if key !in blockedUntil {
        return false;
      }
      if now >= blockedUntil[key] {
        blockedUntil := blockedUntil - {key};
        return false;
      }
      return true;
    }

    /** How long to wait: positive exactly while the key is blocked, and not a moment too long or too short. */
    method SecondsUntilUnblocked(key: string, now: real) returns (seconds: real)
      ensures seconds >= 0.0 && (seconds > 0.0 <==> MemIsBlocked(State(), key, now).1)
      ensures !MemIsBlocked(State(), key, now + seconds).1
      ensures forall t | now <= t < now + seconds :: MemIsBlocked(State(), key, t).1
      ensures seconds == MemSecondsLeft(State(), key, now)
    {
      if key !in blockedUntil || now >= blockedUntil[key] {
        return 0.0;
      }
      return blockedUntil[key] - now;
    }

    method RecordFailure(key: string, now: real)
      modifies this
      ensures State() == MemFailure(lim, old(State()), key, now)
    {
      var attempts := Attempts(State(), key) + [now];
      ghost var all := attempts;
      while attempts != [] && now - attempts[0] > lim.window
        invariant DropExpired(attempts, now, lim.window) == DropExpired(all, now, lim.window)
        decreases |attempts|
      {
        attempts := attempts[1..];
      }
      failures := failures[key := attempts];
      if |attempts| >= lim.maxAttempts {
        blockedUntil := blockedUntil[key := now + lim.cooldown];
        failures := failures[key := []];
      }
    }

    method RecordSuccess(key: string)
      modifies this
      ensures State() == MemSuccess(old(State()), key)
    {
      failures := failures - {key};
      blockedUntil := blockedUntil - {key};
    }
  }

  /** The database file, which outlives the limiter that opened it. A table is `None` until it is created. */
  class Database {
    var attempts: Option<seq<Row>>
    var blocks: Option<map<string, real>>

    /** What the tables hold; a table that is not there yet holds nothing. */
    function Contents(): Tables
      reads this
    {
      Tables(if attempts.Some? then attempts.value else [], if blocks.Some? then blocks.value else map[])
    }

    predicate HasTables()
      reads this
    {
      attempts.Some? && blocks.Some?
    }

    /** A new, empty file. */
    constructor ()
      ensures attempts == None && blocks == None && Contents() == Tables([], map[])
    {
      attempts, blocks := None, None;
    }

    /** `CREATE TABLE IF NOT EXISTS attempts` and `blocks` */
    method CreateTables()
      modifies this
      ensures HasTables() && Contents() == old(Contents())
      ensures old(HasTables()) ==> attempts == old(attempts) && blocks == old(blocks)
    {
      if attempts.None? {
        attempts := Some([]);
      }
      if blocks.None? {
        blocks := Some(map[]);
      }
    }
  }

  class SqliteLimiter {
    const lim: Limits
    const db: Database

    /** Opening creates the tables that are missing and leaves what is there as it is: a new file starts
        empty, and a restart forgets nothing. */
    constructor (db: Database, lim: Limits)
      modifies db
      ensures this.db == db && this.lim == lim
      ensures db.HasTables() && db.Contents() == old(db.Contents())
    {
      this.db, this.lim := db, lim;
      new;
      db.CreateTables();
    }

    method IsBlocked(key: string, now: real) returns (blocked: bool)
      requires db.HasTables()
      modifies db
      ensures db.HasTables()
      ensures db.Contents() == SqlIsBlocked(old(db.Contents()), key, now).0
      ensures blocked == SqlIsBlocked(old(db.Contents()), key, now).1
      ensures key in db.Contents().blocks <==> blocked
      ensures db.Contents().blocks - {key} == old(db.Contents()).blocks - {key}
      ensures db.Contents().attempts == old(db.Contents()).attempts
    {
      var blocks := db.blocks.value;
      if key !in blocks {
        return false;
      }
      if now >= blocks[key] {
        db.blocks := Some(blocks - {key});
        return false;
      }
      return true;
    }

    /** As for the in-memory limiter. */
    method SecondsUntilUnblocked(key: string, now: real) returns (seconds: real)
      requires db.HasTables()
      ensures seconds >= 0.0 && (seconds > 0.0 <==> SqlIsBlocked(db.Contents(), key, now).1)
      ensures !SqlIsBlocked(db.Contents(), key, now + seconds).1
      ensures forall t | now <= t < now + seconds :: SqlIsBlocked(db.Contents(), key, t).1
      ensures seconds == SqlSecondsLeft(db.Contents(), key, now)
    {
      var blocks := db.blocks.value;
      if key !in blocks || now >= blocks[key] {
        return 0.0;
      }
      return blocks[key] - now;
    }

    method RecordFailure(key: string, now: real)
      requires db.HasTables()
      modifies db
      ensures db.HasTables()
      ensures db.Contents() == SqlFailure(lim, old(db.Contents()), key, now)
    {
      db.attempts := Some(db.attempts.value + [Row(key, now)]);
      db.attempts := Some(Sweep(db.attempts.value, now - lim.window));
      db.blocks := Some(Unexpired(db.blocks.value, now));
      if CountKey(db.attempts.value, key) >= lim.maxAttempts {
        db.blocks := Some(db.blocks.value[key := now + lim.cooldown]);
        db.attempts := Some(WithoutKey(db.attempts.value, key));
      }
    }

    method RecordSuccess(key: string)
      requires db.HasTables()
      modifies db
      ensures db.HasTables()
      ensures db.Contents() == SqlSuccess(old(db.Contents()), key)
    {
      db.attempts := Some(WithoutKey(db.attempts.value, key));
      db.blocks := Some(db.blocks.value - {key});
    }
  }
}
