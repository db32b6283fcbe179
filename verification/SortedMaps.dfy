/** The dictionary trimming that the skipped-key cache and the table of receiving chains share:
    `for key in sorted(d)[:excess]: del d[key]`. */
module SortedMaps {

  predicate Ascending(s: seq<nat>) {
    forall i, j | 0 <= i < j < |s| :: s[i] < s[j]
  }

  lemma {:induction false} MinimumExists(s: set<nat>)
    requires s != {}
    ensures exists m | m in s :: forall k | k in s :: m <= k
  {
    var x :| x in s;
    var rest := s - {x};
    if rest == {} {
      assert s == {x};
    } else {
      MinimumExists(rest);
      var m :| m in rest && forall k | k in rest :: m <= k;
      var least := if x < m then x else m;
      assert least in s && forall k | k in s :: least <= k by {
        assert s == rest + {x};
      }
    }
  }

  function Minimum(s: set<nat>): (m: nat)
    requires s != {}
    ensures m in s && forall k | k in s :: m <= k
  {
    MinimumExists(s);
    var m :| m in s && forall k | k in s :: m <= k;
    m
  }

  lemma {:induction false} MaximumExists(s: set<nat>)
    requires s != {}
    ensures exists m | m in s :: forall k | k in s :: k <= m
  {
    var x :| x in s;
    var rest := s - {x};
    if rest == {} {
      assert s == {x};
    } else {
      MaximumExists(rest);
      var m :| m in rest && forall k | k in rest :: k <= m;
      var greatest := if x < m then m else x;
      assert greatest in s && forall k | k in s :: k <= greatest by {
        assert s == rest + {x};
      }
    }
  }

  /** `max(s)` */
  function Maximum(s: set<nat>): (m: nat)
    requires s != {}
    ensures m in s && forall k | k in s :: k <= m
  {
    MaximumExists(s);
    var m :| m in s && forall k | k in s :: k <= m;
    m
  }

  /** `sorted(s)` */
  function Sorted(s: set<nat>): (q: seq<nat>)
    ensures |q| == |s|
  {
    if s == {} then [] else
    var m := Minimum(s);
    [m] + Sorted(s - {m})
  }

  /** `Sorted` lists exactly the members, each once, in ascending order. */
  lemma {:induction false} SortedIsSorted(s: set<nat>)
    ensures forall k :: k in Sorted(s) <==> k in s
    ensures Ascending(Sorted(s))
  {
    if s != {} {
      var m := Minimum(s);
      SortedIsSorted(s - {m});
      var rest := Sorted(s - {m});
      forall i | 0 <= i < |rest| ensures m < rest[i] { assert rest[i] in rest; }
    }
  }

  function Above(keys: set<nat>, k: nat): set<nat> {
    set j | j in keys && j > k
  }

  /** What is left of `m` when all but its `limit` highest keys are deleted. */
  function KeepHighest<V>(m: map<nat, V>, limit: nat): map<nat, V> {
    map k | k in m && |Above(m.Keys, k)| < limit :: m[k]
  }

  lemma SubsetSize(a: set<nat>, b: set<nat>)
    requires a <= b
    ensures |a| <= |b|
    ensures a != b ==> |a| < |b|
  {
    assert b == a + (b - a);
  }

  lemma KeepHighestSize<V>(m: map<nat, V>, limit: nat)
    ensures |KeepHighest(m, limit)| <= limit
    ensures |m| <= limit ==> KeepHighest(m, limit) == m
  {
    var kept := KeepHighest(m, limit).Keys;
    if kept != {} {
      var least := Minimum(kept);
      SubsetSize(kept - {least}, Above(m.Keys, least));
    }
    if |m| <= limit {
      forall k | k in m ensures |Above(m.Keys, k)| < limit {
        SubsetSize(Above(m.Keys, k), m.Keys);
        assert k !in Above(m.Keys, k);
      }
    }
  }

  /** Deleting the least key of an oversized dictionary is a step towards the result. */
  lemma DeleteLeast<V>(m: map<nat, V>, limit: nat, least: nat)
    requires |m| > limit && least in m && forall k | k in m :: least <= k
    ensures |m - {least}| == |m| - 1
    ensures KeepHighest(m - {least}, limit) == KeepHighest(m, limit)
  {
    var rest := m - {least};
    assert rest.Keys == m.Keys - {least};
    assert Above(m.Keys, least) == rest.Keys;
    assert |m.Keys| == |m| && |rest.Keys| == |rest|;
    forall k | k in rest ensures Above(m.Keys, k) == Above(rest.Keys, k) {
    }
  }

  lemma DeleteNext<V>(m: map<nat, V>, limit: nat, keys: seq<nat>, i: nat)
    requires |m| > limit && i <= |keys| && Sorted(m.Keys) == keys[i..]
    ensures i < |keys|
    ensures var rest := m - {keys[i]};
            && |rest| == |m| - 1
            && Sorted(rest.Keys) == keys[i + 1..]
            && KeepHighest(rest, limit) == KeepHighest(m, limit)
  {
    assert |m.Keys| == |m|;
    var least := Minimum(m.Keys);
    assert Sorted(m.Keys)[0] == keys[i] == least;
    DeleteLeast(m, limit, least);
    assert (m - {least}).Keys == m.Keys - {least};
    assert keys[i..][1..] == keys[i + 1..];
  }

  /** The source's loop: sort the keys once, then delete the first `excess` of them. */
  method TrimToHighest<V>(m: map<nat, V>, limit: nat) returns (r: map<nat, V>)
    ensures r == KeepHighest(m, limit)
  {
    r := m;
    var excess := |m| - limit;
    if excess > 0 {
      var keys := Sorted(m.Keys);
      for i := 0 to excess
        invariant |r| == limit + excess - i
        invariant i <= |keys| && Sorted(r.Keys) == keys[i..]
        invariant KeepHighest(r, limit) == KeepHighest(m, limit)
      {
        DeleteNext(r, limit, keys, i);
        r := r - {keys[i]};
      }
    }
    KeepHighestSize(r, limit);
  }

  /** A set of numbers drawn from an interval is no larger than the interval. */
  lemma {:induction false} IntervalSize(s: set<nat>, lo: nat, hi: nat)
    requires lo <= hi
    requires forall k | k in s :: lo <= k < hi
    ensures |s| <= hi - lo
    decreases hi - lo
  {
    if lo < hi {
      IntervalSize(s - {lo}, lo + 1, hi);
      assert lo in s ==> s == s - {lo} + {lo};
      assert lo !in s ==> s == s - {lo};
    } else {
      assert s == {};
    }
  }
}
