/** Filtering and counting over sequences, and the counter dictionaries
    (`_counts`, `_spent_per_owner`, ...) that cache such counts
    (cosai_mcp/middleware/state.py:64-69). */
module Lists {
  /** The elements of `s` satisfying `p`, in order. */
  function Keep<T(!new)>(s: seq<T>, p: T -> bool): (r: seq<T>)
    ensures |r| <= |s|
    ensures forall x :: x in r <==> x in s && p(x)
  {
    if s == [] then []
    else Keep(s[..|s| - 1], p) + (if p(s[|s| - 1]) then [s[|s| - 1]] else [])
  }

  lemma KeepSnoc<T(!new)>(s: seq<T>, x: T, p: T -> bool)
    ensures Keep(s + [x], p) == Keep(s, p) + (if p(x) then [x] else [])
  {
    assert (s + [x])[..|s|] == s;
  }

  lemma {:induction false} KeepCongruence<T(!new)>(s: seq<T>, p: T -> bool, q: T -> bool)
    requires forall x :: x in s ==> p(x) == q(x)
    ensures Keep(s, p) == Keep(s, q)
  {
    if s != [] {
      assert s[|s| - 1] in s;
      KeepCongruence(s[..|s| - 1], p, q);
    }
  }

  lemma {:induction false} KeepAll<T(!new)>(s: seq<T>, p: T -> bool)
    requires forall x :: x in s ==> p(x)
    ensures Keep(s, p) == s
  {
    hide Keep;
    if s == [] {
      KeepEmpty(s, p);
    } else {
      var init, x := s[..|s| - 1], s[|s| - 1];
      assert s == init + [x];
      KeepAll(init, p);
      KeepSnoc(init, x, p);
    }
  }

  lemma KeepEmpty<T(!new)>(s: seq<T>, p: T -> bool)
    requires s == []
    ensures Keep(s, p) == []
  {
  }

  lemma {:induction false} KeepNone<T(!new)>(s: seq<T>, p: T -> bool)
    requires forall x :: x in s ==> !p(x)
    ensures Keep(s, p) == []
  {
    if s != [] {
      assert s[|s| - 1] in s;
      KeepNone(s[..|s| - 1], p);
    }
  }

  /** Two filters in a row are one filter `r`, their conjunction. */
  lemma {:induction false} KeepKeep<T(!new)>(s: seq<T>, p: T -> bool, q: T -> bool, r: T -> bool)
    requires forall x :: x in s ==> (r(x) <==> p(x) && q(x))
    ensures Keep(Keep(s, p), q) == Keep(s, r)
  {
    if s != [] {
      var x, init := s[|s| - 1], s[..|s| - 1];
      assert x in s && forall y :: y in init ==> y in s;
      KeepKeep(init, p, q, r);
      if p(x) {
        KeepSnoc(Keep(init, p), x, q);
        assert Keep(s, p) == Keep(init, p) + [x];
      } else {
        assert Keep(s, p) == Keep(init, p);
      }
    }
  }

  /** How many elements of `s` have key `k`. */
  function Tally<T, K(==)>(s: seq<T>, key: T -> K, k: K): nat {
    if s == [] then 0
    else Tally(s[..|s| - 1], key, k) + (if key(s[|s| - 1]) == k then 1 else 0)
  }

  lemma TallySnoc<T(!new), K>(s: seq<T>, x: T, key: T -> K, k: K)
    ensures Tally(s + [x], key, k) == Tally(s, key, k) + (if key(x) == k then 1 else 0)
  {
    assert (s + [x])[..|s|] == s;
  }

  lemma {:induction false} TallyWithin<T(!new), K>(s: seq<T>, key: T -> K, k: K)
    ensures Tally(s, key, k) <= |s|
    ensures Tally(s, key, k) > 0 <==> exists x :: x in s && key(x) == k
  {
    if s != [] {
      var x, init := s[|s| - 1], s[..|s| - 1];
      assert s == init + [x];
      TallyWithin(init, key, k);
      if key(x) == k {
        assert x in s;
      }
    }
  }

  /** Filtering never raises a count. */
  lemma {:induction false} TallyKeep<T(!new), K>(s: seq<T>, p: T -> bool, key: T -> K, k: K)
    ensures Tally(Keep(s, p), key, k) <= Tally(s, key, k)
  {
    if s != [] {
      var x, init := s[|s| - 1], s[..|s| - 1];
      TallyKeep(init, p, key, k);
      if p(x) {
        TallySnoc(Keep(init, p), x, key, k);
        assert Keep(s, p) == Keep(init, p) + [x];
      } else {
        assert Keep(s, p) == Keep(init, p);
      }
    }
  }

  lemma CountOneMore(positions: set<nat>, n: nat)
    ensures |positions| == |positions - {n}| + (if n in positions then 1 else 0)
  {
    if n in positions {
      assert positions == (positions - {n}) + {n};
    } else {
      assert positions == positions - {n};
    }
  }

  /** What a filter keeps, counted by positions. */
  lemma {:induction false} KeepCount<T(!new)>(s: seq<T>, p: T -> bool, positions: set<nat>)
    requires forall i: nat :: i in positions <==> i < |s| && p(s[i])
    ensures |Keep(s, p)| == |positions|
  {
    hide Keep;
    if s == [] {
      assert positions == {};
      KeepEmpty(s, p);
    } else {
      var n: nat := |s| - 1;
      assert s == s[..n] + [s[n]];
      KeepSnoc(s[..n], s[n], p);
      KeepCount(s[..n], p, positions - {n});
      CountOneMore(positions, n);
    }
  }

  function KeyIs<T, K(==)>(key: T -> K, k: K): T -> bool { (x: T) => key(x) == k }

  lemma {:induction false} TallyIsKeep<T(!new), K>(s: seq<T>, key: T -> K, k: K)
    ensures Tally(s, key, k) == |Keep(s, KeyIs(key, k))|
  {
    if s != [] {
      TallyIsKeep(s[..|s| - 1], key, k);
    }
  }

  /** Filter, then count one key: the same as counting what satisfies `r`, which says both. */
  lemma {:induction false} TallyOfKept<T(!new), K>(s: seq<T>, p: T -> bool, key: T -> K, k: K, r: T -> bool)
    requires forall x :: x in s ==> (r(x) <==> p(x) && key(x) == k)
    ensures Tally(Keep(s, p), key, k) == |Keep(s, r)|
  {
    TallyIsKeep(Keep(s, p), key, k);
    KeepKeep(s, p, KeyIs(key, k), r);
  }

  function KeyIsNot<T, K(==)>(key: T -> K, k: K): T -> bool { (x: T) => key(x) != k }

  lemma {:induction false} SplitByKey<T(!new), K>(s: seq<T>, key: T -> K, k: K)
    ensures |s| == Tally(s, key, k) + |Keep(s, KeyIsNot(key, k))|
  {
    if s != [] {
      SplitByKey(s[..|s| - 1], key, k);
    }
  }

  lemma OneLess(n: nat, bound: nat)
    requires n > 0
    ensures n * bound == (n - 1) * bound + bound
  {
  }

  lemma RestBounded<T(!new), K(!new)>(s: seq<T>, key: T -> K, k: K, bound: nat)
    requires forall k' :: Tally(s, key, k') <= bound
    ensures var rest := Keep(s, KeyIsNot(key, k));
            && (forall k' :: Tally(rest, key, k') <= bound)
            && (forall x :: x in rest ==> x in s && key(x) != k)
            && |s| <= |rest| + bound
  {
    SplitByKey(s, key, k);
    forall k'
      ensures Tally(Keep(s, KeyIsNot(key, k)), key, k') <= bound
    {
      TallyKeep(s, KeyIsNot(key, k), key, k');
    }
  }

  /** With at most `bound` elements of each key there are at most `bound` times as many
      elements as keys. */
  lemma {:induction false} SizeByKey<T(!new), K(!new)>(s: seq<T>, key: T -> K, keys: set<K>, bound: nat)
    requires forall x :: x in s ==> key(x) in keys
    requires forall k :: Tally(s, key, k) <= bound
    ensures |s| <= |keys| * bound
    decreases |keys|
  {
    hide Tally, Keep, KeyIsNot;
    if s == [] {
      Product(|keys|, bound);
    } else {
      assert s[0] in s;
      var k := key(s[0]);
      RestBounded(s, key, k, bound);
      assert |keys - {k}| == |keys| - 1;
      SizeByKey(Keep(s, KeyIsNot(key, k)), key, keys - {k}, bound);
      OneLess(|keys|, bound);
    }
  }

  lemma Product(m: nat, n: nat)
    ensures m * n >= 0
  {
  }

  /** `s` without its element at `i`. */
  function Without<T>(s: seq<T>, i: nat): seq<T>
    requires i < |s|
  {
    s[..i] + s[i + 1..]
  }

  lemma {:induction false} TallyWithout<T(!new), K>(s: seq<T>, i: nat, key: T -> K, k: K)
    requires i < |s|
    ensures Tally(Without(s, i), key, k) == Tally(s, key, k) - (if key(s[i]) == k then 1 else 0)
    decreases |s|
  {
    var x, init := s[|s| - 1], s[..|s| - 1];
    if i == |s| - 1 {
      assert Without(s, i) == init;
    } else {
      TallyWithout(init, i, key, k);
      assert Without(s, i) == Without(init, i) + [x];
      TallySnoc(Without(init, i), x, key, k);
    }
  }

  // ---------------------------------------------------------------------------
  // Counter dictionaries
  // ---------------------------------------------------------------------------

  function Get<K>(counts: map<K, int>, k: K, default: int): int {
    if k in counts then counts[k] else default
  }

  /** `counts[k] = counts.get(k, 0) + 1` */
  function Increment<K>(counts: map<K, int>, k: K): map<K, int> {
    counts[k := Get(counts, k, 0) + 1]
  }

  /** `_decrement` */
  function Decrement<K>(counts: map<K, int>, k: K): map<K, int> {
    var left := Get(counts, k, 1) - 1;
    if left > 0 then counts[k := left] else counts - {k}
  }

  /** `counts` caches exactly the tallies of `s` and stores no zero. */
  ghost predicate Caches<T(!new), K(!new)>(counts: map<K, int>, s: seq<T>, key: T -> K) {
    forall k :: Get(counts, k, 0) == Tally(s, key, k) && (k in counts ==> counts[k] > 0)
  }

  lemma CachesSnoc<T(!new), K(!new)>(counts: map<K, int>, s: seq<T>, x: T, key: T -> K)
    requires Caches(counts, s, key)
    ensures Caches(Increment(counts, key(x)), s + [x], key)
  {
    var counts' := Increment(counts, key(x));
    forall k
      ensures Get(counts', k, 0) == Tally(s + [x], key, k) && (k in counts' ==> counts'[k] > 0)
    {
      assert Get(counts, k, 0) == Tally(s, key, k);
      TallySnoc(s, x, key, k);
    }
  }

  lemma CachesWithout<T(!new), K(!new)>(counts: map<K, int>, s: seq<T>, i: nat, key: T -> K)
    requires i < |s| && Caches(counts, s, key)
    ensures Caches(Decrement(counts, key(s[i])), Without(s, i), key)
  {
    var counts' := Decrement(counts, key(s[i]));
    assert Get(counts, key(s[i]), 0) == Tally(s, key, key(s[i])) > 0 by {
      TallyWithin(s, key, key(s[i]));
    }
    forall k
      ensures Get(counts', k, 0) == Tally(Without(s, i), key, k) && (k in counts' ==> counts'[k] > 0)
    {
      assert Get(counts, k, 0) == Tally(s, key, k);
      TallyWithout(s, i, key, k);
    }
  }
}
