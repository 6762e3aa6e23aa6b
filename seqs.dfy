/**
 * Sequence helpers shared by every view: `Filter` (Array.prototype.filter),
 * `Find` (Array.prototype.find) and `SumBy` (a left-to-right `reduce` that
 * adds up one number per element).
 */
module Seqs {
  import opened Types

  /** The first element of `s` that satisfies `p`, if any. */
  function Find<T>(s: seq<T>, p: T -> bool): (r: Option<T>)
    ensures r.None? <==> forall i :: 0 <= i < |s| ==> !p(s[i])
    ensures r.Some? ==> exists i :: 0 <= i < |s| && s[i] == r.value && p(s[i]) && forall j :: 0 <= j < i ==> !p(s[j])
  {
    if s == [] then None
    else if p(s[0]) then Some(s[0])
    else
      var r := Find(s[1..], p);
      assert forall i :: 0 < i < |s| ==> s[i] == s[1..][i - 1];
      r
  }

  /** The elements of `s` that satisfy `p`, in their original order. */
  function Filter<T(!new)>(s: seq<T>, p: T -> bool): (r: seq<T>)
    ensures |r| <= |s|
  {
    if s == [] then []
    else
      var init := s[..|s| - 1];
      var last := s[|s| - 1];
      assert s == init + [last];
      Filter(init, p) + (if p(last) then [last] else [])
  }

  /** Everything kept passes the predicate and came from the input. */
  lemma FilterSound<T(!new)>(s: seq<T>, p: T -> bool)
    ensures forall x :: x in Filter(s, p) ==> x in s && p(x)
  {
    FilterCounts(s, p);
    forall x | x in Filter(s, p) ensures x in s && p(x) {
      assert x in multiset(Filter(s, p));
    }
  }

  /** Each value is kept as often as it occurs when it passes, and dropped otherwise. */
  lemma {:induction false} FilterCounts<T(!new)>(s: seq<T>, p: T -> bool)
    ensures forall x :: multiset(Filter(s, p))[x] == if p(x) then multiset(s)[x] else 0
  {
    if s != [] {
      var init, last := s[..|s| - 1], s[|s| - 1];
      assert s == init + [last];
      FilterCounts(init, p);
    }
  }

  /** Filtering a sequence extended by one element. */
  lemma FilterSnoc<T(!new)>(s: seq<T>, x: T, p: T -> bool)
    ensures Filter(s + [x], p) == Filter(s, p) + (if p(x) then [x] else [])
  {
    assert (s + [x])[..|s + [x]| - 1] == s;
  }

  /** Filtering distributes over concatenation, so relative order is kept. */
  lemma {:induction false} FilterAppend<T(!new)>(s: seq<T>, t: seq<T>, p: T -> bool)
    ensures Filter(s + t, p) == Filter(s, p) + Filter(t, p)
    decreases |t|
  {
    if t == [] {
      assert s + t == s;
    } else {
      var t' := t[..|t| - 1];
      assert (s + t)[..|s + t| - 1] == s + t';
      assert (s + t)[|s + t| - 1] == t[|t| - 1];
      FilterAppend(s, t', p);
    }
  }

  /** A filter that no element passes leaves nothing. */
  lemma {:induction false} FilterNone<T(!new)>(s: seq<T>, p: T -> bool)
    requires forall i :: 0 <= i < |s| ==> !p(s[i])
    ensures Filter(s, p) == []
  {
    if s != [] {
      FilterNone(s[..|s| - 1], p);
    }
  }

  /** A filter that every element passes keeps the whole sequence. */
  lemma {:induction false} FilterAll<T(!new)>(s: seq<T>, p: T -> bool)
    requires forall i :: 0 <= i < |s| ==> p(s[i])
    ensures Filter(s, p) == s
  {
    if s != [] {
      FilterAll(s[..|s| - 1], p);
      assert s == s[..|s| - 1] + [s[|s| - 1]];
    }
  }

  /** Two predicates that agree on every element filter alike. */
  lemma {:induction false} FilterCongruent<T(!new)>(s: seq<T>, p: T -> bool, q: T -> bool)
    requires forall i :: 0 <= i < |s| ==> p(s[i]) == q(s[i])
    ensures Filter(s, p) == Filter(s, q)
  {
    if s != [] {
      FilterCongruent(s[..|s| - 1], p, q);
    }
  }

  /** Filtering twice is filtering once by the conjunction. */
  lemma {:induction false} FilterFilter<T(!new)>(s: seq<T>, p: T -> bool, q: T -> bool, pq: T -> bool)
    requires forall x :: pq(x) == (p(x) && q(x))
    ensures Filter(Filter(s, p), q) == Filter(s, pq)
  {
    if s != [] {
      var init, last := s[..|s| - 1], s[|s| - 1];
      FilterFilter(init, p, q, pq);
      FilterAppend(Filter(init, p), if p(last) then [last] else [], q);
    }
  }

  /** `reduce((sum, x) => sum + f(x), 0)`, folded from the left. */
  function SumBy<T>(s: seq<T>, f: T -> int): int
  {
    if s == [] then 0 else SumBy(s[..|s| - 1], f) + f(s[|s| - 1])
  }

  lemma {:induction false} SumByAppend<T>(s: seq<T>, t: seq<T>, f: T -> int)
    ensures SumBy(s + t, f) == SumBy(s, f) + SumBy(t, f)
    decreases |t|
  {
    if t == [] {
      assert s + t == s;
    } else {
      var t' := t[..|t| - 1];
      assert (s + t)[..|s + t| - 1] == s + t';
      SumByAppend(s, t', f);
    }
  }

  /** Removing the element at index `j` takes exactly its share off the sum. */
  lemma SumByRemove<T>(s: seq<T>, j: nat, f: T -> int)
    requires j < |s|
    ensures SumBy(s, f) == SumBy(s[..j] + s[j + 1..], f) + f(s[j])
  {
    var a, x, b := s[..j], s[j], s[j + 1..];
    assert s == (a + [x]) + b;
    SumByAppend(a + [x], b, f);
    assert (a + [x])[..|a + [x]| - 1] == a;
    SumByAppend(a, b, f);
  }

  /** The last element of `s` sits at some index `j` of a permutation `t`; removing both leaves permutations. */
  lemma MatchLast<T>(s: seq<T>, t: seq<T>) returns (j: nat)
    requires s != [] && multiset(s) == multiset(t)
    ensures j < |t| && t[j] == s[|s| - 1]
    ensures multiset(s[..|s| - 1]) == multiset(t[..j] + t[j + 1..])
  {
    var init, last := s[..|s| - 1], s[|s| - 1];
    assert s == init + [last];
    assert last in multiset(t);
    j :| 0 <= j < |t| && t[j] == last;
    assert t == t[..j] + [t[j]] + t[j + 1..];
    assert multiset(t[..j] + t[j + 1..]) == multiset(t) - multiset{last};
  }

  /** A sum does not depend on the order of its terms. */
  lemma {:induction false} SumByPermutation<T>(s: seq<T>, t: seq<T>, f: T -> int)
    requires multiset(s) == multiset(t)
    ensures SumBy(s, f) == SumBy(t, f)
    decreases |s|
  {
    if s == [] {
      assert |t| == |multiset(t)| == 0;
    } else {
      var j := MatchLast(s, t);
      SumByPermutation(s[..|s| - 1], t[..j] + t[j + 1..], f);
      SumByRemove(t, j, f);
    }
  }

  /** Replacing the element at index `i` by `y` changes the sum by the difference of their shares. */
  lemma SumByUpdate<T>(s: seq<T>, i: nat, y: T, f: T -> int)
    requires i < |s|
    ensures SumBy(s[i := y], f) == SumBy(s, f) - f(s[i]) + f(y)
  {
    SumByRemove(s, i, f);
    SumByRemove(s[i := y], i, f);
    assert s[i := y][..i] + s[i := y][i + 1..] == s[..i] + s[i + 1..];
  }

  /** Each term being zero makes the sum zero. */
  lemma {:induction false} SumByZero<T>(s: seq<T>, f: T -> int)
    requires forall i :: 0 <= i < |s| ==> f(s[i]) == 0
    ensures SumBy(s, f) == 0
  {
    if s != [] {
      SumByZero(s[..|s| - 1], f);
    }
  }

  /** Sums of functions that agree on every element are equal. */
  lemma {:induction false} SumByCongruent<T>(s: seq<T>, f: T -> int, g: T -> int)
    requires forall i :: 0 <= i < |s| ==> f(s[i]) == g(s[i])
    ensures SumBy(s, f) == SumBy(s, g)
  {
    if s != [] {
      SumByCongruent(s[..|s| - 1], f, g);
    }
  }

  /** Dropping the elements that contribute nothing leaves the sum unchanged. */
  lemma {:induction false} SumByFilter<T(!new)>(s: seq<T>, p: T -> bool, f: T -> int)
    requires forall i :: 0 <= i < |s| && !p(s[i]) ==> f(s[i]) == 0
    ensures SumBy(Filter(s, p), f) == SumBy(s, f)
  {
    if s != [] {
      var init, last := s[..|s| - 1], s[|s| - 1];
      SumByFilter(init, p, f);
      SumByAppend(Filter(init, p), if p(last) then [last] else [], f);
    }
  }

  /** The positions of `s` whose element satisfies `p`. */
  function Positions<T>(s: seq<T>, p: T -> bool): set<int>
  {
    set i | 0 <= i < |s| && p(s[i])
  }

  /** The length of a filter is the number of positions whose element passes. */
  lemma {:induction false} FilterLength<T(!new)>(s: seq<T>, p: T -> bool)
    ensures |Filter(s, p)| == |Positions(s, p)|
  {
    if s != [] {
      var init, last := s[..|s| - 1], s[|s| - 1];
      FilterLength(init, p);
      assert Positions(s, p) == Positions(init, p) + (if p(last) then {|init|} else {});
      assert |init| !in Positions(init, p);
    }
  }

  /** A sum of non-negative terms is non-negative and no smaller than any of its terms. */
  lemma {:induction false} SumByBounds<T>(s: seq<T>, f: T -> int)
    ensures (forall i :: 0 <= i < |s| ==> f(s[i]) >= 0) ==> SumBy(s, f) >= 0 && forall i :: 0 <= i < |s| ==> f(s[i]) <= SumBy(s, f)
  {
    if s != [] && forall i :: 0 <= i < |s| ==> f(s[i]) >= 0 {
      var init := s[..|s| - 1];
      SumByBounds(init, f);
      assert forall i :: 0 <= i < |init| ==> init[i] == s[i];
    }
  }

  /** A filter keeps every element exactly when its result is as long as the input. */
  lemma {:induction false} FilterKeepsAll<T(!new)>(s: seq<T>, p: T -> bool)
    requires |Filter(s, p)| == |s|
    ensures forall i :: 0 <= i < |s| ==> p(s[i])
  {
    if s != [] {
      var init, last := s[..|s| - 1], s[|s| - 1];
      assert |Filter(init, p)| <= |init|;
      FilterKeepsAll(init, p);
      forall i | 0 <= i < |s| ensures p(s[i]) {
        if i < |s| - 1 {
          assert s[i] == init[i];
        }
      }
    }
  }

  /** A filter drops every element exactly when its result is empty. */
  lemma FilterDropsAll<T(!new)>(s: seq<T>, p: T -> bool)
    requires Filter(s, p) == []
    ensures forall i :: 0 <= i < |s| ==> !p(s[i])
  {
    FilterCounts(s, p);
    forall i | 0 <= i < |s| ensures !p(s[i]) {
      assert multiset(s)[s[i]] > 0;
    }
  }

  /** Summing two functions term by term. */
  lemma {:induction false} SumByAdd<T>(s: seq<T>, f: T -> int, g: T -> int, fg: T -> int)
    requires forall x :: fg(x) == f(x) + g(x)
    ensures SumBy(s, fg) == SumBy(s, f) + SumBy(s, g)
  {
    if s != [] {
      SumByAdd(s[..|s| - 1], f, g, fg);
    }
  }

  /** Sums over two sequences of equal length whose terms agree position by position. */
  lemma {:induction false} SumByPointwise<A, B>(a: seq<A>, f: A -> int, b: seq<B>, g: B -> int)
    requires |a| == |b|
    requires forall i :: 0 <= i < |a| ==> f(a[i]) == g(b[i])
    ensures SumBy(a, f) == SumBy(b, g)
  {
    if a != [] {
      SumByPointwise(a[..|a| - 1], f, b[..|b| - 1], g);
    }
  }

  /** The share of an element in the sum of group `k`: its value when its key is `k`, else nothing. */
  function KeyShare<T, K(==)>(key: T -> K, g: T -> int, k: K): T -> int
  {
    (x: T) => if key(x) == k then g(x) else 0
  }

  /** The sum of group `k`, as a function of `k`. */
  function GroupSum<T, K(==)>(s: seq<T>, key: T -> K, g: T -> int): K -> int
  {
    (k: K) => SumBy(s, KeyShare(key, g, k))
  }

  /** The share of an element whose key is one of `keys`. */
  function KeysShare<T, K(==)>(key: T -> K, g: T -> int, keys: seq<K>): T -> int
  {
    (x: T) => if key(x) in keys then g(x) else 0
  }

  lemma {:induction false} GroupSumsOverKeys<T, K>(keys: seq<K>, s: seq<T>, key: T -> K, g: T -> int)
    requires forall i, j :: 0 <= i < j < |keys| ==> keys[i] != keys[j]
    ensures SumBy(keys, GroupSum(s, key, g)) == SumBy(s, KeysShare(key, g, keys))
  {
    if keys == [] {
      SumByZero(s, KeysShare(key, g, keys));
    } else {
      var init, last := keys[..|keys| - 1], keys[|keys| - 1];
      GroupSumsOverKeys(init, s, key, g);
      forall x ensures KeysShare(key, g, keys)(x) == KeysShare(key, g, init)(x) + KeyShare(key, g, last)(x) {
        assert keys == init + [last];
        assert last !in init;
      }
      SumByAdd(s, KeysShare(key, g, init), KeyShare(key, g, last), KeysShare(key, g, keys));
    }
  }

  /**
   * Summing the group sums over a list of distinct keys that covers every
   * element's key gives the plain sum.
   */
  lemma SumOfGroupSums<T, K>(keys: seq<K>, s: seq<T>, key: T -> K, g: T -> int)
    requires forall i, j :: 0 <= i < j < |keys| ==> keys[i] != keys[j]
    requires forall i :: 0 <= i < |s| ==> key(s[i]) in keys
    ensures SumBy(keys, GroupSum(s, key, g)) == SumBy(s, g)
  {
    GroupSumsOverKeys(keys, s, key, g);
    SumByCongruent(s, KeysShare(key, g, keys), g);
  }
}
