/**
 * The stable sort that `Array.prototype.sort` performs on a fresh copy.
 * A comparator `(a, b) => key(a) - key(b)` sorts ascending by `key`;
 * `(a, b) => key(b) - key(a)` is the same sort with the key negated.
 * Elements with equal keys keep their input order.
 */
module StableSort {
  import opened Seqs

  /** `s` is in ascending order of `key`. */
  predicate SortedBy<T>(s: seq<T>, key: T -> int)
  {
    forall i, j :: 0 <= i < j < |s| ==> key(s[i]) <= key(s[j])
  }

  /** The predicate "has key `k`". */
  function KeyIs<T>(key: T -> int, k: int): T -> bool
  {
    (x: T) => key(x) == k
  }

  /** The elements of `s` whose key is `k`, in the order they appear in `s`. */
  function WithKey<T(!new)>(s: seq<T>, key: T -> int, k: int): seq<T>
  {
    Filter(s, KeyIs(key, k))
  }

  /** Inserts `x` after every element whose key is not larger than its own. */
  function Insert<T>(x: T, r: seq<T>, key: T -> int): seq<T>
  {
    if r == [] then [x]
    else if key(x) < key(r[0]) then [x] + r
    else [r[0]] + Insert(x, r[1..], key)
  }

  /** Insertion sort: each element, in input order, goes after its equals. */
  function SortBy<T>(s: seq<T>, key: T -> int): seq<T>
  {
    if s == [] then [] else Insert(s[|s| - 1], SortBy(s[..|s| - 1], key), key)
  }

  lemma {:induction false} InsertCounts<T>(x: T, r: seq<T>, key: T -> int)
    ensures multiset(Insert(x, r, key)) == multiset(r) + multiset{x}
  {
    if r != [] && key(r[0]) <= key(x) {
      InsertCounts(x, r[1..], key);
      assert r == [r[0]] + r[1..];
    }
  }

  lemma {:induction false} InsertSorted<T>(x: T, r: seq<T>, key: T -> int)
    requires SortedBy(r, key)
    ensures SortedBy(Insert(x, r, key), key)
  {
    if r != [] && key(r[0]) <= key(x) {
      InsertSorted(x, r[1..], key);
      InsertCounts(x, r[1..], key);
      var tail := Insert(x, r[1..], key);
      forall y | y in tail
        ensures key(r[0]) <= key(y)
      {
        assert y in multiset(tail);
      }
    }
  }

  /** Inserting into a sorted sequence puts `x` after every element with the same key. */
  lemma {:induction false} InsertWithKey<T(!new)>(x: T, r: seq<T>, key: T -> int, k: int)
    requires SortedBy(r, key)
    ensures WithKey(Insert(x, r, key), key, k)
         == WithKey(r, key, k) + (if key(x) == k then [x] else [])
  {
    var p := KeyIs(key, k);
    if r == [] {
      FilterSnoc([], x, p);
    } else if key(x) < key(r[0]) {
      InsertBefore(x, r, key, k);
    } else {
      InsertWithKey(x, r[1..], key, k);
      InsertAfterHead(x, r, key, k);
    }
  }

  lemma InsertBefore<T(!new)>(x: T, r: seq<T>, key: T -> int, k: int)
    requires SortedBy(r, key) && r != [] && key(x) < key(r[0])
    ensures WithKey([x] + r, key, k) == WithKey(r, key, k) + (if key(x) == k then [x] else [])
  {
    var p := KeyIs(key, k);
    FilterAppend([x], r, p);
    FilterSnoc([], x, p);
    assert [] + [x] == [x];
    if key(x) == k {
      FilterNone(r, p);
    }
  }

  lemma InsertAfterHead<T(!new)>(x: T, r: seq<T>, key: T -> int, k: int)
    requires r != []
    requires WithKey(Insert(x, r[1..], key), key, k) == WithKey(r[1..], key, k) + (if key(x) == k then [x] else [])
    ensures WithKey([r[0]] + Insert(x, r[1..], key), key, k) == WithKey(r, key, k) + (if key(x) == k then [x] else [])
  {
    var p := KeyIs(key, k);
    var head, tail := [r[0]], Insert(x, r[1..], key);
    assert Filter(head + tail, p) == Filter(head, p) + Filter(tail, p) by {
      FilterAppend(head, tail, p);
    }
    assert Filter(r, p) == Filter(head, p) + Filter(r[1..], p) by {
      FilterAppend(head, r[1..], p);
      assert head + r[1..] == r;
    }
  }

  /** The sorted sequence is a permutation of the input. */
  lemma {:induction false} SortByPermutation<T>(s: seq<T>, key: T -> int)
    ensures multiset(SortBy(s, key)) == multiset(s)
  {
    if s != [] {
      SortByPermutation(s[..|s| - 1], key);
      InsertCounts(s[|s| - 1], SortBy(s[..|s| - 1], key), key);
      assert s == s[..|s| - 1] + [s[|s| - 1]];
    }
  }

  /** The sorted sequence is in ascending key order. */
  lemma {:induction false} SortBySorted<T>(s: seq<T>, key: T -> int)
    ensures SortedBy(SortBy(s, key), key)
  {
    if s != [] {
      SortBySorted(s[..|s| - 1], key);
      InsertSorted(s[|s| - 1], SortBy(s[..|s| - 1], key), key);
    }
  }

  /** Stability: for every key, the elements with that key appear in input order. */
  lemma {:induction false} SortByStable<T(!new)>(s: seq<T>, key: T -> int, k: int)
    ensures WithKey(SortBy(s, key), key, k) == WithKey(s, key, k)
  {
    if s != [] {
      SortByStable(s[..|s| - 1], key, k);
      SortBySorted(s[..|s| - 1], key);
      InsertWithKey(s[|s| - 1], SortBy(s[..|s| - 1], key), key, k);
    }
  }

  /** The three facts together: permutation, ascending order, stability. */
  lemma SortByCorrect<T(!new)>(s: seq<T>, key: T -> int)
    ensures multiset(SortBy(s, key)) == multiset(s)
    ensures SortedBy(SortBy(s, key), key)
    ensures forall k :: WithKey(SortBy(s, key), key, k) == WithKey(s, key, k)
  {
    SortByPermutation(s, key);
    SortBySorted(s, key);
    forall k ensures WithKey(SortBy(s, key), key, k) == WithKey(s, key, k) {
      SortByStable(s, key, k);
    }
  }

  /** In a sorted sequence the last element carries the largest key. */
  lemma SortedLastIsMax<T>(s: seq<T>, key: T -> int, y: T)
    requires SortedBy(s, key) && y in s
    ensures key(y) <= key(s[|s| - 1])
  {
  }

  /** A non-empty sequence has a non-empty group for the key of each element. */
  lemma WithKeyNonEmpty<T(!new)>(s: seq<T>, key: T -> int, y: T)
    requires y in s
    ensures y in WithKey(s, key, key(y))
  {
    FilterCounts(s, KeyIs(key, key(y)));
    assert y in multiset(s);
  }

  /**
   * A stable sort is unique: two sequences that are both in key order and
   * agree on the order of every group of equal keys are the same sequence.
   * So `SortBy` is exactly what any stable sort returns.
   */
  lemma {:induction false} StableSortUnique<T(!new)>(a: seq<T>, b: seq<T>, key: T -> int)
    requires SortedBy(a, key) && SortedBy(b, key)
    requires forall k :: WithKey(a, key, k) == WithKey(b, key, k)
    ensures a == b
    decreases |a|
  {
    if a == [] && b == [] {
    } else if b == [] {
      WithKeyNonEmpty(a, key, a[0]);
      assert false;
    } else if a == [] {
      WithKeyNonEmpty(b, key, b[0]);
      assert false;
    } else {
      var a', b' := a[..|a| - 1], b[..|b| - 1];
      SameLast(a, b, key);
      forall k
        ensures WithKey(a', key, k) == WithKey(b', key, k)
      {
        DropLast(a, b, key, k);
      }
      StableSortUnique(a', b', key);
      assert a == a' + [a[|a| - 1]];
      assert b == b' + [b[|b| - 1]];
    }
  }

  /** Dropping the same last element from both keeps the groups equal. */
  lemma DropLast<T(!new)>(a: seq<T>, b: seq<T>, key: T -> int, k: int)
    requires a != [] && b != [] && a[|a| - 1] == b[|b| - 1]
    requires WithKey(a, key, k) == WithKey(b, key, k)
    ensures WithKey(a[..|a| - 1], key, k) == WithKey(b[..|b| - 1], key, k)
  {
    var x := a[|a| - 1];
    var t := if key(x) == k then [x] else [];
    assert a == a[..|a| - 1] + [x];
    assert b == b[..|b| - 1] + [x];
    FilterSnoc(a[..|a| - 1], x, KeyIs(key, k));
    FilterSnoc(b[..|b| - 1], x, KeyIs(key, k));
    var wa, wb := WithKey(a, key, k), WithKey(b, key, k);
    assert WithKey(a[..|a| - 1], key, k) == wa[..|wa| - |t|];
    assert WithKey(b[..|b| - 1], key, k) == wb[..|wb| - |t|];
  }

  /** Two sorted sequences with the same groups have the same largest key. */
  lemma SameLastKey<T(!new)>(a: seq<T>, b: seq<T>, key: T -> int)
    requires a != [] && b != []
    requires SortedBy(a, key) && SortedBy(b, key)
    requires forall k :: WithKey(a, key, k) == WithKey(b, key, k)
    ensures key(a[|a| - 1]) == key(b[|b| - 1])
  {
    OccursIn(a, b, key, a[|a| - 1]);
    SortedLastIsMax(b, key, a[|a| - 1]);
    OccursIn(b, a, key, b[|b| - 1]);
    SortedLastIsMax(a, key, b[|b| - 1]);
  }

  lemma OccursIn<T(!new)>(a: seq<T>, b: seq<T>, key: T -> int, x: T)
    requires x in a
    requires WithKey(a, key, key(x)) == WithKey(b, key, key(x))
    ensures x in b
  {
    WithKeyNonEmpty(a, key, x);
    FilterSound(b, KeyIs(key, key(x)));
  }

  /** Two sorted sequences with the same groups end with the same element. */
  lemma SameLast<T(!new)>(a: seq<T>, b: seq<T>, key: T -> int)
    requires a != [] && b != []
    requires SortedBy(a, key) && SortedBy(b, key)
    requires forall k :: WithKey(a, key, k) == WithKey(b, key, k)
    ensures a[|a| - 1] == b[|b| - 1]
  {
    SameLastKey(a, b, key);
    var x, y := a[|a| - 1], b[|b| - 1];
    var m := key(x);
    LastOfGroup(a, key, m);
    LastOfGroup(b, key, m);
  }

  /** The group of the last element's key ends with that element. */
  lemma LastOfGroup<T(!new)>(a: seq<T>, key: T -> int, m: int)
    requires a != [] && key(a[|a| - 1]) == m
    ensures WithKey(a, key, m) != [] && WithKey(a, key, m)[|WithKey(a, key, m)| - 1] == a[|a| - 1]
  {
    assert a == a[..|a| - 1] + [a[|a| - 1]];
    FilterSnoc(a[..|a| - 1], a[|a| - 1], KeyIs(key, m));
  }

  /** Any sequence with the three properties of a stable sort equals `SortBy`. */
  lemma IsStableSortOf<T(!new)>(s: seq<T>, r: seq<T>, key: T -> int)
    requires SortedBy(r, key)
    requires forall k :: WithKey(r, key, k) == WithKey(s, key, k)
    ensures r == SortBy(s, key)
  {
    SortByCorrect(s, key);
    StableSortUnique(r, SortBy(s, key), key);
  }
}
