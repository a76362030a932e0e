/**
 * PHP 8's sorts are stable, so Laravel's `sortBy` / `sortByDesc` order a collection by a key and keep
 * the original order among equal keys. This module gives that sort as a stable insertion sort and
 * proves what callers rely on: the result is a permutation, ordered by the key, and, for a key with
 * two values, it is exactly the first class followed by the second, each in its original order.
 */
module Sorting {
  import opened Seqs

  /** Places `x` after every leading element whose key is not greater than its own. */
  function Insert<T>(x: T, s: seq<T>, key: T -> int): (r: seq<T>)
    ensures |r| == |s| + 1
    ensures multiset(r) == multiset(s) + multiset{x}
  {
    if s == [] then [x]
    else if key(x) < key(s[0]) then [x] + s
    else
      assert s == [s[0]] + s[1..];
      [s[0]] + Insert(x, s[1..], key)
  }

  lemma {:induction false} InsertSorted<T>(x: T, s: seq<T>, key: T -> int)
    requires SortedBy(s, key)
    ensures SortedBy(Insert(x, s, key), key)
  {
    if s != [] && key(x) >= key(s[0]) {
      InsertSorted(x, s[1..], key);
      var tail := Insert(x, s[1..], key);
      forall j | 0 <= j < |tail| ensures key(s[0]) <= key(tail[j]) {
        assert tail[j] in multiset(tail);
        assert tail[j] in multiset(s[1..]) + multiset{x};
        if tail[j] != x {
          assert tail[j] in s[1..];
        }
      }
    }
  }

  /** Laravel's `sortBy` on a PHP 8 collection: ascending by `key`, equal keys in input order. */
  function SortBy<T>(s: seq<T>, key: T -> int): (r: seq<T>)
    ensures multiset(r) == multiset(s)
    ensures SortedBy(r, key)
  {
    if s == [] then []
    else
      var init := s[..|s| - 1];
      assert s == init + [s[|s| - 1]];
      var sortedInit := SortBy(init, key);
      InsertSorted(s[|s| - 1], sortedInit, key);
      Insert(s[|s| - 1], sortedInit, key)
  }

  /** `sortByDesc`: the stable sort on the negated key, so equal keys still keep their order. */
  function SortByDesc<T>(s: seq<T>, key: T -> int): (r: seq<T>)
    ensures multiset(r) == multiset(s)
    ensures forall i, j | 0 <= i < j < |r| :: key(r[i]) >= key(r[j])
  {
    var r := SortBy(s, Negated(key));
    assert SortedBy(r, Negated(key));
    r
  }

  function Negated<T>(key: T -> int): T -> int {
    x => -key(x)
  }

  lemma {:induction false} InsertPastSmaller<T>(x: T, a: seq<T>, b: seq<T>, key: T -> int)
    requires forall y | y in a :: key(y) <= key(x)
    ensures Insert(x, a + b, key) == a + Insert(x, b, key)
  {
    if a != [] {
      assert forall y | y in a[1..] :: y in a;
      InsertPastSmaller(x, a[1..], b, key);
      assert a[0] in a;
      InsertPastStep(x, a, b, key);
    } else {
      assert a + b == b;
    }
  }

  lemma InsertPastStep<T>(x: T, a: seq<T>, b: seq<T>, key: T -> int)
    requires a != [] && key(a[0]) <= key(x)
    requires Insert(x, a[1..] + b, key) == a[1..] + Insert(x, b, key)
    ensures Insert(x, a + b, key) == a + Insert(x, b, key)
  {
    var y, t, i := a[0], a[1..], Insert(x, b, key);
    ConsConcat(a, b);
    ConsConcat(a, i);
    InsertCons(x, y, t + b, key);
  }

  /** Splitting off the head of the left operand of a concatenation. */
  lemma ConsConcat<T>(a: seq<T>, b: seq<T>)
    requires a != []
    ensures a + b == [a[0]] + (a[1..] + b)
  {
    assert a == [a[0]] + a[1..];
  }

  lemma InsertBeforeGreater<T>(x: T, b: seq<T>, key: T -> int)
    requires forall y | y in b :: key(x) < key(y)
    ensures Insert(x, b, key) == [x] + b
  {
    if b != [] {
      assert b[0] in b;
    }
  }

  /** The elements whose key is `v`. */
  function KeyIs<T>(key: T -> int, v: int): T -> bool {
    x => key(x) == v
  }

  /** Sorting two elements swaps them exactly when the second has the smaller key. */
  lemma SortPair<T>(x: T, y: T, key: T -> int)
    ensures SortBy([x, y], key) == if key(y) < key(x) then [y, x] else [x, y]
  {
    assert [x, y][..1] == [x];
    assert [x][..0] == [];
  }

  /** Sorting one more element inserts it into the sorted prefix. */
  lemma SortBySnoc<T>(init: seq<T>, x: T, key: T -> int)
    ensures SortBy(init + [x], key) == Insert(x, SortBy(init, key), key)
  {
    assert (init + [x])[..|init + [x]| - 1] == init;
  }

  /** Filtering one more element appends it exactly when it passes. */
  lemma FilterSnoc<T(!new)>(init: seq<T>, x: T, p: T -> bool)
    ensures Filter(init + [x], p) == Filter(init, p) + (if p(x) then [x] else [])
  {
    FilterConcat(init, [x], p);
    assert [x][1..] == [];
  }

  /** A `lo` element goes between the `lo` class and the `hi` class. */
  lemma InsertBetween<T>(x: T, lows: seq<T>, highs: seq<T>, key: T -> int)
    requires forall y | y in lows :: key(y) <= key(x)
    requires forall y | y in highs :: key(x) < key(y)
    ensures Insert(x, lows + highs, key) == (lows + [x]) + highs
  {
    InsertPastSmaller(x, lows, highs, key);
    InsertBeforeGreater(x, highs, key);
  }

  /** A `hi` element goes after both classes. */
  lemma InsertLast<T>(x: T, lows: seq<T>, highs: seq<T>, key: T -> int)
    requires forall y | y in lows :: key(y) <= key(x)
    requires forall y | y in highs :: key(y) <= key(x)
    ensures Insert(x, lows + highs, key) == lows + (highs + [x])
  {
    InsertPastSmaller(x, lows, highs, key);
    InsertPastSmaller(x, highs, [], key);
    assert highs + [] == highs;
  }

  /** The inductive step of `SortTwoValued`: one more element joins its own class at the end. */
  lemma SortTwoValuedStep<T(!new)>(init: seq<T>, x: T, key: T -> int, lo: int, hi: int)
    requires lo < hi
    requires key(x) == lo || key(x) == hi
    requires SortBy(init, key) == Filter(init, KeyIs(key, lo)) + Filter(init, KeyIs(key, hi))
    ensures SortBy(init + [x], key) == Filter(init + [x], KeyIs(key, lo)) + Filter(init + [x], KeyIs(key, hi))
  {
    var L, H := Filter(init, KeyIs(key, lo)), Filter(init, KeyIs(key, hi));
    SortBySnoc(init, x, key);
    ClassKeys(init, key, lo);
    ClassKeys(init, key, hi);
    FilterSnoc(init, x, KeyIs(key, lo));
    FilterSnoc(init, x, KeyIs(key, hi));
    if key(x) == lo {
      assert KeyIs(key, lo)(x) && !KeyIs(key, hi)(x);
      InsertBetween(x, L, H, key);
      assert Filter(init + [x], KeyIs(key, lo)) == L + [x];
      assert Filter(init + [x], KeyIs(key, hi)) == H;
    } else {
      assert !KeyIs(key, lo)(x) && KeyIs(key, hi)(x);
      InsertLast(x, L, H, key);
      assert Filter(init + [x], KeyIs(key, lo)) == L;
      assert Filter(init + [x], KeyIs(key, hi)) == H + [x];
    }
  }

  lemma ClassKeys<T(!new)>(s: seq<T>, key: T -> int, v: int)
    ensures forall y | y in Filter(s, KeyIs(key, v)) :: key(y) == v
  {
  }

  /**
   * With a key of two values `lo < hi`, the stable sort is the `lo` class followed by the `hi` class,
   * each in input order: the form in which "drafts first, then by priority" is read off.
   */
  lemma {:induction false} SortTwoValued<T(!new)>(s: seq<T>, key: T -> int, lo: int, hi: int)
    requires lo < hi
    requires forall x | x in s :: key(x) == lo || key(x) == hi
    ensures SortBy(s, key) == Filter(s, KeyIs(key, lo)) + Filter(s, KeyIs(key, hi))
  {
    if s != [] {
      var init, x := s[..|s| - 1], s[|s| - 1];
      assert s == init + [x];
      assert forall y | y in init :: y in s;
      SortTwoValued(init, key, lo, hi);
      SortTwoValuedStep(init, x, key, lo, hi);
    }
  }

  /**
   * `sortByDesc` on a key of two values `lo < hi`: the `hi` class followed by the `lo` class, each
   * in input order.
   */
  lemma SortByDescTwoValued<T(!new)>(s: seq<T>, key: T -> int, lo: int, hi: int)
    requires lo < hi
    requires forall x | x in s :: key(x) == lo || key(x) == hi
    ensures SortByDesc(s, key) == Filter(s, KeyIs(key, hi)) + Filter(s, KeyIs(key, lo))
  {
    var first, second := -hi, -lo;
    SortByDescIsSortBy(s, key);
    NegatedTwoValued(s, key, lo, hi, first, second);
    NegatedClass(s, key, hi, first);
    NegatedClass(s, key, lo, second);
  }

  /** Under the negated key the `hi` class (key `first`) sorts before the `lo` class (key `second`). */
  lemma NegatedTwoValued<T(!new)>(s: seq<T>, key: T -> int, lo: int, hi: int, first: int, second: int)
    requires lo < hi && first == -hi && second == -lo
    requires forall x | x in s :: key(x) == lo || key(x) == hi
    ensures SortBy(s, Negated(key)) == Filter(s, KeyIs(Negated(key), first)) + Filter(s, KeyIs(Negated(key), second))
  {
    forall x | x in s ensures Negated(key)(x) == first || Negated(key)(x) == second {
      assert Negated(key)(x) == -key(x);
    }
    SortTwoValued(s, Negated(key), first, second);
  }

  lemma NegatedClass<T(!new)>(s: seq<T>, key: T -> int, v: int, negV: int)
    requires negV == -v
    ensures Filter(s, KeyIs(Negated(key), negV)) == Filter(s, KeyIs(key, v))
  {
    FilterCongruent(s, KeyIs(Negated(key), negV), KeyIs(key, v));
  }

  lemma SortByDescIsSortBy<T>(s: seq<T>, key: T -> int)
    ensures SortByDesc(s, key) == SortBy(s, Negated(key))
  {
  }

  lemma FilterOne<T(!new)>(x: T, p: T -> bool)
    ensures Filter([x], p) == if p(x) then [x] else []
  {
    assert [x][1..] == [];
  }

  /** Dropping elements from an insertion: the inserted element lands among the kept ones. */
  lemma {:induction false} FilterInsert<T(!new)>(x: T, t: seq<T>, key: T -> int, p: T -> bool)
    requires SortedBy(t, key)
    ensures Filter(Insert(x, t, key), p) == if p(x) then Insert(x, Filter(t, p), key) else Filter(t, p)
  {
    if t == [] {
      FilterOne(x, p);
    } else if key(x) < key(t[0]) {
      FilterInsertFront(x, t, key, p);
    } else {
      assert SortedBy(t[1..], key);
      FilterInsert(x, t[1..], key, p);
      FilterInsertPast(x, t, key, p);
    }
  }

  lemma FilterInsertFront<T(!new)>(x: T, t: seq<T>, key: T -> int, p: T -> bool)
    requires SortedBy(t, key)
    requires t != [] && key(x) < key(t[0])
    ensures Filter(Insert(x, t, key), p) == if p(x) then Insert(x, Filter(t, p), key) else Filter(t, p)
  {
    assert Insert(x, t, key) == [x] + t;
    FilterConcat([x], t, p);
    FilterOne(x, p);
    if p(x) {
      var f := Filter(t, p);
      forall y | y in f ensures key(x) < key(y) {
        var j :| 0 <= j < |t| && t[j] == y;
        assert key(t[0]) <= key(t[j]);
      }
      InsertBeforeGreater(x, f, key);
    }
  }

  lemma FilterInsertPast<T(!new)>(x: T, t: seq<T>, key: T -> int, p: T -> bool)
    requires t != [] && key(x) >= key(t[0])
    requires Filter(Insert(x, t[1..], key), p) == if p(x) then Insert(x, Filter(t[1..], p), key) else Filter(t[1..], p)
    ensures Filter(Insert(x, t, key), p) == if p(x) then Insert(x, Filter(t, p), key) else Filter(t, p)
  {
    var t0, rest := t[0], t[1..];
    var f := Filter(rest, p);
    FilterInsertCons(x, t, key, p);
    if p(t0) {
      assert Filter(t, p) == [t0] + f;
      if p(x) {
        InsertCons(x, t0, f, key);
      }
    } else {
      assert Filter(t, p) == f;
    }
  }

  lemma FilterInsertCons<T(!new)>(x: T, t: seq<T>, key: T -> int, p: T -> bool)
    requires t != [] && key(x) >= key(t[0])
    ensures Filter(Insert(x, t, key), p) == (if p(t[0]) then [t[0]] else []) + Filter(Insert(x, t[1..], key), p)
  {
    var u := [t[0]] + Insert(x, t[1..], key);
    assert Insert(x, t, key) == u;
    assert u[0] == t[0] && u[1..] == Insert(x, t[1..], key);
  }

  lemma InsertCons<T>(x: T, y: T, f: seq<T>, key: T -> int)
    requires key(x) >= key(y)
    ensures Insert(x, [y] + f, key) == [y] + Insert(x, f, key)
  {
    assert ([y] + f)[0] == y && ([y] + f)[1..] == f;
  }

  /** Filtering commutes with the stable sort: a `where` before an `orderBy` keeps the listing's order. */
  lemma {:induction false} FilterSortBy<T(!new)>(s: seq<T>, key: T -> int, p: T -> bool)
    ensures Filter(SortBy(s, key), p) == SortBy(Filter(s, p), key)
  {
    if s != [] {
      var init, x := s[..|s| - 1], s[|s| - 1];
      assert s == init + [x];
      FilterSortBy(init, key, p);
      FilterSortByStep(init, x, key, p);
    }
  }

  lemma FilterSortByStep<T(!new)>(init: seq<T>, x: T, key: T -> int, p: T -> bool)
    requires Filter(SortBy(init, key), p) == SortBy(Filter(init, p), key)
    ensures Filter(SortBy(init + [x], key), p) == SortBy(Filter(init + [x], p), key)
  {
    var sorted := SortBy(init, key);
    assert Filter(SortBy(init + [x], key), p) == Filter(Insert(x, sorted, key), p) by {
      SortBySnoc(init, x, key);
    }
    FilterInsert(x, sorted, key, p);
    FilterSnoc(init, x, p);
    if p(x) {
      SortBySnoc(Filter(init, p), x, key);
    } else {
      assert Filter(init, p) + [] == Filter(init, p);
    }
  }

  /** An element whose key is strictly above every other element's ends up last. */
  lemma SortByGreatestLast<T>(s: seq<T>, x: T, key: T -> int)
    requires forall y | y in s :: key(y) < key(x)
    ensures SortBy(s + [x], key) == SortBy(s, key) + [x]
  {
    SortBySnoc(s, x, key);
    var sorted := SortBy(s, key);
    forall y | y in sorted ensures key(y) <= key(x) {
      assert y in multiset(sorted);
    }
    InsertPastSmaller(x, sorted, [], key);
    assert sorted + [] == sorted;
  }
}
