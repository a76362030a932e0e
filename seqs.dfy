/** Order-preserving operations on sequences: the shape of a SQL result set or a PHP list. */
module Seqs {

  /** The elements of `s` that satisfy `p`, in their original order (a `WHERE` clause, `array_filter`). */
  function Filter<T(!new)>(s: seq<T>, p: T -> bool): (r: seq<T>)
    ensures |r| <= |s|
    ensures forall x :: x in r <==> x in s && p(x)
    ensures forall i | 0 <= i < |r| :: p(r[i])
  {
    if s == [] then [] else (if p(s[0]) then [s[0]] else []) + Filter(s[1..], p)
  }

  lemma {:induction false} FilterConcat<T(!new)>(a: seq<T>, b: seq<T>, p: T -> bool)
    ensures Filter(a + b, p) == Filter(a, p) + Filter(b, p)
  {
    if a == [] {
      assert a + b == b;
    } else {
      assert (a + b)[1..] == a[1..] + b;
      FilterConcat(a[1..], b, p);
    }
  }

  /** Filtering twice is filtering by both conditions. */
  lemma {:induction false} FilterFilter<T(!new)>(s: seq<T>, p: T -> bool, q: T -> bool)
    ensures Filter(Filter(s, p), q) == Filter(s, x => p(x) && q(x))
  {
    if s != [] {
      FilterFilter(s[1..], p, q);
      var head := if p(s[0]) then [s[0]] else [];
      FilterConcat(head, Filter(s[1..], p), q);
    }
  }

  /** A filter that keeps every element is the identity. */
  lemma {:induction false} FilterAll<T(!new)>(s: seq<T>, p: T -> bool)
    requires forall x | x in s :: p(x)
    ensures Filter(s, p) == s
  {
    if s != [] {
      FilterAll(s[1..], p);
    }
  }

  /** A filter that keeps no element is empty. */
  lemma {:induction false} FilterNone<T(!new)>(s: seq<T>, p: T -> bool)
    requires forall x | x in s :: !p(x)
    ensures Filter(s, p) == []
  {
    if s != [] {
      FilterNone(s[1..], p);
    }
  }

  /** Filtering keeps a sub-multiset of the input. */
  lemma {:induction false} FilterMultiset<T(!new)>(s: seq<T>, p: T -> bool)
    ensures multiset(Filter(s, p)) <= multiset(s)
  {
    if s != [] {
      FilterMultiset(s[1..], p);
      var head := if p(s[0]) then [s[0]] else [];
      FilterHead(s, p);
      assert multiset(Filter(s, p)) == multiset(head) + multiset(Filter(s[1..], p));
      assert s == [s[0]] + s[1..];
      assert multiset(s) == multiset{s[0]} + multiset(s[1..]);
    }
  }

  /** A filter keeps something exactly when some element passes. */
  lemma FilterNonEmpty<T(!new)>(s: seq<T>, p: T -> bool)
    ensures |Filter(s, p)| > 0 <==> exists x | x in s :: p(x)
  {
    if exists x | x in s :: p(x) {
      var x :| x in s && p(x);
      assert x in Filter(s, p);
    }
  }

  /** Two sequences with the same elements, counted, hold the same elements. */
  lemma SameMultisetSameMembers<T>(a: seq<T>, b: seq<T>, x: T)
    requires multiset(a) == multiset(b)
    ensures x in a <==> x in b
  {
    assert x in a <==> x in multiset(a);
    assert x in b <==> x in multiset(b);
  }

  lemma ConcatAssoc<T>(a: seq<T>, b: seq<T>, c: seq<T>)
    ensures (a + b) + c == a + (b + c)
  {
  }

  /** `f` applied to every element (an `UPDATE` that touches each row, a `SELECT` list). */
  function Map<T, U>(s: seq<T>, f: T -> U): (r: seq<U>)
    ensures |r| == |s|
    ensures forall i | 0 <= i < |s| :: r[i] == f(s[i])
  {
    seq(|s|, i requires 0 <= i < |s| => f(s[i]))
  }

  lemma MapCons<T, U>(s: seq<T>, f: T -> U)
    requires s != []
    ensures Map(s, f) == [f(s[0])] + Map(s[1..], f)
  {
  }

  lemma MapConcat<T, U>(a: seq<T>, b: seq<T>, f: T -> U)
    ensures Map(a + b, f) == Map(a, f) + Map(b, f)
  {
    assert forall i | 0 <= i < |a| + |b| :: Map(a + b, f)[i] == (Map(a, f) + Map(b, f))[i];
  }

  /** `f`, then `g`. */
  function Then<T, U, V>(f: T -> U, g: U -> V): T -> V {
    x => g(f(x))
  }

  lemma ThenApply<T, U, V>(f: T -> U, g: U -> V, x: T)
    ensures Then(f, g)(x) == g(f(x))
  {
  }

  /** Mapping twice is mapping once through both functions. */
  lemma MapThen<T, U, V>(s: seq<T>, f: T -> U, g: U -> V)
    ensures Map(Map(s, f), g) == Map(s, Then(f, g))
  {
  }

  /** Two maps agree when their functions agree on every element. */
  lemma MapCongruent<T, U>(s: seq<T>, f: T -> U, g: T -> U)
    requires forall x | x in s :: f(x) == g(x)
    ensures Map(s, f) == Map(s, g)
  {
    assert forall i | 0 <= i < |s| :: s[i] in s;
  }

  /** Filtering after a map that never changes `p` is mapping the filtered sequence. */
  lemma {:induction false} FilterMap<T(!new)>(s: seq<T>, f: T -> T, p: T -> bool)
    requires forall x | x in s :: p(f(x)) == p(x)
    ensures Filter(Map(s, f), p) == Map(Filter(s, p), f)
  {
    if s != [] {
      assert Map(s, f) == [f(s[0])] + Map(s[1..], f);
      FilterMap(s[1..], f, p);
      var head := if p(s[0]) then [s[0]] else [];
      MapConcat(head, Filter(s[1..], p), f);
    }
  }

  /** The condition `p` read through `f`. */
  function Through<T, U>(f: T -> U, p: U -> bool): T -> bool {
    x => p(f(x))
  }

  /** Three maps in a row are one map of the composed function. */
  lemma MapMapMap<T, U, V, W>(s: seq<T>, f: T -> U, g: U -> V, h: V -> W, fgh: T -> W)
    requires forall x :: fgh(x) == h(g(f(x)))
    ensures Map(Map(Map(s, f), g), h) == Map(s, fgh)
  {
  }

  /** An element of a map is the image of an element. */
  lemma InMap<T, U>(s: seq<T>, f: T -> U, y: U)
    requires y in Map(s, f)
    ensures exists x | x in s :: y == f(x)
  {
    var i :| 0 <= i < |s| && Map(s, f)[i] == y;
    assert s[i] in s;
  }

  /** A filter after a map with a different element type: keep the elements whose image passes. */
  lemma {:induction false} FilterOfMap<T(!new), U(!new)>(s: seq<T>, f: T -> U, p: U -> bool)
    ensures Filter(Map(s, f), p) == Map(Filter(s, Through(f, p)), f)
  {
    if s != [] {
      FilterOfMap(s[1..], f, p);
      FilterOfMapStep(s, f, p);
    }
  }

  lemma FilterOfMapStep<T(!new), U(!new)>(s: seq<T>, f: T -> U, p: U -> bool)
    requires s != []
    requires Filter(Map(s[1..], f), p) == Map(Filter(s[1..], Through(f, p)), f)
    ensures Filter(Map(s, f), p) == Map(Filter(s, Through(f, p)), f)
  {
    var rest := Filter(s[1..], Through(f, p));
    var head: seq<T> := if p(f(s[0])) then [s[0]] else [];
    assert Filter(Map(s, f), p) == Map(head, f) + Filter(Map(s[1..], f), p) by {
      MapCons(s, f);
      FilterHead(Map(s, f), p);
    }
    assert Filter(s, Through(f, p)) == head + rest by {
      FilterHead(s, Through(f, p));
    }
    MapConcat(head, rest, f);
  }

  /** One step of `Filter`, stated on its own so that callers need not unfold the definition. */
  lemma FilterHead<T(!new)>(s: seq<T>, p: T -> bool)
    requires s != []
    ensures Filter(s, p) == (if p(s[0]) then [s[0]] else []) + Filter(s[1..], p)
  {
  }

  /** The elements of `s` are ordered by `key`, ascending. */
  ghost predicate SortedBy<T>(s: seq<T>, key: T -> int) {
    forall i, j | 0 <= i < j < |s| :: key(s[i]) <= key(s[j])
  }

  /** A filter of a sorted sequence is sorted. */
  lemma {:induction false} FilterSorted<T(!new)>(s: seq<T>, key: T -> int, p: T -> bool)
    requires SortedBy(s, key)
    ensures SortedBy(Filter(s, p), key)
  {
    if s != [] {
      FilterSorted(s[1..], key, p);
      var rest := Filter(s[1..], p);
      if p(s[0]) {
        forall j | 0 <= j < |rest| ensures key(s[0]) <= key(rest[j]) {
          assert rest[j] in s[1..];
        }
      }
    }
  }

  /** Filtering by a condition exactly one element meets leaves that element alone. */
  lemma {:induction false} FilterSingle<T(!new)>(s: seq<T>, p: T -> bool, i: int)
    requires 0 <= i < |s| && p(s[i])
    requires forall j | 0 <= j < |s| && p(s[j]) :: j == i
    ensures Filter(s, p) == [s[i]]
  {
    if i == 0 {
      FilterNone(s[1..], p) by {
        forall x | x in s[1..] ensures !p(x) {
          var j :| 0 <= j < |s[1..]| && s[1..][j] == x;
          assert s[j + 1] == x;
        }
      }
    } else {
      assert !p(s[0]);
      FilterSingle(s[1..], p, i - 1) by {
        forall j | 0 <= j < |s[1..]| && p(s[1..][j]) ensures j == i - 1 {
          assert s[j + 1] == s[1..][j];
        }
      }
    }
  }

  /** Filtering by a condition no two elements meet keeps at most one element. */
  lemma {:induction false} FilterAtMostOne<T(!new)>(s: seq<T>, p: T -> bool)
    requires forall i, j | 0 <= i < |s| && 0 <= j < |s| && p(s[i]) && p(s[j]) :: i == j
    ensures |Filter(s, p)| <= 1
  {
    if exists i | 0 <= i < |s| :: p(s[i]) {
      var i :| 0 <= i < |s| && p(s[i]);
      FilterSingle(s, p, i);
    } else {
      FilterNone(s, p);
    }
  }

  /** Two conditions that agree on every element select the same subsequence. */
  lemma {:induction false} FilterCongruent<T(!new)>(s: seq<T>, p: T -> bool, q: T -> bool)
    requires forall x | x in s :: p(x) == q(x)
    ensures Filter(s, p) == Filter(s, q)
  {
    if s != [] {
      assert s[0] in s;
      assert forall x | x in s[1..] :: x in s;
      FilterCongruent(s[1..], p, q);
    }
  }
}
