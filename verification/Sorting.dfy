/** Python's order on strings and its stable `sorted(..., key=...)`, with the facts that make a sorted list unique. */
module Sorting {

  /** Lexicographic order by code point. */
  predicate Leq(a: string, b: string) {
    a == "" || (b != "" && (a[0] < b[0] || (a[0] == b[0] && Leq(a[1..], b[1..]))))
  }

  /** The strings agree before position `k`, which both have, and `a` is the smaller there. */
  predicate SmallerAt(a: string, b: string, k: nat) {
    k < |a| && k < |b| && a[..k] == b[..k] && a[k] < b[k]
  }

  /** The order is Python's: a prefix comes first, otherwise the first difference decides. */
  lemma {:induction false} LeqIff(a: string, b: string)
    ensures Leq(a, b) <==> a <= b || exists k: nat :: SmallerAt(a, b, k)
  {
    if a != "" && b != "" {
      assert a == [a[0]] + a[1..] && b == [b[0]] + b[1..];
      forall k: nat | SmallerAt(a, b, k) ensures a[0] <= b[0] {
        assert k == 0 || (a[..k][0] == a[0] && b[..k][0] == b[0]);
      }
      if a[0] == b[0] {
        LeqIff(a[1..], b[1..]);
        if k: nat :| SmallerAt(a[1..], b[1..], k) {
          assert a[..k + 1] == [a[0]] + a[1..][..k] && b[..k + 1] == [b[0]] + b[1..][..k];
          assert SmallerAt(a, b, k + 1);
        }
        if k: nat :| SmallerAt(a, b, k) {
          assert a[1..][..k - 1] == a[..k][1..] && b[1..][..k - 1] == b[..k][1..];
          assert SmallerAt(a[1..], b[1..], k - 1);
        }
      } else if a[0] < b[0] {
        assert SmallerAt(a, b, 0);
      }
    }
  }

  lemma {:induction false} LeqTotal(a: string, b: string)
    ensures Leq(a, b) || Leq(b, a)
  {
    if a != "" && b != "" {
      LeqTotal(a[1..], b[1..]);
    }
  }

  lemma {:induction false} LeqAntisymmetric(a: string, b: string)
    requires Leq(a, b) && Leq(b, a)
    ensures a == b
  {
    if a != "" && b != "" {
      LeqAntisymmetric(a[1..], b[1..]);
      assert a == [a[0]] + a[1..] && b == [b[0]] + b[1..];
    }
  }

  lemma {:induction false} LeqTransitive(a: string, b: string, c: string)
    requires Leq(a, b) && Leq(b, c)
    ensures Leq(a, c)
  {
    if a != "" && b != "" && c != "" && a[0] == b[0] == c[0] {
      LeqTransitive(a[1..], b[1..], c[1..]);
    }
  }

  /** Puts `x` after the elements whose keys do not exceed its own. */
  function Insert<T>(xs: seq<T>, x: T, key: T -> string): (r: seq<T>)
    ensures multiset(r) == multiset(xs) + multiset{x} && |r| == |xs| + 1
  {
    if xs == [] then [x]
    else
      var last := xs[|xs| - 1];
      assert xs == xs[..|xs| - 1] + [last];
      if Leq(key(last), key(x)) then xs + [x] else Insert(xs[..|xs| - 1], x, key) + [last]
  }

  /** The key of a string sorted as it is. */
  function Whole(s: string): string { s }

  /** Stable sort by key. */
  function SortBy<T>(xs: seq<T>, key: T -> string): (r: seq<T>)
    ensures multiset(r) == multiset(xs) && |r| == |xs|
  {
    if xs == [] then []
    else
      assert xs == xs[..|xs| - 1] + [xs[|xs| - 1]];
      Insert(SortBy(xs[..|xs| - 1], key), xs[|xs| - 1], key)
  }

  lemma InitMultiset<T>(xs: seq<T>)
    requires xs != []
    ensures multiset(xs[..|xs| - 1]) == multiset(xs) - multiset{xs[|xs| - 1]}
  {
    assert xs == xs[..|xs| - 1] + [xs[|xs| - 1]];
  }

  lemma SplitMultiset<T>(xs: seq<T>, i: nat)
    requires i < |xs|
    ensures multiset(xs[..i] + xs[i + 1..]) == multiset(xs) - multiset{xs[i]}
    ensures multiset(xs[..i] + xs[i + 1..]) + multiset{xs[i]} == multiset(xs)
  {
    assert xs == xs[..i] + [xs[i]] + xs[i + 1..];
  }

  lemma SameMembers<T>(a: seq<T>, b: seq<T>)
    requires multiset(a) == multiset(b)
    ensures |a| == |b| && forall x :: x in a <==> x in b
  {
    assert |a| == |multiset(a)| && |b| == |multiset(b)|;
    assert forall x :: x in a <==> x in multiset(a);
    assert forall x :: x in b <==> x in multiset(b);
  }

  predicate SortedBy<T(==)>(xs: seq<T>, key: T -> string) {
    xs == [] || (SortedBy(xs[..|xs| - 1], key)
                 && forall y | y in xs[..|xs| - 1] :: Leq(key(y), key(xs[|xs| - 1])))
  }

  lemma {:induction false} InsertSorted<T>(xs: seq<T>, x: T, key: T -> string)
    requires SortedBy(xs, key)
    ensures SortedBy(Insert(xs, x, key), key)
  {
    if xs != [] {
      var n := |xs| - 1;
      var last := xs[n];
      if Leq(key(last), key(x)) {
        assert (xs + [x])[..|xs|] == xs;
        forall y | y in xs ensures Leq(key(y), key(x)) {
          if y in xs[..n] {
            LeqTransitive(key(y), key(last), key(x));
          }
        }
      } else {
        var inner := Insert(xs[..n], x, key);
        InsertSorted(xs[..n], x, key);
        LeqTotal(key(x), key(last));
        assert (inner + [last])[..|inner|] == inner;
        forall y | y in inner ensures Leq(key(y), key(last)) {
          assert y in multiset(inner);
          assert y == x || y in multiset(xs[..n]);
        }
      }
    }
  }

  lemma {:induction false} SortBySorted<T>(xs: seq<T>, key: T -> string)
    ensures SortedBy(SortBy(xs, key), key)
  {
    if xs != [] {
      SortBySorted(xs[..|xs| - 1], key);
      InsertSorted(SortBy(xs[..|xs| - 1], key), xs[|xs| - 1], key);
    }
  }

  /** Elements with the same key are the same element. */
  ghost predicate KeyDetermines<T(!new)>(xs: seq<T>, key: T -> string) {
    forall x, y | x in xs && y in xs && key(x) == key(y) :: x == y
  }

  lemma LastIsLargest<T>(a: seq<T>, b: seq<T>, key: T -> string)
    requires SortedBy(b, key) && multiset(a) == multiset(b) && a != []
    ensures |a| == |b| && a[|a| - 1] in b && Leq(key(a[|a| - 1]), key(b[|b| - 1]))
  {
    SameMembers(a, b);
    var x, n := a[|a| - 1], |b| - 1;
    assert x in b;
    if x !in b[..n] {
      assert x == b[n];
      LeqTotal(key(x), key(x));
    }
  }

  lemma TailMultiset<T>(a: seq<T>, b: seq<T>)
    requires a != [] && |a| == |b| && a[|a| - 1] == b[|b| - 1] && multiset(a) == multiset(b)
    ensures multiset(a[..|a| - 1]) == multiset(b[..|b| - 1])
  {
    InitMultiset(a);
    InitMultiset(b);
  }

  /** Sorted rearrangements of each other end alike. */
  lemma SortedEnds<T(!new)>(a: seq<T>, b: seq<T>, key: T -> string)
    requires SortedBy(a, key) && SortedBy(b, key) && multiset(a) == multiset(b) && KeyDetermines(a, key) && a != []
    ensures |a| == |b| && a[|a| - 1] == b[|b| - 1]
  {
    LastIsLargest(a, b, key);
    LastIsLargest(b, a, key);
    LeqAntisymmetric(key(a[|a| - 1]), key(b[|b| - 1]));
  }

  /** There is only one sorted arrangement when keys determine elements. */
  lemma {:induction false} SortedUnique<T(!new)>(a: seq<T>, b: seq<T>, key: T -> string)
    requires SortedBy(a, key) && SortedBy(b, key) && multiset(a) == multiset(b) && KeyDetermines(a, key)
    ensures a == b
  {
    if a == [] {
      assert |multiset(b)| == 0;
    } else {
      var n := |a| - 1;
      SortedEnds(a, b, key);
      TailMultiset(a, b);
      SortedUnique(a[..n], b[..n], key);
      assert a == a[..n] + [a[n]] && b == b[..n] + [b[n]];
    }
  }

  /** Sorting forgets the order of its input when keys determine elements. */
  lemma SortOrderIndependent<T(!new)>(a: seq<T>, b: seq<T>, key: T -> string)
    requires multiset(a) == multiset(b) && KeyDetermines(a, key)
    ensures SortBy(a, key) == SortBy(b, key)
  {
    SortBySorted(a, key);
    SortBySorted(b, key);
    SameMembers(SortBy(a, key), a);
    SortedUnique(SortBy(a, key), SortBy(b, key), key);
  }

  /** The elements with a given key, in order. */
  function WithKey<T>(xs: seq<T>, key: T -> string, k: string): seq<T> {
    if xs == [] then []
    else WithKey(xs[..|xs| - 1], key, k) + if key(xs[|xs| - 1]) == k then [xs[|xs| - 1]] else []
  }

  lemma {:induction false} InsertStable<T>(xs: seq<T>, x: T, key: T -> string, k: string)
    ensures WithKey(Insert(xs, x, key), key, k) == WithKey(xs, key, k) + if key(x) == k then [x] else []
  {
    if xs == [] {
      assert [x][..0] == [];
    } else {
      var n := |xs| - 1;
      if Leq(key(xs[n]), key(x)) {
        assert (xs + [x])[..|xs|] == xs;
      } else {
        LeqTotal(key(x), key(x));
        var inner := Insert(xs[..n], x, key);
        assert (inner + [xs[n]])[..|inner|] == inner;
        InsertStable(xs[..n], x, key, k);
      }
    }
  }

  /** Sorting keeps elements with equal keys in their order. */
  lemma {:induction false} SortStable<T>(xs: seq<T>, key: T -> string, k: string)
    ensures WithKey(SortBy(xs, key), key, k) == WithKey(xs, key, k)
  {
    if xs != [] {
      SortStable(xs[..|xs| - 1], key, k);
      InsertStable(SortBy(xs[..|xs| - 1], key), xs[|xs| - 1], key, k);
    }
  }

  /** No rearrangement of the list changes how it is sorted. */
  ghost predicate SortForgetsOrder<T(!new)>(xs: seq<T>, key: T -> string) {
    forall ys: seq<T> | multiset(ys) == multiset(xs) :: SortBy(ys, key) == SortBy(xs, key)
  }

  /** The order of a list is irrelevant to sorting it exactly when its keys determine its elements. */
  lemma SortForgetsOrderIff<T(!new)>(xs: seq<T>, key: T -> string)
    ensures SortForgetsOrder(xs, key) <==> KeyDetermines(xs, key)
  {
    if KeyDetermines(xs, key) {
      forall ys: seq<T> | multiset(ys) == multiset(xs) ensures SortBy(ys, key) == SortBy(xs, key) {
        SortOrderIndependent(xs, ys, key);
      }
    } else {
      var x, y :| x in xs && y in xs && key(x) == key(y) && x != y;
      ClashDisturbs(xs, x, y, key);
    }
  }

  lemma ClashDisturbs<T(!new)>(xs: seq<T>, x: T, y: T, key: T -> string)
    requires x in xs && y in xs && key(x) == key(y) && x != y
    ensures !SortForgetsOrder(xs, key)
  {
    var most := Without(xs, x);
    var rest := Without(most, y);
    PutBack(xs, most, rest, x, y);
    NotForgetful(xs, rest + [x, y], rest + [y, x], key) by {
      SwapDisturbs(rest, x, y, key);
    }
  }

  lemma NotForgetful<T(!new)>(xs: seq<T>, one: seq<T>, other: seq<T>, key: T -> string)
    requires multiset(one) == multiset(xs) && multiset(other) == multiset(xs)
    requires SortBy(one, key) != SortBy(other, key)
    ensures !SortForgetsOrder(xs, key)
  {
  }

  lemma PutBack<T>(xs: seq<T>, most: seq<T>, rest: seq<T>, x: T, y: T)
    requires multiset(most) + multiset{x} == multiset(xs) && multiset(rest) + multiset{y} == multiset(most)
    ensures multiset(rest + [x, y]) == multiset(xs)
    ensures multiset(rest + [y, x]) == multiset(xs)
  {
    assert rest + [y, x] == (rest + [y]) + [x];
    assert multiset(rest + [x, y]) == multiset(rest + [y, x]);
  }

  lemma PairsDiffer<T>(rest: seq<T>, x: T, y: T)
    requires x != y
    ensures rest + [x, y] != rest + [y, x]
  {
    assert (rest + [x, y])[|rest|] == x && (rest + [y, x])[|rest|] == y;
  }

  /** Swapping two different elements with one key changes the sorted list. */
  lemma SwapDisturbs<T>(rest: seq<T>, x: T, y: T, key: T -> string)
    requires key(x) == key(y) && x != y
    ensures SortBy(rest + [x, y], key) != SortBy(rest + [y, x], key)
  {
    var k := key(x);
    var kept := WithKey(rest, key, k);
    assert WithKey(SortBy(rest + [x, y], key), key, k) == kept + [x, y] by {
      SortStable(rest + [x, y], key, k);
      EndsWithKey(rest, x, y, key);
    }
    assert WithKey(SortBy(rest + [y, x], key), key, k) == kept + [y, x] by {
      SortStable(rest + [y, x], key, k);
      EndsWithKey(rest, y, x, key);
    }
    PairsDiffer(kept, x, y);
  }

  lemma EndsWithKey<T>(rest: seq<T>, x: T, y: T, key: T -> string)
    requires key(x) == key(y)
    ensures WithKey(rest + [x, y], key, key(x)) == WithKey(rest, key, key(x)) + [x, y]
  {
    assert (rest + [x, y])[..|rest| + 1] == rest + [x];
    assert (rest + [x])[..|rest|] == rest;
  }

  /** The list without one occurrence of an element. */
  ghost function Without<T>(xs: seq<T>, x: T): (r: seq<T>)
    requires x in xs
    ensures multiset(r) + multiset{x} == multiset(xs)
    ensures forall y | y in xs && y != x :: y in r
  {
    var i :| 0 <= i < |xs| && xs[i] == x;
    SplitMultiset(xs, i);
    xs[..i] + xs[i + 1..]
  }

  function Map<T, U>(f: T -> U, xs: seq<T>): (r: seq<U>)
    ensures |r| == |xs| && forall i | 0 <= i < |xs| :: r[i] == f(xs[i])
  {
    seq(|xs|, i requires 0 <= i < |xs| => f(xs[i]))
  }

  lemma MapSplit<T, U>(f: T -> U, xs: seq<T>, i: nat)
    requires i < |xs|
    ensures multiset(Map(f, xs)) == multiset(Map(f, xs[..i] + xs[i + 1..])) + multiset{f(xs[i])}
  {
    var ys := Map(f, xs);
    SplitMultiset(ys, i);
    assert ys[..i] + ys[i + 1..] == Map(f, xs[..i] + xs[i + 1..]);
    assert ys[i] in multiset(ys);
  }

  /** Mapping over a rearrangement gives a rearrangement. */
  lemma {:induction false} MapMultiset<T, U>(f: T -> U, a: seq<T>, b: seq<T>)
    requires multiset(a) == multiset(b)
    ensures multiset(Map(f, a)) == multiset(Map(f, b))
  {
    SameMembers(a, b);
    if a == [] {
      assert b == [];
    } else {
      var n := |a| - 1;
      assert a[n] in b;
      var i :| 0 <= i < |b| && b[i] == a[n];
      var rest := b[..i] + b[i + 1..];
      assert multiset(a[..n]) == multiset(rest) by {
        InitMultiset(a);
        SplitMultiset(b, i);
      }
      MapMultiset(f, a[..n], rest);
      assert a[..n] + a[n + 1..] == a[..n];
      MapSplit(f, a, n);
      MapSplit(f, b, i);
    }
  }

  lemma MapMember<T, U>(f: T -> U, xs: seq<T>, y: U)
    ensures y in Map(f, xs) <==> exists x :: x in xs && f(x) == y
  {
    if x :| x in xs && f(x) == y {
      var i :| 0 <= i < |xs| && xs[i] == x;
      assert Map(f, xs)[i] == y;
    }
  }

  lemma DistinctByMultiset(a: seq<string>, b: seq<string>)
    requires multiset(a) == multiset(b) && forall i, j | 0 <= i < j < |a| :: a[i] != a[j]
    ensures forall i, j | 0 <= i < j < |b| :: b[i] != b[j]
  {
    forall i, j | 0 <= i < j < |b| ensures b[i] != b[j] {
      if b[i] == b[j] {
        MultiplicityTwo(b, i, j);
        MultiplicityOne(a, b[i]);
      }
    }
  }

  lemma {:induction false} MultiplicityOne(a: seq<string>, x: string)
    requires forall i, j | 0 <= i < j < |a| :: a[i] != a[j]
    ensures multiset(a)[x] <= 1
  {
    if a != [] {
      var n := |a| - 1;
      MultiplicityOne(a[..n], x);
      assert a == a[..n] + [a[n]];
    }
  }

  lemma MultiplicityTwo(b: seq<string>, i: nat, j: nat)
    requires i < j < |b| && b[i] == b[j]
    ensures multiset(b)[b[i]] >= 2
  {
    assert b == b[..j] + [b[j]] + b[j + 1..];
    assert b[..j][i] == b[i] && b[i] in multiset(b[..j]);
  }
}
