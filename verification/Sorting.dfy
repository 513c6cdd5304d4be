/** Stable sorting by a comparison, and when its result does not depend on the order of its input. */
module Sorting {
  import opened Strings

  ghost predicate WeakOrder<T(!new)>(less: (T, T) -> bool) {
    && (forall a, b :: less(a, b) ==> !less(b, a))
    && (forall a, b, c :: less(a, c) ==> less(a, b) || less(b, c))
  }

  predicate Sorted<T>(less: (T, T) -> bool, xs: seq<T>) { forall i, j :: 0 <= i < j < |xs| ==> !less(xs[j], xs[i]) }

  function Insert<T>(less: (T, T) -> bool, x: T, xs: seq<T>): (r: seq<T>)
    ensures multiset(r) == multiset(xs) + multiset{x}
  {
    if xs == [] || !less(xs[0], x) then [x] + xs
    else
      assert xs == [xs[0]] + xs[1..];
      [xs[0]] + Insert(less, x, xs[1..])
  }

  /** Equal elements keep the order they had. */
  function Sort<T>(less: (T, T) -> bool, xs: seq<T>): (r: seq<T>)
    ensures multiset(r) == multiset(xs)
  {
    if xs == [] then []
    else
      assert xs == [xs[0]] + xs[1..];
      Insert(less, xs[0], Sort(less, xs[1..]))
  }

  lemma {:induction false} InsertKeepsSorted<T(!new)>(less: (T, T) -> bool, x: T, xs: seq<T>)
    requires WeakOrder(less) && Sorted(less, xs)
    ensures Sorted(less, Insert(less, x, xs))
  {
    var r := Insert(less, x, xs);
    if xs == [] {
    } else if !less(xs[0], x) {
      var first := xs[0];
      forall j | 0 <= j < |xs| ensures !less(xs[j], x) {
        var y := xs[j];
        assert less(y, x) ==> less(y, first) || less(first, x);
      }
    } else {
      var rest := Insert(less, x, xs[1..]);
      InsertKeepsSorted(less, x, xs[1..]);
      forall j | 0 <= j < |rest| ensures !less(rest[j], xs[0]) {
        assert rest[j] in multiset(rest);
        if rest[j] != x {
          assert rest[j] in xs[1..];
          var k :| 0 <= k < |xs[1..]| && xs[1..][k] == rest[j];
          assert rest[j] == xs[k + 1];
        }
      }
    }
  }

  lemma {:induction false} SortSorts<T(!new)>(less: (T, T) -> bool, xs: seq<T>)
    requires WeakOrder(less)
    ensures Sorted(less, Sort(less, xs))
  {
    if xs != [] {
      SortSorts(less, xs[1..]);
      InsertKeepsSorted(less, xs[0], Sort(less, xs[1..]));
    }
  }

  /** No two different elements are equivalent. */
  predicate Separates<T(==)>(less: (T, T) -> bool, xs: seq<T>) {
    forall i, j :: 0 <= i < |xs| && 0 <= j < |xs| && xs[i] != xs[j] ==> less(xs[i], xs[j]) || less(xs[j], xs[i])
  }

  lemma SameLength<T>(xs: seq<T>, ys: seq<T>)
    requires multiset(xs) == multiset(ys)
    ensures |xs| == |ys|
  {
    assert |multiset(xs)| == |xs| && |multiset(ys)| == |ys|;
  }

  lemma InMultiset<T>(x: T, xs: seq<T>, ys: seq<T>) returns (i: nat)
    requires multiset(xs) == multiset(ys) && x in xs
    ensures i < |ys| && ys[i] == x
  {
    assert x in multiset(xs);
    assert x in ys;
    i :| 0 <= i < |ys| && ys[i] == x;
  }

  lemma HeadsAgree<T>(less: (T, T) -> bool, xs: seq<T>, ys: seq<T>)
    requires Sorted(less, xs) && Sorted(less, ys) && multiset(xs) == multiset(ys) && Separates(less, xs)
    requires xs != [] && ys != []
    ensures xs[0] == ys[0]
  {
    var i := InMultiset(xs[0], xs, ys);
    var j := InMultiset(ys[0], ys, xs);
    var x, y := xs[0], xs[j];
    assert i == 0 || !less(x, y);
    assert j == 0 || !less(y, x);
    assert x == y || less(x, y) || less(y, x);
  }

  lemma TailsAgree<T>(xs: seq<T>, ys: seq<T>)
    requires multiset(xs) == multiset(ys) && xs != [] && ys != [] && xs[0] == ys[0]
    ensures multiset(xs[1..]) == multiset(ys[1..])
  {
    assert xs == [xs[0]] + xs[1..] && ys == [ys[0]] + ys[1..];
    assert multiset(xs[1..]) == multiset(xs) - multiset{xs[0]};
    assert multiset(ys[1..]) == multiset(ys) - multiset{ys[0]};
  }

  /** When the comparison separates the elements, they have one sorted order. */
  lemma {:induction false} OneSortedOrder<T>(less: (T, T) -> bool, xs: seq<T>, ys: seq<T>)
    requires Sorted(less, xs) && Sorted(less, ys) && multiset(xs) == multiset(ys) && Separates(less, xs)
    ensures xs == ys
  {
    SameLength(xs, ys);
    if xs != [] {
      HeadsAgree(less, xs, ys);
      TailsAgree(xs, ys);
      OneSortedOrder(less, xs[1..], ys[1..]);
      assert xs == [xs[0]] + xs[1..] && ys == [ys[0]] + ys[1..];
    }
  }

  lemma LessIsWeakOrder()
    ensures WeakOrder(Less)
  {
    forall a, b | Less(a, b) ensures !Less(b, a) { LessAsymmetric(a, b); }
    forall a, b, c | Less(a, c) ensures Less(a, b) || Less(b, c) {
      LessTotal(a, b);
      if Less(b, a) { LessTransitive(b, a, c); }
    }
  }
}
