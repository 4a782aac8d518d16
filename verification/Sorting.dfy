/** The library's stable sort, for any total order on the keys. */
module Sorting {
  /** Any two items are in order one way or the other, and order carries over. */
  ghost predicate Orders<T(!new)>(le: (T, T) -> bool) {
    (forall a, b :: le(a, b) || le(b, a)) && (forall a, b, c :: le(a, b) && le(b, c) ==> le(a, c))
  }

  /** Puts an item after everything that is not greater. */
  function Insert<T>(le: (T, T) -> bool, xs: seq<T>, x: T): seq<T> {
    if xs == [] then [x]
    else if le(xs[0], x) then [xs[0]] + Insert(le, xs[1..], x)
    else [x] + xs
  }

  function Sort<T>(le: (T, T) -> bool, xs: seq<T>): seq<T> {
    if xs == [] then [] else Insert(le, Sort(le, xs[..|xs| - 1]), xs[|xs| - 1])
  }

  predicate Sorted<T>(le: (T, T) -> bool, xs: seq<T>) {
    forall i, j :: 0 <= i < j < |xs| ==> le(xs[i], xs[j])
  }

  lemma {:induction false} InsertHolds<T>(le: (T, T) -> bool, xs: seq<T>, x: T)
    ensures multiset(Insert(le, xs, x)) == multiset(xs) + multiset{x}
    ensures forall y :: y in Insert(le, xs, x) <==> y in xs || y == x
  {
    if xs != [] {
      assert xs == [xs[0]] + xs[1..];
      if le(xs[0], x) {
        InsertHolds(le, xs[1..], x);
      }
    }
  }

  lemma {:induction false} SortedFront<T>(le: (T, T) -> bool, x: T, xs: seq<T>)
    requires Sorted(le, xs) && forall y :: y in xs ==> le(x, y)
    ensures Sorted(le, [x] + xs)
  {
  }

  lemma {:induction false} InsertSorted<T(!new)>(le: (T, T) -> bool, xs: seq<T>, x: T)
    requires Orders(le) && Sorted(le, xs)
    ensures Sorted(le, Insert(le, xs, x))
  {
    if xs != [] {
      if le(xs[0], x) {
        InsertSorted(le, xs[1..], x);
        InsertHolds(le, xs[1..], x);
        SortedFront(le, xs[0], Insert(le, xs[1..], x));
      } else {
        assert xs == [xs[0]] + xs[1..];
        SortedFront(le, x, xs);
      }
    }
  }

  /** Sorting keeps every item as often as it was, and puts them in order. */
  lemma {:induction false} SortSorts<T(!new)>(le: (T, T) -> bool, xs: seq<T>)
    ensures multiset(Sort(le, xs)) == multiset(xs)
    ensures forall y :: y in Sort(le, xs) <==> y in xs
    ensures Orders(le) ==> Sorted(le, Sort(le, xs))
  {
    if xs != [] {
      var init, last := xs[..|xs| - 1], xs[|xs| - 1];
      SortSorts(le, init);
      InsertHolds(le, Sort(le, init), last);
      if Orders(le) {
        InsertSorted(le, Sort(le, init), last);
      }
      assert xs == init + [last];
    }
  }

  lemma {:induction false} InsertLast<T>(le: (T, T) -> bool, xs: seq<T>, x: T)
    requires forall i :: 0 <= i < |xs| ==> le(xs[i], x)
    ensures Insert(le, xs, x) == xs + [x]
  {
    if xs != [] {
      InsertLast(le, xs[1..], x);
      assert xs == [xs[0]] + xs[1..];
    }
  }

  /** A list in order stays as it is. */
  lemma {:induction false} SortKeeps<T>(le: (T, T) -> bool, xs: seq<T>)
    requires Sorted(le, xs)
    ensures Sort(le, xs) == xs
  {
    if xs != [] {
      var init, last := xs[..|xs| - 1], xs[|xs| - 1];
      SortKeeps(le, init);
      InsertLast(le, init, last);
      assert xs == init + [last];
    }
  }

  lemma {:induction false} InsertSplits<T>(le: (T, T) -> bool, xs: seq<T>, x: T) returns (n: nat)
    ensures n <= |xs| && Insert(le, xs, x) == xs[..n] + [x] + xs[n..]
  {
    if xs == [] || !le(xs[0], x) {
      n := 0;
      assert xs[..0] + [x] + xs[0..] == [x] + xs;
    } else {
      var m := InsertSplits(le, xs[1..], x);
      n := m + 1;
      assert [xs[0]] + (xs[1..][..m] + [x] + xs[1..][m..]) == xs[..n] + [x] + xs[n..];
    }
  }

  ghost predicate Distinct<T, K>(key: T -> K, xs: seq<T>) {
    forall i, j :: 0 <= i < j < |xs| ==> key(xs[i]) != key(xs[j])
  }

  /** Sorting keeps distinct keys distinct. */
  lemma {:induction false} SortDistinct<T, K>(le: (T, T) -> bool, key: T -> K, xs: seq<T>)
    requires Distinct(key, xs)
    ensures Distinct(key, Sort(le, xs))
    ensures forall y :: y in Sort(le, xs) <==> y in xs
  {
    if xs != [] {
      var init, last := xs[..|xs| - 1], xs[|xs| - 1];
      SortDistinct(le, key, init);
      var sorted := Sort(le, init);
      assert Sort(le, xs) == Insert(le, sorted, last);
      hide Sort, Insert;
      assert xs == init + [last];
      forall y | y in sorted
        ensures key(y) != key(last)
      {
        assert y in init;
        var i :| 0 <= i < |init| && init[i] == y;
        assert xs[i] == y;
      }
      InsertHolds(le, sorted, last);
      InsertDistinct(le, key, sorted, last);
    }
  }

  lemma {:induction false} InsertDistinct<T, K>(le: (T, T) -> bool, key: T -> K, xs: seq<T>, x: T)
    requires Distinct(key, xs) && forall y :: y in xs ==> key(y) != key(x)
    ensures Distinct(key, Insert(le, xs, x))
  {
    var n := InsertSplits(le, xs, x);
    var out := Insert(le, xs, x);
    hide Insert;
    forall i, j | 0 <= i < j < |out|
      ensures key(out[i]) != key(out[j])
    {
      assert i != n ==> out[i] == xs[if i < n then i else i - 1];
      assert j != n ==> out[j] == xs[if j < n then j else j - 1];
    }
  }
}
