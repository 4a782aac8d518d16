/** Strings in the order of their code points, and lists of names sorted that way. */
module TextOrder {
  import Sorting

  /** String order by code points, which is also the byte order of UTF-8. */
  predicate StrLe(a: string, b: string) {
    a == "" || (b != "" && (a[0] < b[0] || (a[0] == b[0] && StrLe(a[1..], b[1..]))))
  }

  lemma StrLeTotal(a: string, b: string)
    ensures StrLe(a, b) || StrLe(b, a)
  {
  }

  lemma StrLeTransitive(a: string, b: string, c: string)
    requires StrLe(a, b) && StrLe(b, c)
    ensures StrLe(a, c)
  {
  }

  lemma {:induction false} StrLeAntisymmetric(a: string, b: string)
    requires StrLe(a, b) && StrLe(b, a)
    ensures a == b
  {
    if a != "" && b != "" {
      StrLeAntisymmetric(a[1..], b[1..]);
      assert a == [a[0]] + a[1..] && b == [b[0]] + b[1..];
    }
  }

  /** A string comes before another when it ends first or has the smaller character where they part. */
  lemma {:induction false} StrLeIs(a: string, b: string)
    ensures StrLe(a, b) <==>
            exists n :: 0 <= n <= |a| && n <= |b| && a[..n] == b[..n] && (n == |a| || (n < |b| && a[n] < b[n]))
  {
    if a == "" {
      assert a[..0] == b[..0];
    } else if b != "" {
      StrLeIs(a[1..], b[1..]);
      if StrLe(a, b) && a[0] == b[0] {
        var n :| 0 <= n <= |a[1..]| && n <= |b[1..]| && a[1..][..n] == b[1..][..n] &&
                 (n == |a[1..]| || (n < |b[1..]| && a[1..][n] < b[1..][n]));
        assert a[..n + 1] == [a[0]] + a[1..][..n] && b[..n + 1] == [b[0]] + b[1..][..n];
      } else if StrLe(a, b) {
        assert a[..0] == b[..0];
      }
      if n :| 0 < n <= |a| && n <= |b| && a[..n] == b[..n] && (n == |a| || (n < |b| && a[n] < b[n])) {
        assert a[0] == a[..n][0] && b[0] == b[..n][0];
        assert a[1..][..n - 1] == a[..n][1..] && b[1..][..n - 1] == b[..n][1..];
      }
    }
  }

  lemma StrLeOrders()
    ensures Sorting.Orders(StrLe)
  {
    forall a, b
      ensures StrLe(a, b) || StrLe(b, a)
    {
      StrLeTotal(a, b);
    }
    forall a, b, c | StrLe(a, b) && StrLe(b, c)
      ensures StrLe(a, c)
    {
      StrLeTransitive(a, b, c);
    }
  }

  /** The library sort on names. */
  function SortNames(names: seq<string>): seq<string> {
    Sorting.Sort(StrLe, names)
  }

  ghost predicate SortedNames(names: seq<string>) {
    forall i, j :: 0 <= i < j < |names| ==> StrLe(names[i], names[j])
  }

  /** Sorting lists the same names, in order. */
  lemma SortNamesSorts(names: seq<string>)
    ensures multiset(SortNames(names)) == multiset(names)
    ensures forall k :: k in SortNames(names) <==> k in names
    ensures SortedNames(SortNames(names))
  {
    StrLeOrders();
    Sorting.SortSorts(StrLe, names);
    hide StrLe, Sorting.Sort;
  }
}
