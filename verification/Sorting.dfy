/** Sorting by a comparison, as the reports of the system use it. */
module Sorting {
  ghost predicate TotalOrder<T(!new)>(leq: (T, T) -> bool) {
    && (forall x, y :: leq(x, y) || leq(y, x))
    && (forall x, y, z :: leq(x, y) && leq(y, z) ==> leq(x, z))
  }

  ghost predicate Sorted<T>(s: seq<T>, leq: (T, T) -> bool) {
    forall i, j :: 0 <= i < j < |s| ==> leq(s[i], s[j])
  }

  function Insert<T>(s: seq<T>, x: T, leq: (T, T) -> bool): seq<T> {
    if s == [] || leq(x, s[0]) then [x] + s else [s[0]] + Insert(s[1..], x, leq)
  }

  function Sort<T>(s: seq<T>, leq: (T, T) -> bool): seq<T> {
    if s == [] then [] else Insert(Sort(s[..|s| - 1], leq), s[|s| - 1], leq)
  }

  lemma {:induction false} InsertKeepsElements<T>(s: seq<T>, x: T, leq: (T, T) -> bool)
    ensures multiset(Insert(s, x, leq)) == multiset(s) + multiset{x}
  {
    if s != [] && !leq(x, s[0]) {
      InsertKeepsElements(s[1..], x, leq);
      assert s == [s[0]] + s[1..];
    }
  }

  lemma {:induction false} InsertKeepsSorted<T(!new)>(s: seq<T>, x: T, leq: (T, T) -> bool)
    requires TotalOrder(leq) && Sorted(s, leq)
    ensures Sorted(Insert(s, x, leq), leq)
  {
    if s != [] && leq(x, s[0]) {
      assert forall j :: 0 <= j < |s| ==> leq(x, s[j]) by {
        assert forall j :: 0 < j < |s| ==> leq(s[0], s[j]);
      }
    } else if s != [] {
      var rest := Insert(s[1..], x, leq);
      InsertKeepsSorted(s[1..], x, leq);
      InsertKeepsElements(s[1..], x, leq);
      forall j | 0 <= j < |rest| ensures leq(s[0], rest[j]) {
        assert rest[j] in multiset(rest);
        assert rest[j] == x || rest[j] in s[1..];
      }
    }
  }

  lemma {:induction false} SortKeepsElements<T>(s: seq<T>, leq: (T, T) -> bool)
    ensures multiset(Sort(s, leq)) == multiset(s)
  {
    if s != [] {
      SortKeepsElements(s[..|s| - 1], leq);
      InsertKeepsElements(Sort(s[..|s| - 1], leq), s[|s| - 1], leq);
      assert s == s[..|s| - 1] + [s[|s| - 1]];
    }
  }

  lemma {:induction false} SortGivesOrder<T(!new)>(s: seq<T>, leq: (T, T) -> bool)
    requires TotalOrder(leq)
    ensures Sorted(Sort(s, leq), leq)
  {
    if s != [] {
      SortGivesOrder(s[..|s| - 1], leq);
      InsertKeepsSorted(Sort(s[..|s| - 1], leq), s[|s| - 1], leq);
    }
  }

  /** Sorting neither loses nor invents an element, and the result is in order. */
  lemma SortSorts<T(!new)>(s: seq<T>, leq: (T, T) -> bool)
    requires TotalOrder(leq)
    ensures multiset(Sort(s, leq)) == multiset(s) && Sorted(Sort(s, leq), leq)
  {
    SortKeepsElements(s, leq);
    SortGivesOrder(s, leq);
  }

  /** No two different elements tie. */
  ghost predicate NoTies<T>(s: seq<T>, leq: (T, T) -> bool) {
    forall x, y :: x in s && y in s && leq(x, y) && leq(y, x) ==> x == y
  }

  lemma FirstElementsAgree<T(!new)>(a: seq<T>, b: seq<T>, leq: (T, T) -> bool)
    requires TotalOrder(leq) && Sorted(a, leq) && Sorted(b, leq) && NoTies(a, leq)
    requires multiset(a) == multiset(b) && a != [] && b != []
    ensures a[0] == b[0]
  {
    assert a[0] in multiset(b) && b[0] in multiset(a);
    var i :| 0 <= i < |a| && a[i] == b[0];
    var j :| 0 <= j < |b| && b[j] == a[0];
    assert leq(a[0], a[0]) && leq(b[0], b[0]);
  }

  lemma TailsAgree<T>(a: seq<T>, b: seq<T>)
    requires multiset(a) == multiset(b) && a != [] && b != [] && a[0] == b[0]
    ensures multiset(a[1..]) == multiset(b[1..])
  {
    assert a == [a[0]] + a[1..] && b == [b[0]] + b[1..];
    assert multiset(a[1..]) == multiset(a) - multiset{a[0]};
    assert multiset(b[1..]) == multiset(b) - multiset{b[0]};
  }

  lemma {:induction false} SortedIsUnique<T(!new)>(a: seq<T>, b: seq<T>, leq: (T, T) -> bool)
    requires TotalOrder(leq) && Sorted(a, leq) && Sorted(b, leq) && NoTies(a, leq)
    requires multiset(a) == multiset(b)
    ensures a == b
  {
    if a == [] {
      assert |multiset(b)| == 0;
    } else {
      assert |multiset(a)| == |multiset(b)|;
      FirstElementsAgree(a, b, leq);
      TailsAgree(a, b);
      SortedIsUnique(a[1..], b[1..], leq);
      assert a == [a[0]] + a[1..] && b == [b[0]] + b[1..];
    }
  }

  /** The result of a sort depends on the elements only, not on the order they arrive in. */
  lemma SortIgnoresOrder<T(!new)>(a: seq<T>, b: seq<T>, leq: (T, T) -> bool)
    requires TotalOrder(leq) && NoTies(a, leq) && multiset(a) == multiset(b)
    ensures Sort(a, leq) == Sort(b, leq)
  {
    SortSorts(a, leq);
    SortSorts(b, leq);
    forall x | x in Sort(a, leq) ensures x in a {
      assert x in multiset(a);
    }
    SortedIsUnique(Sort(a, leq), Sort(b, leq), leq);
  }

  predicate NoRepeats<T(==)>(s: seq<T>) {
    forall i, j :: 0 <= i < j < |s| ==> s[i] != s[j]
  }

  lemma {:induction false} CountsWithoutRepeats<T>(s: seq<T>, x: T)
    requires NoRepeats(s)
    ensures multiset(s)[x] == if x in s then 1 else 0
  {
    if s != [] {
      var head := s[..|s| - 1];
      assert s == head + [s[|s| - 1]];
      CountsWithoutRepeats(head, x);
    }
  }

  /** Two sequences without repetitions that have the same elements are permutations of each other. */
  lemma SameElementsWithoutRepeats<T(!new)>(a: seq<T>, b: seq<T>)
    requires NoRepeats(a) && NoRepeats(b) && forall x :: x in a <==> x in b
    ensures multiset(a) == multiset(b)
  {
    forall x ensures multiset(a)[x] == multiset(b)[x] {
      CountsWithoutRepeats(a, x);
      CountsWithoutRepeats(b, x);
    }
  }

  /** Two listings of the same elements without repetitions sort alike. */
  lemma ListingsSortAlike<T(!new)>(a: seq<T>, b: seq<T>, leq: (T, T) -> bool)
    requires NoRepeats(a) && NoRepeats(b) && forall x :: x in a <==> x in b
    requires TotalOrder(leq) && NoTies(a, leq)
    ensures Sort(a, leq) == Sort(b, leq)
  {
    SameElementsWithoutRepeats(a, b);
    SortIgnoresOrder(a, b, leq);
  }
}
