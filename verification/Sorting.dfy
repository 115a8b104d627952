/** Insertion sort, which Go's sort package uses for short lists, for any comparison the callers supply. */
module Sorting {

  /** Moves `x` left from the end past everything it comes before. */
  function Insert<T>(before: (T, T) -> bool, s: seq<T>, x: T): (r: seq<T>)
    ensures |r| == |s| + 1
  {
    if s != [] && before(x, s[|s| - 1]) then Insert(before, s[..|s| - 1], x) + [s[|s| - 1]] else s + [x]
  }

  function Sort<T>(before: (T, T) -> bool, s: seq<T>): (r: seq<T>)
    ensures |r| == |s|
  {
    if s == [] then [] else Insert(before, Sort(before, s[..|s| - 1]), s[|s| - 1])
  }

  /** The in-place algorithm: one swap at a time. */
  method SortInPlace<T>(before: (T, T) -> bool, a: array<T>)
    modifies a
    ensures a[..] == Sort(before, old(a[..]))
  {
    ghost var was := a[..];
    assert Sort(before, was[..0]) == [];
    hide Sort, Insert;
    for i := 0 to a.Length
      invariant a[..i] == Sort(before, was[..i])
      invariant a[i..] == was[i..]
    {
      SortStep(before, was, i);
      assert a[i] == a[i..][0] && a[i + 1..] == a[i..][1..];
      InsertInPlace(before, a, i);
    }
    assert a[..a.Length] == a[..] && was[..a.Length] == was;
  }

  lemma SortStep<T>(before: (T, T) -> bool, s: seq<T>, i: nat)
    requires i < |s|
    ensures Sort(before, s[..i + 1]) == Insert(before, Sort(before, s[..i]), s[i])
  {
    assert s[..i + 1][..i] == s[..i];
  }

  method InsertInPlace<T>(before: (T, T) -> bool, a: array<T>, i: nat)
    requires i < a.Length
    modifies a
    ensures a[..i + 1] == Insert(before, old(a[..i]), old(a[i]))
    ensures a[i + 1..] == old(a[i + 1..])
  {
    hide Insert;
    ghost var x := a[i];
    var j := i;
    ghost var right: seq<T> := [];
    while j > 0 && before(a[j], a[j - 1])
      invariant 0 <= j <= i && a[j] == x
      invariant a[j + 1..i + 1] == right
      invariant Insert(before, old(a[..i]), x) == Insert(before, a[..j], x) + right
      invariant a[i + 1..] == old(a[i + 1..])
    {
      InsertStep(before, a[..j], x);
      assert a[..j][..j - 1] == a[..j - 1];
      ghost var left, y := a[..j - 1], a[j - 1];
      a[j], a[j - 1] := a[j - 1], a[j];
      assert a[j + 1..i + 1] == right;
      assert Insert(before, left, x) + [y] + right == Insert(before, left, x) + ([y] + right);
      right := [y] + right;
      j := j - 1;
      assert a[..j] == left;
    }
    InsertStep(before, a[..j], x);
    assert a[..i + 1] == a[..j] + [x] + right;
  }

  lemma InsertStep<T>(before: (T, T) -> bool, s: seq<T>, x: T)
    ensures Insert(before, s, x) ==
      if s != [] && before(x, s[|s| - 1]) then Insert(before, s[..|s| - 1], x) + [s[|s| - 1]] else s + [x]
  {
  }

  // ----- what every sort keeps ------------------------------------------------------------

  lemma {:induction false} InsertPermutes<T>(before: (T, T) -> bool, s: seq<T>, x: T)
    ensures multiset(Insert(before, s, x)) == multiset(s) + multiset{x}
  {
    if s != [] && before(x, s[|s| - 1]) {
      InsertPermutes(before, s[..|s| - 1], x);
      SplitLast(s);
    }
  }

  lemma SplitLast<T>(s: seq<T>)
    requires s != []
    ensures multiset(s) == multiset(s[..|s| - 1]) + multiset{s[|s| - 1]}
  {
    assert s == s[..|s| - 1] + [s[|s| - 1]];
  }

  /** The sort is a permutation, whatever the comparison. */
  lemma {:induction false} SortPermutes<T>(before: (T, T) -> bool, s: seq<T>)
    ensures multiset(Sort(before, s)) == multiset(s)
  {
    hide Insert;
    if s != [] {
      SortPermutes(before, s[..|s| - 1]);
      InsertPermutes(before, Sort(before, s[..|s| - 1]), s[|s| - 1]);
      SplitLast(s);
    }
  }

  lemma SortMembers<T>(before: (T, T) -> bool, s: seq<T>)
    ensures forall x :: x in Sort(before, s) <==> x in s
  {
    SortPermutes(before, s);
    forall x
      ensures x in Sort(before, s) <==> x in s
    {
      assert x in Sort(before, s) <==> x in multiset(Sort(before, s));
      assert x in s <==> x in multiset(s);
    }
  }

  lemma InsertMembers<T>(before: (T, T) -> bool, s: seq<T>, x: T)
    ensures forall y :: y in Insert(before, s, x) <==> y in s || y == x
  {
  }

  ghost predicate Distinct<T(!new)>(s: seq<T>) {
    forall i, j :: 0 <= i < j < |s| ==> s[i] != s[j]
  }

  lemma {:induction false} InsertDistinct<T(!new)>(before: (T, T) -> bool, s: seq<T>, x: T)
    requires Distinct(s) && x !in s
    ensures Distinct(Insert(before, s, x))
  {
    if s != [] && before(x, s[|s| - 1]) {
      InsertDistinct(before, s[..|s| - 1], x);
      InsertMembers(before, s[..|s| - 1], x);
      var r := Insert(before, s[..|s| - 1], x);
      assert forall i :: 0 <= i < |r| ==> r[i] in r;
      assert s[|s| - 1] !in r;
    }
  }

  lemma {:induction false} SortDistinct<T(!new)>(before: (T, T) -> bool, s: seq<T>)
    requires Distinct(s)
    ensures Distinct(Sort(before, s))
  {
    if s != [] {
      SortDistinct(before, s[..|s| - 1]);
      SortMembers(before, s[..|s| - 1]);
      InsertDistinct(before, Sort(before, s[..|s| - 1]), s[|s| - 1]);
    }
  }

  // ----- what a linear comparison adds -----------------------------------------------------

  /** `before` puts any two different members of `s` in exactly one order, consistently. Nothing is said of
      comparing a member with itself. */
  ghost predicate Linear<T(!new)>(before: (T, T) -> bool, s: seq<T>) {
    && (forall x, y :: x in s && y in s && x != y ==> before(x, y) != before(y, x))
    && (forall x, y, z ::
          x in s && y in s && z in s && x != y && y != z && x != z && before(x, y) && before(y, z) ==> before(x, z))
  }

  ghost predicate Ordered<T(!new)>(before: (T, T) -> bool, s: seq<T>) {
    forall i, j :: 0 <= i < j < |s| ==> before(s[i], s[j])
  }

  lemma LinearWithin<T(!new)>(before: (T, T) -> bool, s: seq<T>, t: seq<T>)
    requires Linear(before, s) && forall x :: x in t ==> x in s
    ensures Linear(before, t)
  {
  }

  lemma {:induction false} InsertOrdered<T(!new)>(before: (T, T) -> bool, all: seq<T>, s: seq<T>, x: T)
    requires Linear(before, all) && x in all && (forall y :: y in s ==> y in all)
    requires Ordered(before, s) && x !in s && Distinct(s)
    ensures Ordered(before, Insert(before, s, x))
  {
    if s != [] {
      var last, front := s[|s| - 1], s[..|s| - 1];
      if before(x, last) {
        InsertOrdered(before, all, front, x);
        InsertMembers(before, front, x);
        var r := Insert(before, front, x);
        forall i | 0 <= i < |r|
          ensures before(r[i], last)
        {
          assert r[i] in r;
        }
      } else {
        EndsLast(before, all, s, x);
      }
    }
  }

  lemma EndsLast<T(!new)>(before: (T, T) -> bool, all: seq<T>, s: seq<T>, x: T)
    requires Linear(before, all) && x in all && (forall y :: y in s ==> y in all)
    requires s != [] && Ordered(before, s) && x !in s && !before(x, s[|s| - 1]) && Distinct(s)
    ensures forall i :: 0 <= i < |s| ==> before(s[i], x)
  {
  }

  lemma {:induction false} SortOrders<T(!new)>(before: (T, T) -> bool, s: seq<T>)
    requires Distinct(s) && Linear(before, s)
    ensures Ordered(before, Sort(before, s))
  {
    if s != [] {
      var front := s[..|s| - 1];
      LinearWithin(before, s, front);
      SortOrders(before, front);
      SortMembers(before, front);
      SortDistinct(before, front);
      InsertOrdered(before, s, Sort(before, front), s[|s| - 1]);
    }
  }

  lemma FirstIsShared<T(!new)>(before: (T, T) -> bool, a: seq<T>, b: seq<T>)
    requires Ordered(before, a) && Ordered(before, b) && Linear(before, a) && a != [] && b != []
    requires forall x :: x in a <==> x in b
    ensures a[0] == b[0]
  {
    assert a[0] in a && b[0] in b;
    var i :| 0 <= i < |b| && b[i] == a[0];
    var j :| 0 <= j < |a| && a[j] == b[0];
  }

  lemma TailMembers<T(!new)>(s: seq<T>)
    requires s != [] && Distinct(s)
    ensures forall x :: x in s[1..] <==> x in s && x != s[0]
  {
  }

  /** An ordered list is determined by its members. */
  lemma {:induction false} OrderedUnique<T(!new)>(before: (T, T) -> bool, a: seq<T>, b: seq<T>)
    requires Ordered(before, a) && Ordered(before, b) && Distinct(a) && Distinct(b) && Linear(before, a)
    requires forall x :: x in a <==> x in b
    ensures a == b
  {
    assert a != [] ==> a[0] in a;
    assert b != [] ==> b[0] in b;
    if a != [] && b != [] {
      FirstIsShared(before, a, b);
      TailMembers(a);
      TailMembers(b);
      LinearWithin(before, a, a[1..]);
      OrderedUnique(before, a[1..], b[1..]);
    }
  }

  /** Any two arrangements of the same distinct elements sort to the same list. */
  lemma SortIgnoresArrangement<T(!new)>(before: (T, T) -> bool, a: seq<T>, b: seq<T>)
    requires Distinct(a) && Distinct(b) && Linear(before, a) && forall x :: x in a <==> x in b
    ensures Sort(before, a) == Sort(before, b)
  {
    LinearWithin(before, a, b);
    SortOrders(before, a);
    SortOrders(before, b);
    SortDistinct(before, a);
    SortDistinct(before, b);
    SortMembers(before, a);
    SortMembers(before, b);
    LinearWithin(before, a, Sort(before, a));
    OrderedUnique(before, Sort(before, a), Sort(before, b));
  }

  /** Sorting twice is sorting once. */
  lemma SortTwice<T(!new)>(before: (T, T) -> bool, s: seq<T>)
    requires Distinct(s) && Linear(before, s)
    ensures Sort(before, Sort(before, s)) == Sort(before, s)
  {
    SortDistinct(before, s);
    SortMembers(before, s);
    SortIgnoresArrangement(before, s, Sort(before, s));
  }
}
