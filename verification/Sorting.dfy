/**
  `slice::sort_by`, a stable sort. The result of a stable sort is unique, so a stable
  insertion sort computes exactly what the library does.
 */
module Sorting {
  import opened Basics

  ghost predicate TotalPreorder<T(!new)>(le: (T, T) -> bool) {
    && (forall a, b :: le(a, b) || le(b, a))
    && (forall a, b, c :: le(a, b) && le(b, c) ==> le(a, c))
  }

  ghost predicate Sorted<T>(le: (T, T) -> bool, s: seq<T>) {
    forall i, j :: 0 <= i < j < |s| ==> le(s[i], s[j])
  }

  /** Put x in front of the elements it does not come after. */
  function Insert<T>(le: (T, T) -> bool, x: T, s: seq<T>): seq<T> {
    if s == [] || le(x, s[0]) then [x] + s else [s[0]] + Insert(le, x, s[1..])
  }

  function Sort<T>(le: (T, T) -> bool, s: seq<T>): seq<T> {
    if s == [] then [] else Insert(le, s[0], Sort(le, s[1..]))
  }

  lemma {:induction false} InsertPermutes<T(!new)>(le: (T, T) -> bool, x: T, s: seq<T>)
    ensures multiset(Insert(le, x, s)) == multiset(s) + multiset{x}
  {
    if s != [] && !le(x, s[0]) {
      InsertPermutes(le, x, s[1..]);
      HeadAndTail(s);
    }
  }

  lemma HeadAndTail<T>(s: seq<T>)
    requires s != []
    ensures multiset(s) == multiset{s[0]} + multiset(s[1..])
  {
    assert s == [s[0]] + s[1..];
  }

  lemma {:induction false} InsertKeeps<T(!new)>(le: (T, T) -> bool, x: T, s: seq<T>)
    requires TotalPreorder(le) && Sorted(le, s)
    ensures Sorted(le, Insert(le, x, s))
  {
    if s != [] && !le(x, s[0]) {
      InsertKeeps(le, x, s[1..]);
      InsertAdds(le, x, s[1..]);
      var t := Insert(le, x, s[1..]);
      forall j | 0 <= j < |t| ensures le(s[0], t[j]) { assert t[j] in t; }
    }
  }

  lemma {:induction false} SortSorts<T(!new)>(le: (T, T) -> bool, s: seq<T>)
    requires TotalPreorder(le)
    ensures Sorted(le, Sort(le, s)) && multiset(Sort(le, s)) == multiset(s)
  {
    if s != [] {
      SortSorts(le, s[1..]);
      InsertKeeps(le, s[0], Sort(le, s[1..]));
      InsertPermutes(le, s[0], Sort(le, s[1..]));
      HeadAndTail(s);
    }
  }

  lemma SortHasSameElements<T(!new)>(le: (T, T) -> bool, s: seq<T>)
    requires TotalPreorder(le)
    ensures |Sort(le, s)| == |s|
    ensures forall x :: x in Sort(le, s) <==> x in s
  {
    SortSorts(le, s);
    assert |multiset(Sort(le, s))| == |multiset(s)|;
    forall x ensures x in Sort(le, s) <==> x in s {
      assert x in Sort(le, s) <==> x in multiset(Sort(le, s));
    }
  }

  /** The elements that compare equal to k, in order. */
  function Ties<T>(le: (T, T) -> bool, k: T, s: seq<T>): seq<T> {
    if s == [] then []
    else (if le(s[0], k) && le(k, s[0]) then [s[0]] else []) + Ties(le, k, s[1..])
  }

  lemma {:induction false} InsertIsStable<T(!new)>(le: (T, T) -> bool, x: T, s: seq<T>, k: T)
    requires TotalPreorder(le) && Sorted(le, s)
    ensures Ties(le, k, Insert(le, x, s)) == Ties(le, k, [x] + s)
  {
    assert ([x] + s)[1..] == s;
    if s != [] && !le(x, s[0]) {
      InsertIsStable(le, x, s[1..], k);
      assert ([x] + s[1..])[1..] == s[1..];
      assert ([s[0]] + Insert(le, x, s[1..]))[1..] == Insert(le, x, s[1..]);
    }
  }

  /** Equal elements keep their order. */
  lemma {:induction false} SortIsStable<T(!new)>(le: (T, T) -> bool, s: seq<T>, k: T)
    requires TotalPreorder(le)
    ensures Ties(le, k, Sort(le, s)) == Ties(le, k, s)
  {
    if s != [] {
      SortSorts(le, s[1..]);
      SortIsStable(le, s[1..], k);
      InsertIsStable(le, s[0], Sort(le, s[1..]), k);
      assert ([s[0]] + Sort(le, s[1..]))[1..] == Sort(le, s[1..]);
    }
  }

  lemma LeastComesFirst<T(!new)>(le: (T, T) -> bool, a: seq<T>, b: seq<T>)
    requires Sorted(le, a) && Sorted(le, b) && multiset(a) == multiset(b) && a != []
    requires forall x, y :: x in a && y in a && le(x, y) && le(y, x) ==> x == y
    ensures b != [] && a[0] == b[0]
  {
    assert a[0] in multiset(b);
    assert b[0] in multiset(a);
    var i :| 0 <= i < |b| && b[i] == a[0];
    var j :| 0 <= j < |a| && a[j] == b[0];
  }

  /** A sort does not depend on the input order when the order relation separates the elements. */
  lemma {:induction false} SortedPermutationsAgree<T(!new)>(le: (T, T) -> bool, a: seq<T>, b: seq<T>)
    requires Sorted(le, a) && Sorted(le, b) && multiset(a) == multiset(b)
    requires forall x, y :: x in a && y in a && le(x, y) && le(y, x) ==> x == y
    ensures a == b
    decreases |a|
  {
    if a == [] {
      assert |multiset(a)| == |multiset(b)|;
    } else {
      LeastComesFirst(le, a, b);
      SameTails(a, b);
      SortedPermutationsAgree(le, a[1..], b[1..]);
      assert a == [a[0]] + a[1..] && b == [b[0]] + b[1..];
    }
  }

  lemma SameTails<T>(a: seq<T>, b: seq<T>)
    requires a != [] && b != [] && a[0] == b[0] && multiset(a) == multiset(b)
    ensures multiset(a[1..]) == multiset(b[1..])
  {
    HeadAndTail(a);
    HeadAndTail(b);
    assert multiset(a[1..]) == multiset(a) - multiset{a[0]};
  }

  /** Every two elements are related, whichever comes first. */
  ghost predicate Pairwise<T(!new)>(rel: (T, T) -> bool, s: seq<T>) {
    forall i, j :: 0 <= i < j < |s| ==> rel(s[i], s[j]) && rel(s[j], s[i])
  }

  lemma {:induction false} InsertKeepsPairwise<T(!new)>(le: (T, T) -> bool, rel: (T, T) -> bool, x: T, s: seq<T>)
    requires Pairwise(rel, s) && forall y :: y in s ==> rel(x, y) && rel(y, x)
    ensures Pairwise(rel, Insert(le, x, s))
  {
    if s != [] && !le(x, s[0]) {
      InsertKeepsPairwise(le, rel, x, s[1..]);
      InsertAdds(le, x, s[1..]);
      PairwiseConcat(rel, [s[0]], Insert(le, x, s[1..]));
    } else {
      PairwiseConcat(rel, [x], s);
    }
  }

  lemma {:induction false} InsertAdds<T>(le: (T, T) -> bool, x: T, s: seq<T>)
    ensures forall y :: y in Insert(le, x, s) ==> y == x || y in s
  {
    if s != [] && !le(x, s[0]) { InsertAdds(le, x, s[1..]); }
  }

  lemma PairwiseInit<T(!new)>(rel: (T, T) -> bool, s: seq<T>)
    requires Pairwise(rel, s) && s != []
    ensures Pairwise(rel, s[..|s| - 1])
  {
  }

  lemma RelatedToLast<T(!new)>(rel: (T, T) -> bool, s: seq<T>, x: T)
    requires Pairwise(rel, s) && s != [] && x in s[..|s| - 1]
    ensures rel(x, s[|s| - 1]) && rel(s[|s| - 1], x)
  {
    var i :| 0 <= i < |s| - 1 && s[i] == x;
  }

  lemma {:induction false} SortKeepsPairwise<T(!new)>(le: (T, T) -> bool, rel: (T, T) -> bool, s: seq<T>)
    requires TotalPreorder(le) && Pairwise(rel, s)
    ensures Pairwise(rel, Sort(le, s))
  {
    if s != [] {
      SortKeepsPairwise(le, rel, s[1..]);
      SortHasSameElements(le, s[1..]);
      InsertKeepsPairwise(le, rel, s[0], Sort(le, s[1..]));
    }
  }

  lemma {:induction false} TiesConcat<T(!new)>(le: (T, T) -> bool, a: seq<T>, b: seq<T>, k: T)
    ensures Ties(le, k, a + b) == Ties(le, k, a) + Ties(le, k, b)
    decreases |a|
  {
    if a == [] {
      assert a + b == b;
    } else {
      TiesConcat(le, a[1..], b, k);
      assert (a + b)[1..] == a[1..] + b && (a + b)[0] == a[0];
      var first := if le(a[0], k) && le(k, a[0]) then [a[0]] else [];
      ConcatAssociates(first, Ties(le, k, a[1..]), Ties(le, k, b));
    }
  }

  /** The first element that compares equal to k, found by position. */
  lemma {:induction false} FirstTie<T(!new)>(le: (T, T) -> bool, k: T, s: seq<T>, i: nat)
    requires i < |s| && le(s[i], k) && le(k, s[i])
    requires forall j :: 0 <= j < i ==> !(le(s[j], k) && le(k, s[j]))
    ensures Ties(le, k, s) != [] && Ties(le, k, s)[0] == s[i]
  {
    if i > 0 { FirstTie(le, k, s[1..], i - 1); }
  }

  lemma PairwiseConcat<T(!new)>(rel: (T, T) -> bool, a: seq<T>, b: seq<T>)
    requires Pairwise(rel, a) && Pairwise(rel, b)
    requires forall x, y :: x in a && y in b ==> rel(x, y) && rel(y, x)
    ensures Pairwise(rel, a + b)
  {
    var s := a + b;
    forall i, j | 0 <= i < j < |s| ensures rel(s[i], s[j]) && rel(s[j], s[i]) {
      if j < |a| {
        assert s[i] == a[i] && s[j] == a[j];
      } else if i < |a| {
        assert s[i] in a && s[j] in b;
      } else {
        assert s[i] == b[i - |a|] && s[j] == b[j - |a|];
      }
    }
  }
}
