/**
 * The collection operations the playground feeds its callbacks to:
 * `map`, `filter`, `compactMap`, `first(where:)`, `reversed()` and
 * `sorted(by:)`, each on an immutable sequence.
 */
module Sequences {
  import opened Optionals
  import opened Orders

  /** `map`: the callback applied to every element, in order. */
  function Map<A(!new), B(!new)>(s: seq<A>, f: A -> B): (r: seq<B>)
    ensures |r| == |s|
    ensures forall i :: 0 <= i < |s| ==> r[i] == f(s[i])
  {
    if s == [] then [] else [f(s[0])] + Map(s[1..], f)
  }

  /** `r` is `s` with some elements dropped and the rest kept in their order. */
  ghost predicate Subsequence<A(!new)>(r: seq<A>, s: seq<A>)
  {
    || r == []
    || (s != [] && ((r[0] == s[0] && Subsequence(r[1..], s[1..])) || Subsequence(r, s[1..])))
  }

  /** `filter`: the elements for which the predicate holds; see FilterCounts and FilterKeepsOrder. */
  function Filter<A(!new)>(s: seq<A>, p: A -> bool): (r: seq<A>)
    ensures |r| <= |s|
    ensures forall x :: x in r ==> p(x)
  {
    if s == [] then []
    else if p(s[0]) then [s[0]] + Filter(s[1..], p)
    else Filter(s[1..], p)
  }

  /** Every element for which the predicate holds is kept as often as it occurs; no other is. */
  lemma {:induction false} FilterCounts<A(!new)>(s: seq<A>, p: A -> bool)
    ensures forall x :: multiset(Filter(s, p))[x] == if p(x) then multiset(s)[x] else 0
  {
    if s != [] {
      FilterCounts(s[1..], p);
      assert s == [s[0]] + s[1..];
    }
  }

  /** The kept elements stay in their original order. */
  lemma {:induction false} FilterKeepsOrder<A(!new)>(s: seq<A>, p: A -> bool)
    ensures Subsequence(Filter(s, p), s)
  {
    if s != [] {
      FilterKeepsOrder(s[1..], p);
      if p(s[0]) {
        assert ([s[0]] + Filter(s[1..], p))[1..] == Filter(s[1..], p);
      }
    }
  }

  /** `filter` on a sequence that starts with `x`. */
  lemma FilterCons<A(!new)>(x: A, s: seq<A>, p: A -> bool)
    ensures Filter([x] + s, p) == if p(x) then [x] + Filter(s, p) else Filter(s, p)
  {
    assert ([x] + s)[1..] == s;
  }

  /**
   * `compactMap`: the present results of the callback, in order. Wrapping
   * them back in `Optional` gives the mapped sequence with the absent
   * results removed.
   */
  function CompactMap<A(!new), B(!new)>(s: seq<A>, f: A -> Option<B>): (r: seq<B>)
    ensures Map(r, Wrap) == Filter(Map(s, f), IsPresent)
  {
    if s == [] then []
    else
      var rest := CompactMap(s[1..], f);
      assert Map(s, f)[1..] == Map(s[1..], f);
      match f(s[0])
      case Some(y) =>
        assert Map([y] + rest, Wrap) == [Some(y)] + Map(rest, Wrap);
        [y] + rest
      case None => rest
  }

  /** `compactMap` on a sequence that starts with `x`. */
  lemma CompactMapCons<A(!new), B(!new)>(x: A, s: seq<A>, f: A -> Option<B>)
    ensures CompactMap([x] + s, f) == if f(x).Some? then [f(x).value] + CompactMap(s, f) else CompactMap(s, f)
  {
    assert ([x] + s)[1..] == s;
  }

  /**
   * `first(where:)`: the element at the lowest index satisfying the
   * predicate, or none when no element does.
   */
  function FirstWhere<A(!new)>(s: seq<A>, p: A -> bool): (r: Option<A>)
    ensures r.None? <==> forall i :: 0 <= i < |s| ==> !p(s[i])
    ensures r.Some? ==> exists i :: 0 <= i < |s| && s[i] == r.value && p(s[i]) && forall j :: 0 <= j < i ==> !p(s[j])
  {
    if s == [] then None
    else if p(s[0]) then Some(s[0])
    else
      var r := FirstWhere(s[1..], p);
      assert r.Some? ==> exists i :: 1 <= i < |s| && s[i] == r.value && p(s[i]) && forall j :: 0 <= j < i ==> !p(s[j]) by {
        if r.Some? {
          var i :| 0 <= i < |s[1..]| && s[1..][i] == r.value && p(s[1..][i]) && forall j :: 0 <= j < i ==> !p(s[1..][j]);
          assert s[i + 1] == r.value && forall j :: 0 <= j < i + 1 ==> !p(s[j]);
        }
      }
      r
  }

  /** `first(where:)` is the head of `filter`. */
  lemma {:induction false} FirstWhereIsHeadOfFilter<A(!new)>(s: seq<A>, p: A -> bool)
    ensures FirstWhere(s, p) == if Filter(s, p) == [] then None else Some(Filter(s, p)[0])
  {
    if s != [] && !p(s[0]) {
      FirstWhereIsHeadOfFilter(s[1..], p);
    }
  }

  /**
   * A predicate and its negation split a sequence in two: every element
   * goes to exactly one side.
   */
  lemma FilterPartitions<A(!new)>(s: seq<A>, p: A -> bool, q: A -> bool)
    requires forall x :: q(x) == !p(x)
    ensures multiset(Filter(s, p)) + multiset(Filter(s, q)) == multiset(s)
    ensures |Filter(s, p)| + |Filter(s, q)| == |s|
  {
    var yes, no := Filter(s, p), Filter(s, q);
    FilterCounts(s, p);
    FilterCounts(s, q);
    assert multiset(yes) + multiset(no) == multiset(s) by {
      forall x ensures (multiset(yes) + multiset(no))[x] == multiset(s)[x] {
      }
    }
    assert |multiset(yes) + multiset(no)| == |multiset(s)|;
  }

  /** `reversed()`: the same elements, last first. */
  function Reversed<A(!new)>(s: seq<A>): (r: seq<A>)
    ensures |r| == |s|
    ensures forall i :: 0 <= i < |s| ==> r[i] == s[|s| - 1 - i]
  {
    if s == [] then [] else Reversed(s[1..]) + [s[0]]
  }

  /** `reversed()` neither adds nor drops elements. */
  lemma {:induction false} ReversedIsPermutation<A(!new)>(s: seq<A>)
    ensures multiset(Reversed(s)) == multiset(s)
  {
    if s != [] {
      ReversedIsPermutation(s[1..]);
      assert s == [s[0]] + s[1..];
    }
  }

  /** No element is strictly before an element to its left. */
  ghost predicate IsSortedBy<A(!new)>(s: seq<A>, less: (A, A) -> bool)
  {
    forall i, j :: 0 <= i < j < |s| ==> !less(s[j], s[i])
  }

  /** Reversing a sorted sequence gives one in which no element comes before its left neighbours. */
  lemma ReversedSortedIsDescending<A(!new)>(s: seq<A>, less: (A, A) -> bool)
    requires IsSortedBy(s, less)
    ensures forall i, j :: 0 <= i < j < |s| ==> !less(Reversed(s)[i], Reversed(s)[j])
  {
  }

  /** `x` placed before the first element it is not after. */
  function Insert<A(!new)>(x: A, s: seq<A>, less: (A, A) -> bool): (r: seq<A>)
    requires StrictWeakOrder(less)
    requires IsSortedBy(s, less)
    ensures IsSortedBy(r, less)
    ensures multiset(r) == multiset(s) + multiset{x}
    ensures forall y :: y in r ==> y == x || y in s
  {
    StrictWeakOrderFacts(less);
    if s == [] then [x]
    else if less(s[0], x) then
      assert s == [s[0]] + s[1..];
      var rest := Insert(x, s[1..], less);
      assert forall y :: y in rest ==> !less(y, s[0]);
      [s[0]] + rest
    else
      [x] + s
  }

  /** `sorted(by:)`: a permutation of the input in which no element is before one to its left. */
  function Sorted<A(!new)>(s: seq<A>, less: (A, A) -> bool): (r: seq<A>)
    requires StrictWeakOrder(less)
    ensures IsSortedBy(r, less)
    ensures multiset(r) == multiset(s)
  {
    if s == [] then []
    else
      assert s == [s[0]] + s[1..];
      Insert(s[0], Sorted(s[1..], less), less)
  }

  /** No two distinct elements of `s` are tied under `less`. */
  ghost predicate NoTies<A(!new)>(s: seq<A>, less: (A, A) -> bool)
  {
    forall i, j :: 0 <= i < |s| && 0 <= j < |s| && Incomparable(less, s[i], s[j]) ==> s[i] == s[j]
  }

  /**
   * Without ties the sorted order is unique: any two sorted permutations of
   * the same elements are equal. (With ties, as between two people of the
   * same city, it is not, and the model promises no particular order.)
   */
  lemma {:induction false} SortedUnique<A(!new)>(r1: seq<A>, r2: seq<A>, less: (A, A) -> bool)
    requires IsSortedBy(r1, less) && IsSortedBy(r2, less)
    requires multiset(r1) == multiset(r2)
    requires NoTies(r1, less)
    ensures r1 == r2
  {
    assert |r1| == |multiset(r1)| == |multiset(r2)| == |r2|;
    if r1 != [] {
      SortedHeadsEqual(r1, r2, less);
      HeadRemoved(r1, r2);
      SortedUnique(r1[1..], r2[1..], less);
      assert r1 == [r1[0]] + r1[1..] && r2 == [r2[0]] + r2[1..];
    }
  }

  /** Two sorted permutations without ties start with the same element. */
  lemma SortedHeadsEqual<A(!new)>(r1: seq<A>, r2: seq<A>, less: (A, A) -> bool)
    requires IsSortedBy(r1, less) && IsSortedBy(r2, less)
    requires multiset(r1) == multiset(r2)
    requires NoTies(r1, less)
    requires r1 != [] && r2 != []
    ensures r1[0] == r2[0]
  {
    var x, y := r1[0], r2[0];
    assert x in multiset(r2) && y in multiset(r1);
    var k :| 0 <= k < |r2| && r2[k] == x;
    var m :| 0 <= m < |r1| && r1[m] == y;
    if k != 0 && m != 0 {
      assert Incomparable(less, r1[0], r1[m]);
    }
  }

  lemma HeadRemoved<A>(r1: seq<A>, r2: seq<A>)
    requires r1 != [] && r2 != [] && r1[0] == r2[0]
    requires multiset(r1) == multiset(r2)
    ensures multiset(r1[1..]) == multiset(r2[1..])
  {
    assert r1 == [r1[0]] + r1[1..] && r2 == [r2[0]] + r2[1..];
    assert multiset(r1[1..]) == multiset(r1) - multiset{r1[0]};
    assert multiset(r2[1..]) == multiset(r2) - multiset{r2[0]};
  }
}
