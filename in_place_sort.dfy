/**
 * `var p2 = people; p2.sort(by: ~\.name)`: sorting a mutable copy of the
 * people in place. Swift arrays are values, so the copy is a fresh array and
 * sorting it cannot change `people`.
 */
module InPlaceSort {
  import opened Orders
  import opened Sequences

  /**
   * `s` is sorted except that the element at `j` may be before elements to
   * its left; it is not after any element to its right.
   */
  ghost predicate SortedExceptAt<T(!new)>(s: seq<T>, j: int, less: (T, T) -> bool)
  {
    && (forall k, l :: 0 <= k < l < |s| && k != j && l != j ==> !less(s[l], s[k]))
    && (forall l :: 0 <= j < l < |s| ==> !less(s[l], s[j]))
  }

  /** Swapping the element at `j` with its left neighbour, which is after it, moves the gap one left. */
  lemma SwapLeft<T(!new)>(s: seq<T>, j: int, less: (T, T) -> bool)
    requires StrictWeakOrder(less)
    requires 0 < j < |s| && less(s[j], s[j - 1])
    requires SortedExceptAt(s, j, less)
    ensures SortedExceptAt(s[j - 1 := s[j]][j := s[j - 1]], j - 1, less)
  {
  }

  /** Once the element at `j` is not before its left neighbour, the whole sequence is sorted. */
  lemma GapClosed<T(!new)>(s: seq<T>, j: int, less: (T, T) -> bool)
    requires StrictWeakOrder(less)
    requires 0 <= j < |s| && SortedExceptAt(s, j, less)
    requires j == 0 || !less(s[j], s[j - 1])
    ensures IsSortedBy(s, less)
  {
    StrictWeakOrderFacts(less);
    forall k | 0 <= k < j - 1
      ensures !less(s[j], s[k])
    {
      assert !less(s[j - 1], s[k]);
    }
  }

  /** `sort(by:)`: insertion sort, moving each element left past those it is before. */
  method Sort<T(!new)>(a: array<T>, less: (T, T) -> bool)
    requires StrictWeakOrder(less)
    modifies a
    ensures IsSortedBy(a[..], less)
    ensures multiset(a[..]) == multiset(old(a[..]))
  {
    var i := 0;
    while i < a.Length
      invariant 0 <= i <= a.Length
      invariant IsSortedBy(a[..i], less)
      invariant multiset(a[..]) == multiset(old(a[..]))
    {
      var j := i;
      assert SortedExceptAt(a[..i + 1], j, less) by {
        assert a[..i + 1][..i] == a[..i];
      }
      while 0 < j && less(a[j], a[j - 1])
        invariant 0 <= j <= i
        invariant SortedExceptAt(a[..i + 1], j, less)
        invariant multiset(a[..]) == multiset(old(a[..]))
      {
        SwapLeft(a[..i + 1], j, less);
        a[j - 1], a[j] := a[j], a[j - 1];
        j := j - 1;
      }
      GapClosed(a[..i + 1], j, less);
      i := i + 1;
    }
    assert a[..] == a[..a.Length];
  }

  /**
   * `var p2 = people; p2.sort(by:)`: copy into a fresh array, sort the copy.
   * The result is a sorted permutation of `people`, which, being a value,
   * is unchanged.
   */
  method SortedCopy<T(!new)>(people: seq<T>, less: (T, T) -> bool) returns (p2: seq<T>)
    requires StrictWeakOrder(less)
    ensures IsSortedBy(p2, less)
    ensures multiset(p2) == multiset(people)
  {
    var copy := new T[|people|](i requires 0 <= i < |people| => people[i]);
    assert copy[..] == people;
    Sort(copy, less);
    p2 := copy[..];
  }
}
