/**
 * Orderings. Swift's `sort(by:)` and `sorted(by:)` require their
 * `areInIncreasingOrder` argument to be a strict weak ordering; `String`'s
 * `<` is modelled as lexicographic order on characters.
 */
module Orders {

  ghost predicate Irreflexive<T(!new)>(less: (T, T) -> bool)
  {
    forall x :: !less(x, x)
  }

  ghost predicate Transitive<T(!new)>(less: (T, T) -> bool)
  {
    forall x, y, z :: less(x, y) && less(y, z) ==> less(x, z)
  }

  /** Neither before the other: the two are tied. */
  predicate Incomparable<T>(less: (T, T) -> bool, x: T, y: T)
  {
    !less(x, y) && !less(y, x)
  }

  /** Being tied is transitive. */
  ghost predicate IncomparabilityTransitive<T(!new)>(less: (T, T) -> bool)
  {
    forall x, y, z :: Incomparable(less, x, y) && Incomparable(less, y, z) ==> Incomparable(less, x, z)
  }

  /** What Swift demands of a sorting predicate. */
  ghost predicate StrictWeakOrder<T(!new)>(less: (T, T) -> bool)
  {
    Irreflexive(less) && Transitive(less) && IncomparabilityTransitive(less)
  }

  /** Any two distinct values are ordered one way or the other. */
  ghost predicate Connected<T(!new)>(less: (T, T) -> bool)
  {
    forall x, y :: x != y ==> less(x, y) || less(y, x)
  }

  ghost predicate Asymmetric<T(!new)>(less: (T, T) -> bool)
  {
    forall x, y :: less(x, y) ==> !less(y, x)
  }

  /** "Not after" is transitive: what insertion into a sorted sequence relies on. */
  ghost predicate NegativelyTransitive<T(!new)>(less: (T, T) -> bool)
  {
    forall x, y, z :: !less(x, y) && !less(y, z) ==> !less(x, z)
  }

  lemma StrictWeakOrderFacts<T(!new)>(less: (T, T) -> bool)
    requires StrictWeakOrder(less)
    ensures Asymmetric(less)
    ensures NegativelyTransitive(less)
  {
    forall x, y, z | !less(x, y) && !less(y, z)
      ensures !less(x, z)
    {
      // Were x before z, then z not before y (else x before y) and y not
      // before x (else y before z): x, y and y, z would be tied, so x, z too.
      assert less(x, z) ==> Incomparable(less, x, y) && Incomparable(less, y, z);
    }
  }

  /** Swift's `<` on `String`, as lexicographic order on characters. */
  predicate StringLess(a: string, b: string)
  {
    if |b| == 0 then false
    else if |a| == 0 then true
    else if a[0] != b[0] then a[0] < b[0]
    else StringLess(a[1..], b[1..])
  }

  /** The textbook definition: a proper prefix, or a first differing character that is smaller. */
  ghost predicate LexicographicallyBefore(a: string, b: string)
  {
    || (|a| < |b| && a == b[..|a|])
    || exists k :: 0 <= k < |a| && k < |b| && a[..k] == b[..k] && a[k] < b[k]
  }

  lemma {:induction false} StringLessIsLexicographic(a: string, b: string)
    ensures StringLess(a, b) <==> LexicographicallyBefore(a, b)
  {
    if |a| == 0 || |b| == 0 {
      if |a| == 0 && |b| > 0 {
        assert a == b[..|a|];
      }
    } else if a[0] != b[0] {
      if a[0] < b[0] {
        assert a[..0] == b[..0];
      }
    } else {
      var a', b' := a[1..], b[1..];
      StringLessIsLexicographic(a', b');
      if LexicographicallyBefore(a', b') {
        if |a'| < |b'| && a' == b'[..|a'|] {
          assert a == [a[0]] + a' && b[..|a|] == [b[0]] + b'[..|a'|];
        } else {
          var k :| 0 <= k < |a'| && k < |b'| && a'[..k] == b'[..k] && a'[k] < b'[k];
          assert a[..k + 1] == [a[0]] + a'[..k] && b[..k + 1] == [b[0]] + b'[..k];
        }
      }
      if LexicographicallyBefore(a, b) {
        if |a| < |b| && a == b[..|a|] {
          assert a' == b'[..|a'|];
        } else {
          var k :| 0 <= k < |a| && k < |b| && a[..k] == b[..k] && a[k] < b[k];
          assert k != 0;
          assert a'[..k - 1] == a[1..k] && b'[..k - 1] == b[1..k];
          assert a'[k - 1] < b'[k - 1];
        }
      }
    }
  }

  lemma {:induction false} StringLessIrreflexive(a: string)
    ensures !StringLess(a, a)
  {
    if |a| > 0 {
      StringLessIrreflexive(a[1..]);
    }
  }

  lemma {:induction false} StringLessTransitive(a: string, b: string, c: string)
    requires StringLess(a, b) && StringLess(b, c)
    ensures StringLess(a, c)
  {
    if |a| > 0 && a[0] == b[0] && b[0] == c[0] {
      StringLessTransitive(a[1..], b[1..], c[1..]);
    }
  }

  lemma {:induction false} StringLessConnected(a: string, b: string)
    requires a != b
    ensures StringLess(a, b) || StringLess(b, a)
  {
    if |a| > 0 && |b| > 0 && a[0] == b[0] {
      assert a == [a[0]] + a[1..] && b == [b[0]] + b[1..];
      StringLessConnected(a[1..], b[1..]);
    }
  }

  /** `String`'s `<` is a strict total order, hence a valid sorting predicate. */
  lemma StringLessIsStrictTotalOrder()
    ensures StrictWeakOrder(StringLess)
    ensures Connected(StringLess)
  {
    forall a ensures !StringLess(a, a) {
      StringLessIrreflexive(a);
    }
    forall a, b, c | StringLess(a, b) && StringLess(b, c) ensures StringLess(a, c) {
      StringLessTransitive(a, b, c);
    }
    forall a, b | a != b ensures StringLess(a, b) || StringLess(b, a) {
      StringLessConnected(a, b);
    }
  }
}
