/**
 * The playground's `prefix operator ~`: three overloads that turn a key path
 * into a callback of the shape a collection operation expects, and the
 * `Bool.inverted` extension used to negate a Boolean key path.
 *
 * A key path `KeyPath<A, B>` is modelled by its getter, a total function
 * `A -> B`; Swift's overload resolution becomes three named functions.
 */
module Adapters {
  import opened Orders

  /** `~keyPath` for mapping functions: reads the value at the end of the path. */
  function Extractor<A(!new), B(!new)>(path: A -> B): (get: A -> B)
    ensures forall a :: get(a) == path(a)
  {
    a => path(a)
  }

  /**
   * `~keyPath` for sorting functions, where `B: Comparable`. The conformance
   * is passed explicitly as `less`, the `<` of the value type.
   */
  function Comparator<A(!new), B(!new)>(path: A -> B, less: (B, B) -> bool): (inOrder: (A, A) -> bool)
    ensures forall x, y :: inOrder(x, y) <==> less(path(x), path(y))
  {
    (x, y) => less(path(x), path(y))
  }

  /** `~keyPath` for filter-like functions, where the path ends in a `Bool`. */
  function Predicate<A(!new)>(path: A -> bool): (test: A -> bool)
    ensures forall a :: test(a) <==> path(a)
  {
    a => path(a)
  }

  /** `Bool.inverted`: the other truth value. */
  function Inverted(b: bool): (r: bool)
    ensures r != b
  {
    !b
  }

  lemma InvertedIsInvolution(b: bool)
    ensures Inverted(Inverted(b)) == b
  {
  }

  /** A comparator built from a strict weak order on the field is one on the records. */
  lemma ComparatorIsStrictWeakOrder<A(!new), B(!new)>(path: A -> B, less: (B, B) -> bool)
    requires StrictWeakOrder(less)
    ensures StrictWeakOrder(Comparator(path, less))
  {
    var inOrder := Comparator(path, less);
    forall x, y, z | Incomparable(inOrder, x, y) && Incomparable(inOrder, y, z)
      ensures Incomparable(inOrder, x, z)
    {
      assert Incomparable(less, path(x), path(y)) && Incomparable(less, path(y), path(z));
    }
  }

  /**
   * A comparator on a `String` field is irreflexive, transitive and has
   * transitive ties: a valid argument for `sort(by:)` and `sorted(by:)`.
   */
  lemma StringComparatorIsStrictWeakOrder<A(!new)>(path: A -> string)
    ensures StrictWeakOrder(Comparator(path, StringLess))
  {
    StringLessIsStrictTotalOrder();
    ComparatorIsStrictWeakOrder(path, StringLess);
  }

  /** On a `String` field the comparator answers "is the first field lexicographically before the second". */
  lemma StringComparatorIsLexicographic<A(!new)>(path: A -> string, x: A, y: A)
    ensures Comparator(path, StringLess)(x, y) <==> LexicographicallyBefore(path(x), path(y))
  {
    StringLessIsLexicographic(path(x), path(y));
  }

  /** Two records whose fields differ are ordered one way or the other. */
  lemma StringComparatorIsTotalOnFields<A(!new)>(path: A -> string, x: A, y: A)
    requires path(x) != path(y)
    ensures Comparator(path, StringLess)(x, y) || Comparator(path, StringLess)(y, x)
  {
    StringLessConnected(path(x), path(y));
  }
}
