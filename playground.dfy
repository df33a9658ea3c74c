/**
 * The demonstrations of the playground: each collection operation applied
 * to `people` through one of the `~` adapters, with the results it yields.
 */
module Playground {
  import opened Optionals
  import opened Orders
  import opened Records
  import opened Adapters
  import opened Sequences
  import InPlaceSort

  /** `~\.name` as a sorting predicate: name order. */
  function ByName(): (inOrder: (Person, Person) -> bool)
    ensures forall x, y :: inOrder(x, y) <==> StringLess(x.name, y.name)
  {
    Comparator(Name, StringLess)
  }

  /** `~\.address.city` as a sorting predicate: city order. */
  function ByCity(): (inOrder: (Person, Person) -> bool)
    ensures forall x, y :: inOrder(x, y) <==> StringLess(x.address.city, y.address.city)
  {
    Comparator(City, StringLess)
  }

  /** `\Person.address.street.isEmpty.inverted`: the street has at least one character. */
  predicate StreetIsNotEmpty(p: Person): (nonEmpty: bool)
    ensures nonEmpty <==> Street(p) != ""
  {
    Inverted(StreetIsEmpty(p))
  }

  // ---------------------------------------------------------------------------
  // Adapters and collection operations, for any sequence of people

  /** `map(~path)` keeps one element per person, the value at the end of the path. */
  lemma MapExtractorReadsPath<B(!new)>(s: seq<Person>, path: Person -> B)
    ensures |Map(s, Extractor(path))| == |s|
    ensures forall i :: 0 <= i < |s| ==> Map(s, Extractor(path))[i] == path(s[i])
  {
  }

  /** The predicate of an inverted Boolean path holds exactly where the path's predicate fails. */
  lemma InvertedPredicateIsNegation<A(!new)>(path: A -> bool, a: A)
    ensures Predicate(x => Inverted(path(x)))(a) <==> !Predicate(path)(a)
  {
  }

  /** Records with distinct `String` fields are never tied under that field's comparator. */
  lemma DistinctFieldsNoTies(s: seq<Person>, path: Person -> string)
    requires forall i, j :: 0 <= i < j < |s| ==> path(s[i]) != path(s[j])
    ensures NoTies(s, Comparator(path, StringLess))
  {
    var less := Comparator(path, StringLess);
    forall i, j | 0 <= i < |s| && 0 <= j < |s| && Incomparable(less, s[i], s[j])
      ensures s[i] == s[j]
    {
      if i != j {
        var lo, hi := if i < j then i else j, if i < j then j else i;
        StringComparatorIsTotalOnFields(path, s[lo], s[hi]);
      }
    }
  }

  /** Each field is equal to or lexicographically before every field to its right. */
  ghost predicate NonDecreasing(r: seq<Person>, path: Person -> string)
  {
    forall i, j :: 0 <= i < j < |r| ==> path(r[i]) == path(r[j]) || StringLess(path(r[i]), path(r[j]))
  }

  /** Each field is equal to or lexicographically after every field to its right. */
  ghost predicate NonIncreasing(r: seq<Person>, path: Person -> string)
  {
    forall i, j :: 0 <= i < j < |r| ==> path(r[i]) == path(r[j]) || StringLess(path(r[j]), path(r[i]))
  }

  /** Sorting by a `String` field gives a permutation whose fields are non-decreasing. */
  lemma SortedByFieldIsNonDecreasing(s: seq<Person>, path: Person -> string)
    ensures StrictWeakOrder(Comparator(path, StringLess))
    ensures multiset(Sorted(s, Comparator(path, StringLess))) == multiset(s)
    ensures NonDecreasing(Sorted(s, Comparator(path, StringLess)), path)
  {
    StringComparatorIsStrictWeakOrder(path);
    var r := Sorted(s, Comparator(path, StringLess));
    forall i, j | 0 <= i < j < |r|
      ensures path(r[i]) == path(r[j]) || StringLess(path(r[i]), path(r[j]))
    {
      if path(r[i]) != path(r[j]) {
        StringLessConnected(path(r[i]), path(r[j]));
      }
    }
  }

  /** Reversing a sequence sorted by a `String` field gives non-increasing fields. */
  lemma ReversedIsNonIncreasing(s: seq<Person>, path: Person -> string)
    requires IsSortedBy(s, Comparator(path, StringLess))
    ensures NonIncreasing(Reversed(s), path)
  {
    var r := Reversed(s);
    ReversedSortedIsDescending(s, Comparator(path, StringLess));
    forall i, j | 0 <= i < j < |r|
      ensures path(r[i]) == path(r[j]) || StringLess(path(r[j]), path(r[i]))
    {
      if path(r[i]) != path(r[j]) {
        StringLessConnected(path(r[i]), path(r[j]));
      }
    }
  }

  // ---------------------------------------------------------------------------
  // The results on `people`

  /** `people.map(~\.name)` */
  lemma NamesOfPeople()
    ensures Map(PEOPLE, Extractor(Name)) == ["Tom", "Dick", "Harry", "Alice", "Bob", "Charles"]
  {
  }

  /** `people.map(~\.address.city)` */
  lemma CitiesOfPeople()
    ensures Map(PEOPLE, Extractor(City)) == ["London", "Nottingham", "London", "Edinburgh", "Nottingham", "Leicester"]
  {
  }

  /** `people.compactMap(~\.address.id)`: only Harry's and Bob's addresses have an id. */
  lemma IdsOfPeople()
    ensures CompactMap(PEOPLE, Extractor(Id)) == ["1b0d", "0xg2"]
  {
    var f := Extractor(Id);
    CompactMapCons(CHARLES, [], f);
    CompactMapCons(BOB, [CHARLES], f);
    CompactMapCons(ALICE, [BOB, CHARLES], f);
    CompactMapCons(HARRY, [ALICE, BOB, CHARLES], f);
    CompactMapCons(DICK, [HARRY, ALICE, BOB, CHARLES], f);
    CompactMapCons(TOM, [DICK, HARRY, ALICE, BOB, CHARLES], f);
  }

  /** The people in name order. */
  const BY_NAME: seq<Person> := [ALICE, BOB, CHARLES, DICK, HARRY, TOM]

  /** Any name-sorted permutation of `people` is `BY_NAME`: no two people share a name. */
  lemma OnlyNameOrder(r: seq<Person>)
    requires IsSortedBy(r, ByName())
    requires multiset(r) == multiset(PEOPLE)
    ensures r == BY_NAME
  {
    ByNameIsSorted();
    ByNameIsPermutation();
    NamesAreDistinct();
    DistinctFieldsNoTies(BY_NAME, Name);
    SortedUnique(BY_NAME, r, ByName());
  }

  lemma ByNameIsSorted()
    ensures IsSortedBy(BY_NAME, ByName())
  {
  }

  lemma ByNameIsPermutation()
    ensures multiset(BY_NAME) == multiset(PEOPLE)
  {
  }

  lemma NamesAreDistinct()
    ensures forall i, j :: 0 <= i < j < |BY_NAME| ==> Name(BY_NAME[i]) != Name(BY_NAME[j])
  {
  }

  /** `people.sorted(by: ~\.name).map(~\.name)` */
  lemma NamesSortedByName()
    ensures StrictWeakOrder(ByName())
    ensures Map(Sorted(PEOPLE, ByName()), Extractor(Name)) == ["Alice", "Bob", "Charles", "Dick", "Harry", "Tom"]
  {
    SortedPermutationByName(PEOPLE);
    NamesInNameOrder();
  }

  lemma SortedPermutationByName(s: seq<Person>)
    requires multiset(s) == multiset(PEOPLE)
    ensures StrictWeakOrder(ByName())
    ensures Sorted(s, ByName()) == BY_NAME
  {
    StringComparatorIsStrictWeakOrder(Name);
    OnlyNameOrder(Sorted(s, ByName()));
  }

  lemma NamesInNameOrder()
    ensures Map(BY_NAME, Extractor(Name)) == ["Alice", "Bob", "Charles", "Dick", "Harry", "Tom"]
  {
  }

  /** `var p2 = people; p2.sort(by: ~\.name)`: the copy ends up in name order. */
  method SortCopyOfPeople() returns (p2: seq<Person>)
    ensures p2 == BY_NAME
    ensures Map(p2, Extractor(Name)) == ["Alice", "Bob", "Charles", "Dick", "Harry", "Tom"]
  {
    StringComparatorIsStrictWeakOrder(Name);
    p2 := InPlaceSort.SortedCopy(PEOPLE, ByName());
    OnlyNameOrder(p2);
    NamesInNameOrder();
  }

  /** `people.sorted(by: ~\.address.city)`: cities non-decreasing, ties in no promised order. */
  lemma PeopleSortedByCity()
    ensures StrictWeakOrder(ByCity())
    ensures multiset(Sorted(PEOPLE, ByCity())) == multiset(PEOPLE)
    ensures NonDecreasing(Sorted(PEOPLE, ByCity()), City)
  {
    SortedByFieldIsNonDecreasing(PEOPLE, City);
  }

  /** `people.sorted(by: ~\.address.city).reversed()`: cities non-increasing. */
  lemma PeopleSortedByCityReversed()
    ensures StrictWeakOrder(ByCity())
    ensures multiset(Reversed(Sorted(PEOPLE, ByCity()))) == multiset(PEOPLE)
    ensures NonIncreasing(Reversed(Sorted(PEOPLE, ByCity())), City)
  {
    StringComparatorIsStrictWeakOrder(City);
    ReversedIsPermutation(Sorted(PEOPLE, ByCity()));
    ReversedIsNonIncreasing(Sorted(PEOPLE, ByCity()), City);
  }

  /** `people.filter(~\.address.street.isEmpty)` */
  lemma PeopleWithEmptyStreet()
    ensures Filter(PEOPLE, Predicate(StreetIsEmpty)) == [DICK, HARRY, CHARLES]
  {
    var p := Predicate(StreetIsEmpty);
    FilterCons(CHARLES, [], p);
    FilterCons(BOB, [CHARLES], p);
    FilterCons(ALICE, [BOB, CHARLES], p);
    FilterCons(HARRY, [ALICE, BOB, CHARLES], p);
    FilterCons(DICK, [HARRY, ALICE, BOB, CHARLES], p);
    FilterCons(TOM, [DICK, HARRY, ALICE, BOB, CHARLES], p);
  }

  /**
   * `people.filter(~\.address.street.isEmpty).map(~\.name)`, as written:
   * the names of those whose street IS empty, not the non-empty ones the
   * comment beside it announces.
   */
  lemma EmptyStreetNamesAsWritten()
    ensures Map(Filter(PEOPLE, Predicate(StreetIsEmpty)), Extractor(Name)) == ["Dick", "Harry", "Charles"]
    ensures Map(Filter(PEOPLE, Predicate(StreetIsEmpty)), Extractor(Name)) != ["Tom", "Alice", "Bob"]
  {
    PeopleWithEmptyStreet();
  }

  /** The names of the people with a non-empty street, through the inverted path. */
  function NonEmptyStreetNames(): (names: seq<string>)
    ensures names == ["Tom", "Alice", "Bob"]
  {
    PeopleWithNonEmptyStreet();
    Map(Filter(PEOPLE, Predicate(StreetIsNotEmpty)), Extractor(Name))
  }

  /** `people.filter(~\.address.street.isEmpty.inverted)` */
  lemma PeopleWithNonEmptyStreet()
    ensures Filter(PEOPLE, Predicate(StreetIsNotEmpty)) == [TOM, ALICE, BOB]
  {
    var p := Predicate(StreetIsNotEmpty);
    FilterCons(CHARLES, [], p);
    FilterCons(BOB, [CHARLES], p);
    FilterCons(ALICE, [BOB, CHARLES], p);
    FilterCons(HARRY, [ALICE, BOB, CHARLES], p);
    FilterCons(DICK, [HARRY, ALICE, BOB, CHARLES], p);
    FilterCons(TOM, [DICK, HARRY, ALICE, BOB, CHARLES], p);
  }

  /** The two filters split `people`: every person is in exactly one result. */
  lemma StreetFiltersPartitionPeople()
    ensures multiset(Filter(PEOPLE, Predicate(StreetIsEmpty))) + multiset(Filter(PEOPLE, Predicate(StreetIsNotEmpty))) == multiset(PEOPLE)
    ensures |Filter(PEOPLE, Predicate(StreetIsEmpty))| + |Filter(PEOPLE, Predicate(StreetIsNotEmpty))| == |PEOPLE|
  {
    forall p ensures Predicate(StreetIsNotEmpty)(p) == !Predicate(StreetIsEmpty)(p) {
      InvertedPredicateIsNegation(StreetIsEmpty, p);
    }
    FilterPartitions(PEOPLE, Predicate(StreetIsEmpty), Predicate(StreetIsNotEmpty));
  }

  /** `people.first(where: ~\.address.street.isEmpty)`: Dick, the first with an empty street. */
  lemma FirstWithEmptyStreet()
    ensures FirstWhere(PEOPLE, Predicate(StreetIsEmpty)) == Some(DICK)
  {
  }
}
