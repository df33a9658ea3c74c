# Key paths as callbacks: a Dafny model

The playground defines two value records, `Address` (street, city, optional
id) and `Person` (name, address), and a fixed list of six `people`. It
overloads a prefix operator `~` three ways to turn a key path into a
callback:

- a mapping function `(A) -> B`;
- a sorting predicate `(A, A) -> Bool`, for a `Comparable` value;
- a filtering predicate `(A) -> Bool`, for a `Bool` value.

It also adds `Bool.inverted`. It then feeds these callbacks to `map`,
`compactMap`, `sort(by:)`, `sorted(by:)`, `reversed()`, `filter` and
`first(where:)` over `people`.

The model has seven modules:

- `Optionals` (`records.dfy`): Swift's `Optional`.
- `Records` (`records.dfy`): the records, one selector function per key path the playground uses, and `PEOPLE`.
- `Orders` (`orders.dfy`): strict weak orders, which is what `sort(by:)` demands. It also models `String`'s `<` as lexicographic order on characters and proves that it is a strict total order.
- `Adapters` (`adapters.dfy`): the three `~` overloads as `Extractor`, `Comparator` and `Predicate`, plus `Inverted`. The `Comparable` conformance is passed to `Comparator` as an explicit `less` relation.
- `Sequences` (`sequences.dfy`): the collection operations as functions on immutable sequences.
- `InPlaceSort` (`in_place_sort.dfy`): `p2.sort(by:)` as an insertion sort over an `array`.
- `Playground` (`playground.dfy`): each demonstration line of the playground and the result it yields on `PEOPLE`.

## Model

| member | source | states |
|---|---|---|
| `Records.PeopleAsListed` | KeyPaths.playground/Contents.swift:13-20 | The six people in list order, each field as written; no two share a name, Dick, Harry and Charles have an empty street, and only Harry and Bob have an id |
| `Records.Name` | KeyPaths.playground/Contents.swift:43 | `\.name` reads the name: together with the address it rebuilds the person |
| `Records.City` | KeyPaths.playground/Contents.swift:46 | `\.address.city` reads the city and no other part of the address |
| `Records.Street` | KeyPaths.playground/Contents.swift:72 | `\.address.street` reads the street and no other part of the address |
| `Records.Id` | KeyPaths.playground/Contents.swift:49 | `\.address.id` reads the optional id and no other part of the address |
| `Records.StreetIsEmpty` | KeyPaths.playground/Contents.swift:72 | `\.address.street.isEmpty` holds exactly when the street is the empty string |
| `Playground.ByName` | KeyPaths.playground/Contents.swift:54-57 | `~\.name` as a sorting predicate holds exactly when the first name is `<` the second |
| `Playground.ByCity` | KeyPaths.playground/Contents.swift:60-63 | `~\.address.city` as a sorting predicate holds exactly when the first city is `<` the second |
| `Playground.StreetIsNotEmpty` | KeyPaths.playground/Contents.swift:86 | `\.address.street.isEmpty.inverted` holds exactly when the street is not the empty string |
| `Adapters.Extractor` | KeyPaths.playground/Contents.swift:24-27 | For every record, the mapping function returns the value at the end of the key path |
| `Adapters.Comparator` | KeyPaths.playground/Contents.swift:29-32 | The sorting predicate holds exactly when the first record's value is `<` the second's |
| `Adapters.Predicate` | KeyPaths.playground/Contents.swift:34-38 | The filtering predicate returns the Boolean at the end of the key path, unchanged |
| `Adapters.Inverted` | KeyPaths.playground/Contents.swift:78-83 | `inverted` is the other truth value |
| `Adapters.InvertedIsInvolution` | KeyPaths.playground/Contents.swift:80-82 | Inverting twice gives the original value back |
| `Adapters.ComparatorIsStrictWeakOrder` | KeyPaths.playground/Contents.swift:30-32 | If `<` on the field is a strict weak order, the comparator on the records is one too |
| `Adapters.StringComparatorIsStrictWeakOrder` | KeyPaths.playground/Contents.swift:30-32 | On a `String` field the comparator is irreflexive and transitive, and ties are transitive, so it is a valid argument to `sort(by:)` |
| `Adapters.StringComparatorIsLexicographic` | KeyPaths.playground/Contents.swift:30-32 | On a `String` field the comparator holds iff the first field is a proper prefix of the second, or is smaller at the first differing character |
| `Adapters.StringComparatorIsTotalOnFields` | KeyPaths.playground/Contents.swift:30-32 | Two records with different `String` fields are ordered one way or the other |
| `Orders.StrictWeakOrderFacts` | KeyPaths.playground/Contents.swift:54 | A strict weak order, which `sort(by:)` requires, is asymmetric, and "not before" is transitive |
| `Orders.StringLessIsLexicographic` | KeyPaths.playground/Contents.swift:31 | `String`'s `<` agrees with the textbook lexicographic definition, in both directions |
| `Orders.StringLessIrreflexive` | KeyPaths.playground/Contents.swift:31 | No string is `<` itself |
| `Orders.StringLessTransitive` | KeyPaths.playground/Contents.swift:31 | `a < b` and `b < c` give `a < c` |
| `Orders.StringLessConnected` | KeyPaths.playground/Contents.swift:31 | Of two different strings, one is `<` the other |
| `Orders.StringLessIsStrictTotalOrder` | KeyPaths.playground/Contents.swift:31 | `String`'s `<` is a strict weak order and connected |
| `Sequences.Map` | KeyPaths.playground/Contents.swift:43 | `map` keeps the length, and element i is the callback applied to input element i |
| `Sequences.Filter` | KeyPaths.playground/Contents.swift:72 | `filter` never lengthens its input, and keeps only elements that satisfy the predicate |
| `Sequences.FilterCounts` | KeyPaths.playground/Contents.swift:72 | Every element that satisfies the predicate is kept as often as it occurs, and no other element is kept |
| `Sequences.FilterKeepsOrder` | KeyPaths.playground/Contents.swift:72 | `filter` keeps its elements in their original relative order |
| `Sequences.FilterPartitions` | KeyPaths.playground/Contents.swift:72-86 | A predicate and its negation split the input: together the two results hold every element exactly once |
| `Sequences.CompactMap` | KeyPaths.playground/Contents.swift:49 | Wrapping `compactMap`'s result back in `Optional` gives `map`'s result with the absent values removed, in order |
| `Sequences.FirstWhere` | KeyPaths.playground/Contents.swift:89 | `first(where:)` is none iff no element satisfies the predicate; otherwise it is the element at the lowest index that does |
| `Sequences.FirstWhereIsHeadOfFilter` | KeyPaths.playground/Contents.swift:89 | `first(where:)` is the head of `filter`'s result, and none when that result is empty |
| `Sequences.Reversed` | KeyPaths.playground/Contents.swift:63 | `reversed()` keeps the length, and element i is input element n-1-i |
| `Sequences.ReversedSortedIsDescending` | KeyPaths.playground/Contents.swift:63 | After reversing a sorted sequence, no element is before an element to its right |
| `Sequences.Sorted` | KeyPaths.playground/Contents.swift:57 | `sorted(by:)` returns a permutation of its input in which no element is before an element to its left |
| `Sequences.SortedUnique` | KeyPaths.playground/Contents.swift:66-67 | When no two elements are tied, two sorted permutations of the same elements are equal |
| `InPlaceSort.Sort` | KeyPaths.playground/Contents.swift:54 | `sort(by:)` in place leaves the array sorted and a permutation of what it held |
| `InPlaceSort.SortedCopy` | KeyPaths.playground/Contents.swift:53-54 | Sorting a fresh array copy gives a sorted permutation of the list. The list is a value, so sorting the copy cannot change it |
| `Playground.MapExtractorReadsPath` | KeyPaths.playground/Contents.swift:43 | `map(~path)` has one entry per person, and entry i is the value at the end of the path for person i |
| `Playground.InvertedPredicateIsNegation` | KeyPaths.playground/Contents.swift:80-86 | For any Boolean key path, the predicate of the path followed by `inverted` holds exactly where the path's own predicate fails |
| `Playground.DistinctFieldsNoTies` | KeyPaths.playground/Contents.swift:57 | Records whose `String` fields are all different are never tied under that field's comparator |
| `Playground.SortedByFieldIsNonDecreasing` | KeyPaths.playground/Contents.swift:60 | Sorting by a `String` field gives a permutation in which each field is equal to, or before, every field to its right |
| `Playground.ReversedIsNonIncreasing` | KeyPaths.playground/Contents.swift:63 | Reversing a sequence sorted by a `String` field gives non-increasing fields |
| `Sequences.ReversedIsPermutation` | KeyPaths.playground/Contents.swift:63 | `reversed()` is a permutation of its input |
| `Playground.NamesOfPeople` | KeyPaths.playground/Contents.swift:43 | `people.map(~\.name)` is `["Tom", "Dick", "Harry", "Alice", "Bob", "Charles"]` |
| `Playground.CitiesOfPeople` | KeyPaths.playground/Contents.swift:46 | `people.map(~\.address.city)` gives each person's city, in list order |
| `Playground.IdsOfPeople` | KeyPaths.playground/Contents.swift:49 | `people.compactMap(~\.address.id)` is `["1b0d", "0xg2"]` |
| `Playground.OnlyNameOrder` | KeyPaths.playground/Contents.swift:57 | Every name-sorted permutation of `people` is Alice, Bob, Charles, Dick, Harry, Tom |
| `Playground.NamesSortedByName` | KeyPaths.playground/Contents.swift:66-67 | `people.sorted(by: ~\.name).map(~\.name)` is `["Alice", "Bob", "Charles", "Dick", "Harry", "Tom"]` |
| `Playground.SortCopyOfPeople` | KeyPaths.playground/Contents.swift:53-54 | After `var p2 = people; p2.sort(by: ~\.name)`, `p2` holds the people in name order |
| `Playground.PeopleSortedByCity` | KeyPaths.playground/Contents.swift:60 | `people.sorted(by: ~\.address.city)` is a permutation of `people` with non-decreasing cities |
| `Playground.PeopleSortedByCityReversed` | KeyPaths.playground/Contents.swift:63 | Reversing that result gives a permutation of `people` with non-increasing cities |
| `Playground.PeopleWithEmptyStreet` | KeyPaths.playground/Contents.swift:72 | `people.filter(~\.address.street.isEmpty)` is Dick, Harry, Charles, in that order |
| `Playground.EmptyStreetNamesAsWritten` | KeyPaths.playground/Contents.swift:74-76 | As written, line 75 yields `["Dick", "Harry", "Charles"]`, not the `["Tom", "Alice", "Bob"]` its comment announces |
| `Playground.NonEmptyStreetNames` | KeyPaths.playground/Contents.swift:74-86 | The names of the people with a non-empty street, taken through the inverted path, are `["Tom", "Alice", "Bob"]` |
| `Playground.PeopleWithNonEmptyStreet` | KeyPaths.playground/Contents.swift:85-86 | `people.filter(~\.address.street.isEmpty.inverted)` is Tom, Alice, Bob, in that order |
| `Playground.StreetFiltersPartitionPeople` | KeyPaths.playground/Contents.swift:72-86 | The empty-street and non-empty-street filters together hold every person exactly once |
| `Playground.FirstWithEmptyStreet` | KeyPaths.playground/Contents.swift:88-89 | `people.first(where: ~\.address.street.isEmpty)` is Dick |

## Left out

- Swift's `KeyPath` runtime and the `~` operator's overload resolution. Both are fixed at compile time. Each key path becomes a selector function, and each overload becomes a named adapter.
- The `Comparable` constraint. `Comparator` takes the value type's `<` as an argument. The playground uses only `String` fields, and `StringLess` is the only order the model proves things about.
- Unicode `String` comparison. `StringLess` is lexicographic order on `char` sequences. This agrees with Swift on the ASCII sample data.
- Sequences.Sorted: promises a sorted permutation and no particular order among tied elements, as a deliberate modelling choice: the one sorted result the playground spells out (line 67) has no ties, and leaving their order open keeps the model valid for any sorting algorithm, stable or not. The tied cities (Tom and Harry in London, Dick and Bob in Nottingham) are left unordered.
- InPlaceSort.Sort: promises the same as `Sorted` and not stability. It is an insertion sort, not Swift's own algorithm.
- `reversed()` returns a lazy view in Swift. It is modelled as plain sequence reversal.
- The playground's result display. The lines have no other output.
- `drop(while:)` appears only in a doc comment (line 35). The playground never calls it.
- Building the same adapter twice gives the same function. In Dafny this holds by definition, so no lemma states it.

## Findings

| source | as written | input that shows it | evidently intended | confidence | as-written member | corrected member |
|---|---|---|---|---|---|---|
| KeyPaths.playground/Contents.swift:74-76 | Line 75 filters on `street.isEmpty`. Its comment says "non-empty street" and gives `["Tom", "Alice", "Bob"]` | `people`: line 75 yields `["Dick", "Harry", "Charles"]` | Filter on `street.isEmpty.inverted`, as line 86 does. That yields `["Tom", "Alice", "Bob"]` | not executed | `Playground.EmptyStreetNamesAsWritten` | `Playground.NonEmptyStreetNames` |
