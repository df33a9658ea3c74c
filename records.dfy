/** Swift's `Optional`, used for the address id (`String?`). */
module Optionals {

  datatype Option<T> = None | Some(value: T)

  /** `Optional.some` as a function value, so that a sequence of values can be wrapped. */
  function Wrap<T>(x: T): Option<T>
  {
    Some(x)
  }

  /** True for a present value; `compactMap` keeps exactly these. */
  predicate IsPresent<T>(o: Option<T>)
  {
    o.Some?
  }
}

/**
 * The two record types of the playground and its fixed sample data.
 * Both records are immutable value types (`struct` with `let` fields).
 */
module Records {
  import opened Optionals

  datatype Address = Address(street: string, city: string, id: Option<string>)

  datatype Person = Person(name: string, address: Address)

  // The key paths used by the playground, one selector each.

  /** `\Person.name`: the name, the part that with the address makes up the person. */
  function Name(p: Person): (n: string)
    ensures p == Person(n, p.address)
  {
    p.name
  }

  /** `\Person.address.city`: the city, the only part of the address it reads. */
  function City(p: Person): (c: string)
    ensures p.address == Address(p.address.street, c, p.address.id)
  {
    p.address.city
  }

  /** `\Person.address.street`: the street, the only part of the address it reads. */
  function Street(p: Person): (s: string)
    ensures p.address == Address(s, p.address.city, p.address.id)
  {
    p.address.street
  }

  /** `\Person.address.id`: the optional id, the only part of the address it reads. */
  function Id(p: Person): (i: Option<string>)
    ensures p.address == Address(p.address.street, p.address.city, i)
  {
    p.address.id
  }

  /** `\Person.address.street.isEmpty`: `isEmpty` applied at the end of the street path. */
  predicate StreetIsEmpty(p: Person): (empty: bool)
    ensures empty <==> Street(p) == ""
  {
    |p.address.street| == 0
  }

  const TOM := Person("Tom", Address("Regent Street", "London", None))
  const DICK := Person("Dick", Address("", "Nottingham", None))
  const HARRY := Person("Harry", Address("", "London", Some("1b0d")))
  const ALICE := Person("Alice", Address("London Road", "Edinburgh", None))
  const BOB := Person("Bob", Address("The Avenue", "Nottingham", Some("0xg2")))
  const CHARLES := Person("Charles", Address("", "Leicester", None))

  /** `people`, in the order the playground lists them. */
  const PEOPLE: seq<Person> := [TOM, DICK, HARRY, ALICE, BOB, CHARLES]

  /**
   * The six people in list order with their fields as written: no two share
   * a name, three have an empty street and only Harry and Bob have an id.
   */
  lemma PeopleAsListed()
    ensures |PEOPLE| == 6
    ensures PEOPLE[0] == Person("Tom", Address("Regent Street", "London", None))
    ensures PEOPLE[1] == Person("Dick", Address("", "Nottingham", None))
    ensures PEOPLE[2] == Person("Harry", Address("", "London", Some("1b0d")))
    ensures PEOPLE[3] == Person("Alice", Address("London Road", "Edinburgh", None))
    ensures PEOPLE[4] == Person("Bob", Address("The Avenue", "Nottingham", Some("0xg2")))
    ensures PEOPLE[5] == Person("Charles", Address("", "Leicester", None))
    ensures forall i, j :: 0 <= i < j < |PEOPLE| ==> Name(PEOPLE[i]) != Name(PEOPLE[j])
    ensures forall i :: 0 <= i < |PEOPLE| ==> (StreetIsEmpty(PEOPLE[i]) <==> i in {1, 2, 5})
    ensures forall i :: 0 <= i < |PEOPLE| ==> (Id(PEOPLE[i]).Some? <==> i in {2, 4})
  {
  }
}
