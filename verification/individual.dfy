/**
 * The `Individual` entity: a person's names, address and age, set one at a
 * time, ordered by last name and then first name.
 */
module Individuals {
  import opened Wrappers
  import opened Integers
  import opened Strings
  import opened Addresses

  /** A fully parsed individual, as a value: what the household index stores. */
  datatype Person = Person(firstName: string, lastName: string, address: AddressKey, age: int)

  class Individual {
    var firstName: Option<string>
    var lastName: Option<string>
    var address: Address?
    var age: Int32

    /** A new individual has null names and address and age 0. */
    constructor ()
      ensures firstName.None? && lastName.None? && address == null && age == 0
    {
      firstName, lastName, address, age := None, None, null, 0;
    }

    method SetFirstName(s: Option<string>)
      modifies this
      ensures firstName == s
      ensures lastName == old(lastName) && address == old(address) && age == old(age)
    {
      firstName := s;
    }

    method SetLastName(s: Option<string>)
      modifies this
      ensures lastName == s
      ensures firstName == old(firstName) && address == old(address) && age == old(age)
    {
      lastName := s;
    }

    method SetAddress(a: Address?)
      modifies this
      ensures address == a
      ensures firstName == old(firstName) && lastName == old(lastName) && age == old(age)
    {
      address := a;
    }

    method SetAge(n: Int32)
      modifies this
      ensures age == n
      ensures firstName == old(firstName) && lastName == old(lastName) && address == old(address)
    {
      age := n;
    }

    /**
     * `compareTo` dereferences both last names, and both first names when
     * the last names are equal; a null there is a `NullPointerException`.
     */
    predicate ComparableWith(t: Individual)
      reads this, t
    {
      lastName.Some? && t.lastName.Some? &&
      (lastName == t.lastName ==> firstName.Some? && t.firstName.Some?)
    }

    /**
     * `compareTo`: the comparison of the last names, or of the first names
     * when the last names are equal. The result is zero exactly when both
     * names agree and negative exactly when this individual comes first in
     * (last name, first name) order.
     */
    function CompareTo(t: Individual): (r: int)
      reads this, t
      requires ComparableWith(t)
      ensures r == 0 <==> lastName == t.lastName && firstName == t.firstName
      ensures r < 0 <==> LexLess(lastName.value, t.lastName.value) ||
                         (lastName == t.lastName && LexLess(firstName.value, t.firstName.value))
    {
      CompareStringsIsLexicographic(lastName.value, t.lastName.value);
      var v := CompareStrings(lastName.value, t.lastName.value);
      if v == 0 then
        CompareStringsIsLexicographic(firstName.value, t.firstName.value);
        CompareStrings(firstName.value, t.firstName.value)
      else
        v
    }

    predicate Complete()
      reads this, address
    {
      firstName.Some? && lastName.Some? && address != null && address.Complete()
    }

    /** The individual as a value. */
    function Value(): (p: Person)
      reads this, address
      requires Complete()
      ensures Some(p.firstName) == firstName && Some(p.lastName) == lastName
      ensures p.address == address.Key() && p.age == age
    {
      Person(firstName.value, lastName.value, address.Key(), age)
    }
  }

  lemma CompareToReflexive(a: Individual)
    requires a.ComparableWith(a)
    ensures a.CompareTo(a) == 0
  {
  }

  /** Swapping the operands negates the result exactly, so the signs are opposite. */
  lemma CompareToAntisymmetric(a: Individual, b: Individual)
    requires a.ComparableWith(b)
    ensures b.ComparableWith(a)
    ensures a.CompareTo(b) == -b.CompareTo(a)
  {
    CompareStringsAntisymmetric(a.lastName.value, b.lastName.value);
    if a.lastName == b.lastName {
      CompareStringsAntisymmetric(a.firstName.value, b.firstName.value);
    }
  }

  lemma CompareToTransitive(a: Individual, b: Individual, c: Individual)
    requires a.ComparableWith(b) && b.ComparableWith(c)
    requires a.CompareTo(b) <= 0 && b.CompareTo(c) <= 0
    ensures a.ComparableWith(c)
    ensures a.CompareTo(c) <= 0
  {
    var la, lb, lc := a.lastName.value, b.lastName.value, c.lastName.value;
    CompareStringsTransitive(la, lb, lc);
    if la == lc {
      CompareStringsAntisymmetric(la, lb);
      CompareStringsTransitive(a.firstName.value, b.firstName.value, c.firstName.value);
    }
  }

  /** Neither the age nor the address takes part: individuals with the same names order alike. */
  lemma CompareToIgnoresAgeAndAddress(a: Individual, b: Individual, c: Individual)
    requires a.firstName == b.firstName && a.lastName == b.lastName
    requires a.ComparableWith(c)
    ensures b.ComparableWith(c)
    ensures a.CompareTo(c) == b.CompareTo(c)
  {
  }
}
