/**
 * The `Address` entity: three nullable text fields set one at a time, and
 * the equality and hash code that make addresses usable as grouping keys.
 * A Java `null` field is `None`.
 */
module Addresses {
  import opened Wrappers
  import opened Integers
  import opened Strings

  /** The three components of an address once all of them are set. */
  datatype AddressKey = AddressKey(addressLine: string, city: string, state: string)

  /** `Objects.hashCode` of a string: 0 for null, `String.hashCode` otherwise. */
  function TextHash(s: Option<string>): (h: int)
    ensures IsInt32(h)
    ensures s.None? ==> h == 0
    ensures s.Some? ==> h == Wrap32(HashPolynomial(s.value))
  {
    match s
    case None => 0
    case Some(t) => StringHashIsPolynomial(t); StringHash(t)
  }

  class Address {
    var addressLine: Option<string>
    var city: Option<string>
    var state: Option<string>

    /** A new address has every field null. */
    constructor ()
      ensures addressLine.None? && city.None? && state.None?
    {
      addressLine, city, state := None, None, None;
    }

    method SetAddressLine(s: Option<string>)
      modifies this
      ensures addressLine == s && city == old(city) && state == old(state)
    {
      addressLine := s;
    }

    method SetCity(s: Option<string>)
      modifies this
      ensures city == s && addressLine == old(addressLine) && state == old(state)
    {
      city := s;
    }

    method SetState(s: Option<string>)
      modifies this
      ensures state == s && addressLine == old(addressLine) && city == old(city)
    {
      state := s;
    }

    /**
     * The hash code: starting from 7, each component's hash is added to 37
     * times the running value in 32-bit wrap-around arithmetic. The result is
     * the wrapped value of one polynomial in the three component hashes.
     */
    function HashCode(): (h: int)
      reads this
      ensures IsInt32(h)
      ensures h == Wrap32(37 * 37 * 37 * 7 + 37 * 37 * TextHash(addressLine) + 37 * TextHash(city) + TextHash(state))
    {
      var h1, h2, h3 := TextHash(addressLine), TextHash(city), TextHash(state);
      var hash := Wrap32(37 * 7 + h1);
      var hash' := Wrap32(37 * hash + h2);
      WrapLinear(37, 37 * 7 + h1, h2);
      WrapLinear(37, 37 * (37 * 7 + h1) + h2, h3);
      Wrap32(37 * hash' + h3)
    }

    /**
     * `equals`: true for the same object, false for null and for objects of
     * another class, otherwise a component-wise comparison in which two nulls
     * are equal.
     */
    predicate Equals(obj: object?)
      reads this, obj
      ensures Equals(obj) <==> (
        obj is Address &&
        var other := obj as Address;
        addressLine == other.addressLine && city == other.city && state == other.state)
    {
      if this == obj then true
      else if obj == null then false
      else if !(obj is Address) then false
      else
        var other := obj as Address;
        addressLine == other.addressLine && city == other.city && state == other.state
    }

    predicate Complete()
      reads this
    {
      addressLine.Some? && city.Some? && state.Some?
    }

    /** The components of a complete address. */
    function Key(): (k: AddressKey)
      reads this
      requires Complete()
      ensures Some(k.addressLine) == addressLine && Some(k.city) == city && Some(k.state) == state
    {
      AddressKey(addressLine.value, city.value, state.value)
    }
  }

  lemma EqualsReflexive(a: Address)
    ensures a.Equals(a)
  {
  }

  lemma EqualsSymmetric(a: Address, b: Address)
    ensures a.Equals(b) <==> b.Equals(a)
  {
  }

  lemma EqualsTransitive(a: Address, b: Address, c: Address)
    requires a.Equals(b) && b.Equals(c)
    ensures a.Equals(c)
  {
  }

  lemma EqualsRejectsOthers(a: Address, obj: object?)
    requires obj == null || !(obj is Address)
    ensures !a.Equals(obj)
  {
  }

  /** Equal addresses have equal hash codes. */
  lemma HashConsistent(a: Address, b: Address)
    requires a.Equals(b)
    ensures a.HashCode() == b.HashCode()
  {
  }

  /** Two complete addresses are equal exactly when their components are. */
  lemma EqualsIffSameKey(a: Address, b: Address)
    requires a.Complete() && b.Complete()
    ensures a.Equals(b) <==> a.Key() == b.Key()
  {
  }

  /** The hash of an address with every field null. */
  lemma HashOfEmpty(a: Address)
    requires a.addressLine.None? && a.city.None? && a.state.None?
    ensures a.HashCode() == 37 * 37 * 37 * 7
  {
  }
}
