/** Typed indices (`IndexMixin`): a 32-bit value whose largest value is the
    sentinel an unassigned, default-constructed index holds. */
module IndexMixins {
  /** `std::numeric_limits<uint32_t>::max()`. */
  const Max: nat := 0xFFFF_FFFF

  type UInt = x: nat | x <= Max

  datatype Index = Index(value: UInt)

  /** The default constructor: the sentinel. */
  function Default(): (r: Index)
    ensures r == MaxIndex() && !Assigned(r)
  {
    Index(Max)
  }

  /** `max()`. */
  function MaxIndex(): Index {
    Index(Max)
  }

  /** Not the sentinel. */
  predicate Assigned(i: Index) {
    i.value != Max
  }

  /** `get_value` and the `uint_t` conversion. */
  function GetValue(i: Index): UInt {
    i.value
  }

  predicate Eq(a: Index, b: Index) { a.value == b.value }
  predicate Ne(a: Index, b: Index) { !Eq(a, b) }
  predicate Le(a: Index, b: Index) { a.value <= b.value }
  predicate Lt(a: Index, b: Index) { a.value < b.value }
  predicate Ge(a: Index, b: Index) { a.value >= b.value }
  predicate Gt(a: Index, b: Index) { a.value > b.value }

  /** The identifying members: the value alone. */
  function IdentifyingMembers(i: Index): UInt {
    i.value
  }

  /** Equality of indices is equality of the whole index, and the
      comparisons form one total order consistent with it. */
  lemma ComparisonsConsistent(a: Index, b: Index)
    ensures Eq(a, b) <==> a == b
    ensures Ne(a, b) <==> a != b
    ensures Lt(a, b) <==> !Ge(a, b)
    ensures Gt(a, b) <==> Lt(b, a)
    ensures Le(a, b) <==> Lt(a, b) || Eq(a, b)
    ensures Ge(a, b) <==> Le(b, a)
    ensures Lt(a, b) || Eq(a, b) || Gt(a, b)
  {
  }

  /** Two indices with the same identifying members are the same index,
      and the value read back is the value stored. */
  lemma IdentityIsValue(a: Index, b: Index)
    ensures IdentifyingMembers(a) == IdentifyingMembers(b) <==> a == b
    ensures GetValue(Index(a.value)) == a.value
    ensures Assigned(a) <==> a != Default()
  {
  }
}
