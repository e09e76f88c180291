/** The event flags that mailboxes collect: 32 bits, merged by union. */
module EventFlags {
  type Flags = bv32

  /** The flags and the mask have a bit in common. */
  predicate Meets(flags: Flags, mask: Flags) {
    flags & mask != 0
  }

  function Or(x: Flags, y: Flags): (r: Flags) {
    x | y
  }

  /** A bit is in the union exactly when it is in one of the two. */
  lemma UnionBits(x: Flags, y: Flags, mask: Flags)
    ensures (x | y) & mask != 0 <==> x & mask != 0 || y & mask != 0
  {
  }

  lemma UnionMeets(x: Flags, y: Flags, mask: Flags)
    ensures Meets(x | y, mask) <==> Meets(x, mask) || Meets(y, mask)
  {
    UnionBits(x, y, mask);
  }

  lemma OrMeets(x: Flags, y: Flags, mask: Flags)
    ensures Meets(Or(x, y), mask) <==> Meets(x, mask) || Meets(y, mask)
  {
    hide Meets;
    UnionMeets(x, y, mask);
  }
}
