/** The 16-bit software-id mask and the set of ids it stands for. */
module LeaseMask {
  /** An id as a number. */
  function Num(id: bv8): nat { id as nat }

  function Bit(id: bv8): bv16
    requires id < 16
  {
    (1 as bv16) << (id as bv16)
  }

  predicate HasBit(mask: bv16, id: bv8)
    requires id < 16
  {
    mask & Bit(id) != 0
  }

  const POSITIONS: set<bv8> := {0, 1, 2, 3, 4, 5, 6, 7, 8, 9, 10, 11, 12, 13, 14, 15}

  /** The ids whose bit is set. */
  ghost function Ids(mask: bv16): set<nat> {
    set id | id in POSITIONS && id < 16 && HasBit(mask, id) :: Num(id)
  }

  lemma InIds(mask: bv16, id: bv8)
    requires id < 16
    ensures Num(id) in Ids(mask) <==> HasBit(mask, id)
  {}

  lemma OrBit(mask: bv16, id: bv8, other: bv8)
    requires id < 16 && other < 16
    ensures (mask | Bit(id)) & Bit(other) != 0 <==> other == id || mask & Bit(other) != 0
  {}

  lemma AndNotBit(mask: bv16, id: bv8, other: bv8)
    requires id < 16 && other < 16
    ensures (mask & !Bit(id)) & Bit(other) != 0 <==> other != id && mask & Bit(other) != 0
  {}

  lemma ClearBit(mask: bv16, cleared: bv16, id: bv8, other: bv8)
    requires id < 16 && other < 16 && cleared == mask & !Bit(id)
    ensures HasBit(cleared, other) <==> other != id && HasBit(mask, other)
  {
    AndNotBit(mask, id, other);
  }

  lemma SetBit(mask: bv16, raised: bv16, id: bv8, other: bv8)
    requires id < 16 && other < 16 && raised == mask | Bit(id)
    ensures HasBit(raised, other) <==> other == id || HasBit(mask, other)
  {
    OrBit(mask, id, other);
  }

  lemma SetBits(mask: bv16, raised: bv16, id: bv8)
    requires id < 16 && raised == mask | Bit(id)
    ensures forall other: bv8 :: other < 16 ==> (HasBit(raised, other) <==> other == id || HasBit(mask, other))
  {
    forall other: bv8 | other < 16 ensures HasBit(raised, other) <==> other == id || HasBit(mask, other) {
      SetBit(mask, raised, id, other);
    }
  }

  lemma IdsWith(mask: bv16, raised: bv16, id: bv8)
    requires id < 16
    requires forall other: bv8 :: other < 16 ==> (HasBit(raised, other) <==> other == id || HasBit(mask, other))
    ensures Ids(raised) == Ids(mask) + {Num(id)}
  {}

  /** Setting a bit adds its id and touches no other. */
  lemma SetId(mask: bv16, id: bv8)
    requires id < 16
    ensures Ids(mask | Bit(id)) == Ids(mask) + {Num(id)}
  {
    SetBits(mask, mask | Bit(id), id);
    IdsWith(mask, mask | Bit(id), id);
  }

  lemma IdsWithout(mask: bv16, cleared: bv16, id: bv8)
    requires id < 16
    requires forall other: bv8 :: other < 16 ==> (HasBit(cleared, other) <==> other != id && HasBit(mask, other))
    ensures Ids(cleared) == Ids(mask) - {Num(id)}
  {}

  lemma ClearBits(mask: bv16, cleared: bv16, id: bv8)
    requires id < 16 && cleared == mask & !Bit(id)
    ensures forall other: bv8 :: other < 16 ==> (HasBit(cleared, other) <==> other != id && HasBit(mask, other))
  {
    forall other: bv8 | other < 16 ensures HasBit(cleared, other) <==> other != id && HasBit(mask, other) {
      ClearBit(mask, cleared, id, other);
    }
  }

  /** Clearing a bit removes its id and touches no other. */
  lemma ClearId(mask: bv16, id: bv8)
    requires id < 16
    ensures Ids(mask & !Bit(id)) == Ids(mask) - {Num(id)}
  {
    ClearBits(mask, mask & !Bit(id), id);
    IdsWithout(mask, mask & !Bit(id), id);
  }

  lemma SameBit(m: bv16, n: bv16, id: bv8, bit: bv16)
    requires id < 16 && Bit(id) == bit && Ids(m) == Ids(n)
    ensures m & bit != 0 <==> n & bit != 0
  {
    InIds(m, id);
    InIds(n, id);
  }

  lemma SameNibble0(m: bv16, n: bv16)
    requires Ids(m) == Ids(n)
    ensures m & 0xf == n & 0xf
  {
    SameBit(m, n, 0, 0x1); SameBit(m, n, 1, 0x2); SameBit(m, n, 2, 0x4); SameBit(m, n, 3, 0x8);
  }

  lemma SameNibble1(m: bv16, n: bv16)
    requires Ids(m) == Ids(n)
    ensures m & 0xf0 == n & 0xf0
  {
    SameBit(m, n, 4, 0x10); SameBit(m, n, 5, 0x20); SameBit(m, n, 6, 0x40); SameBit(m, n, 7, 0x80);
  }

  lemma SameNibble2(m: bv16, n: bv16)
    requires Ids(m) == Ids(n)
    ensures m & 0xf00 == n & 0xf00
  {
    SameBit(m, n, 8, 0x100); SameBit(m, n, 9, 0x200); SameBit(m, n, 10, 0x400); SameBit(m, n, 11, 0x800);
  }

  lemma SameNibble3(m: bv16, n: bv16)
    requires Ids(m) == Ids(n)
    ensures m & 0xf000 == n & 0xf000
  {
    SameBit(m, n, 12, 0x1000); SameBit(m, n, 13, 0x2000); SameBit(m, n, 14, 0x4000); SameBit(m, n, 15, 0x8000);
  }

  /** A mask is the set it stands for, so comparing masks compares sets. */
  lemma MaskIsItsIds(m: bv16, n: bv16)
    ensures m == n <==> Ids(m) == Ids(n)
  {
    if Ids(m) == Ids(n) {
      SameNibble0(m, n); SameNibble1(m, n); SameNibble2(m, n); SameNibble3(m, n);
    }
  }
}
