/** The software-id allocator as the program runs it: atomic steps on one 16-bit mask. */
module SwIdPool {
  import opened Wrappers
  import opened LeaseMask

  /** The ids a request may carry. Id 0 marks notifications on the wire. */
  predicate IsRequestId(id: nat) { 1 <= id <= 15 }

  /** `free` is the lowest request id not in `leased`, or `None` when all are leased. */
  ghost predicate IsLowestFree(leased: set<nat>, free: Option<nat>) {
    match free
    case Some(id) =>
      && IsRequestId(id)
      && id !in leased
      && forall lower: nat :: IsRequestId(lower) && lower < id ==> lower in leased
    case None => forall id: nat :: IsRequestId(id) ==> id in leased
  }

  ghost function AsId(lease: Option<bv8>): Option<nat> {
    if lease.Some? then Some(Num(lease.value)) else None
  }

  class Pool {
    var mask: bv16

    constructor ()
      ensures Ids(mask) == {}
    {
      mask := 0;
    }

    /** `(1..=15).find(|id| bits & (1 << id) == 0)`. */
    method FindFree(bits: bv16) returns (free: Option<bv8>)
      ensures IsLowestFree(Ids(bits), AsId(free))
    {
      var id: bv8 := 1;
      while id <= 15
        invariant 1 <= id <= 16
        invariant forall lower: nat :: IsRequestId(lower) && lower < Num(id) ==> lower in Ids(bits)
        decreases 16 - id
      {
        InIds(bits, id);
        if !HasBit(bits, id) {
          return Some(id);
        }
        id := id + 1;
      }
      free := None;
    }

    /** `compare_exchange(bits, bits | (1 << id))`: taken exactly when the mask still is `bits`. */
    method CompareExchange(bits: bv16, id: bv8) returns (done: bool)
      requires id < 16
      modifies this
      ensures done <==> Ids(old(mask)) == Ids(bits)
      ensures done ==> Ids(mask) == Ids(bits) + {Num(id)}
      ensures !done ==> mask == old(mask)
    {
      MaskIsItsIds(mask, bits);
      done := mask == bits;
      if done {
        SetId(bits, id);
        mask := bits | Bit(id);
      }
    }

    /**
     `try_lease_sw_id` while other threads keep writing the mask: `others[k]`
     is what the mask holds when the k-th compare-exchange runs. A lease is
     taken in one step from what the mask holds at that very moment.
     */
    method TryLease(others: seq<bv16>) returns (lease: Option<bv8>, before: bv16)
      modifies this
      ensures before == old(mask) || before in others
      ensures IsLowestFree(Ids(before), AsId(lease))
      ensures lease.Some? ==> Ids(mask) == Ids(before) + {Num(lease.value)}
      ensures lease.None? ==> mask == before
    {
      var k := 0;
      while true
        invariant k <= |others|
        invariant mask == old(mask) || mask in others
        decreases |others| - k
      {
        before := mask;
        lease := FindFree(before);
        if lease.None? {
          return;
        }
        if k < |others| {
          mask := others[k];
        }
        var done := CompareExchange(before, lease.value);
        if done {
          return;
        }
        k := k + 1;
      }
    }

    /** `free_sw_id`. */
    method Free(id: bv8)
      modifies this
      ensures Ids(mask) == Ids(old(mask)) - (if IsRequestId(Num(id)) then {Num(id)} else {})
    {
      if 1 <= id && id <= 15 {
        ClearId(mask, id);
        mask := mask & !Bit(id);
      }
    }
  }
}
