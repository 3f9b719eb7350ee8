/** The rotating software-id policy of a channel with a node to itself. */
module RotatingIds {
  import opened Machine

  /** The counter of `SwIdPolicy::rotating`. */
  const ROTATION_START: U8 := 0x01

  /** What one request leaves in the counter. */
  function Advanced(counter: U8): U8 {
    if counter % 16 == 15 then 0x01 else (counter + 1) % 0x100
  }

  /** The counter after `n` requests. */
  function CounterAfter(start: U8, n: nat): U8 {
    if n == 0 then start else Advanced(CounterAfter(start, n - 1))
  }

  /** The id request `n` carries: the low nibble of the counter it found. */
  function IdOf(start: U8, n: nat): nat { CounterAfter(start, n) % 16 }

  class Rotation {
    var counter: U8

    constructor ()
      ensures counter == ROTATION_START
    {
      counter := ROTATION_START;
    }

    /** `get_sw_id`. */
    method GetSwId() returns (id: nat)
      modifies this
      ensures id == old(counter) % 16 && counter == Advanced(old(counter))
    {
      var previous := counter;
      counter := if previous % 16 == 0x0f then 0x01 else (previous + 1) % 0x100;
      id := previous % 16;
    }
  }

  lemma SmallStep(counter: U8)
    requires 1 <= counter <= 15
    ensures Advanced(counter) == if counter == 15 then 1 else counter + 1
  {}

  lemma {:induction false} CounterIs(n: nat)
    ensures CounterAfter(ROTATION_START, n) == n % 15 + 1
  {
    if n > 0 {
      CounterIs(n - 1);
      SmallStep(CounterAfter(ROTATION_START, n - 1));
      NextRemainder(n - 1);
    }
  }

  lemma NextRemainder(n: nat)
    ensures (n + 1) % 15 == if n % 15 == 14 then 0 else n % 15 + 1
  {}

  lemma CloseRemaindersDiffer(i: nat, j: nat)
    requires i < j < i + 15
    ensures i % 15 != j % 15
  {}

  lemma IdIs(n: nat)
    ensures IdOf(ROTATION_START, n) == n % 15 + 1
  {
    CounterIs(n);
  }

  /** The rotation walks 1 to 15 over and over: fifteen requests in a row carry fifteen ids. */
  lemma FifteenInARowDiffer(i: nat, j: nat)
    requires i < j < i + 15
    ensures 1 <= IdOf(ROTATION_START, i) <= 15
    ensures IdOf(ROTATION_START, i) != IdOf(ROTATION_START, j)
  {
    IdIs(i);
    IdIs(j);
    CloseRemaindersDiffer(i, j);
  }

  lemma AdvancedNibble(counter: U8)
    ensures Advanced(counter) % 16 == if counter % 16 == 15 then 1 else counter % 16 + 1
  {
    var high, low := counter / 16, counter % 16;
    assert counter == 16 * high + low;
    if low < 15 {
      assert Advanced(counter) == 16 * high + (low + 1);
    }
  }

  lemma {:induction false} NonzeroStays(start: U8, n: nat)
    requires start % 16 != 0
    ensures IdOf(start, n) != 0
  {
    if n > 0 {
      NonzeroStays(start, n - 1);
      AdvancedNibble(CounterAfter(start, n - 1));
    }
  }

  /**
   From whatever value a rotation is started, a request carries the reserved
   id 0 exactly when it is the first one and the start's low nibble is 0.
   */
  lemma ReservedIdExactly(start: U8, n: nat)
    ensures IdOf(start, n) == 0 <==> n == 0 && start % 16 == 0
  {
    if start % 16 != 0 {
      NonzeroStays(start, n);
    } else if n > 0 {
      ShiftedStart(start, n - 1);
      NonzeroStays(Advanced(start), n - 1);
    }
  }

  lemma {:induction false} ShiftedStart(start: U8, n: nat)
    ensures CounterAfter(start, n + 1) == CounterAfter(Advanced(start), n)
  {
    if n > 0 {
      ShiftedStart(start, n - 1);
    }
  }
}
