/**
 How one channel ends: the owner runs the drop body and then drops the fields
 in declaration order, while the read thread, which shares the raw transport,
 ends on its own.
 */
module ChannelLife {
  import opened Wire
  import opened Wrappers

  datatype Field =
    | SupportsShort | SupportsLong | VendorId | ProductId | RawChannel | SwIdPolicy
    | PendingMessages | PendingMessageId | MessageListeners | NextListenerHdl
    | ReadThreadClose | ReadThreadHdl

  /** The fields of a channel as declared, which is the order they are dropped in. */
  const FIELDS: seq<Field> := [
    SupportsShort, SupportsLong, VendorId, ProductId, RawChannel, SwIdPolicy,
    PendingMessages, PendingMessageId, MessageListeners, NextListenerHdl,
    ReadThreadClose, ReadThreadHdl
  ]

  /** The default policy until a lease is set; `Freed` remembers an id that was given back. */
  datatype Policy = Default | Leased(id: nat) | Freed(id: nat)

  /** The owner uses the channel, waits for the thread it told to stop, or is before field `next` of the drop. */
  datatype Owner = Using | Signalled | Dropping(next: nat)

  datatype Reader = Running | Exited

  /** `references` counts the owners of the raw transport, which is open while there are any. */
  datatype Chan = Chan(
    policy: Policy, owner: Owner, told: bool, reader: Reader, references: nat, pending: seq<Request>)

  /** `from_raw_channel`: one reference of the transport is the thread's and one is the field's. */
  const FRESH_CHANNEL: Chan := Chan(Default, Using, false, Running, 2, [])

  predicate IsOpen(c: Chan) { c.references > 0 }

  function OneLess(references: nat): nat { if references == 0 then 0 else references - 1 }

  function Tell(c: Chan): Chan { c.(owner := Signalled, told := true) }

  /** The thread ends, told to or by a panic, and its closure drops its reference. */
  function Exit(c: Chan): Chan { c.(reader := Exited, references := OneLess(c.references)) }

  function Join(c: Chan): Chan { c.(owner := Dropping(0)) }

  /** The owner drops one more field. */
  function DropNext(c: Chan): Chan
    requires c.owner.Dropping? && c.owner.next < |FIELDS|
  {
    var d := c.(owner := Dropping(c.owner.next + 1));
    match FIELDS[c.owner.next]
    case RawChannel => d.(references := OneLess(c.references))
    case SwIdPolicy => if c.policy.Leased? then d.(policy := Freed(c.policy.id)) else d
    case _ => d
  }

  predicate IsDropped(c: Chan, field: Field) {
    c.owner.Dropping? && c.owner.next <= |FIELDS| && field in FIELDS[..c.owner.next]
  }

  /** The transport has exactly the references of the field and of the thread, and a lease ends with its field. */
  predicate Exact(c: Chan) {
    && c.references == (if IsDropped(c, RawChannel) then 0 else 1) + (if c.reader.Running? then 1 else 0)
    && (c.owner.Dropping? ==> c.reader.Exited? && c.owner.next <= |FIELDS|)
    && (c.policy.Leased? ==> !IsDropped(c, SwIdPolicy))
    && (c.policy.Freed? ==> IsDropped(c, SwIdPolicy))
  }

  /** No field is declared twice, and the transport is declared before the policy. */
  lemma TransportBeforePolicy(next: nat)
    requires next < |FIELDS|
    ensures FIELDS[..next + 1] == FIELDS[..next] + [FIELDS[next]]
    ensures FIELDS[next] !in FIELDS[..next]
    ensures SwIdPolicy in FIELDS[..next + 1] ==> RawChannel in FIELDS[..next]
  {
    assert FIELDS[4] == RawChannel && FIELDS[5] == SwIdPolicy;
    if next > 4 {
      assert FIELDS[..next][4] == RawChannel;
    }
  }

  lemma DropKeepsExact(c: Chan)
    requires Exact(c) && c.owner.Dropping? && c.owner.next < |FIELDS|
    ensures Exact(DropNext(c))
  {
    TransportBeforePolicy(c.owner.next);
  }

  lemma EndKeepsExact(c: Chan)
    requires Exact(c)
    ensures c.owner.Using? ==> Exact(Tell(c))
    ensures c.reader.Running? ==> Exact(Exit(c))
    ensures c.owner.Signalled? && c.reader.Exited? ==> Exact(Join(c))
  {}

  /** Once the policy is dropped the thread is over and the transport closed. */
  lemma PolicyIsDroppedLast(c: Chan)
    requires Exact(c) && IsDropped(c, SwIdPolicy)
    ensures c.reader.Exited? && !IsOpen(c)
  {
    if c.owner.next > 0 {
      TransportBeforePolicy(c.owner.next - 1);
    }
  }
}
