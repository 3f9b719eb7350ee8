/** Taking the first element that fits out of a queue. */
module Queues {
  import opened Wrappers

  /** Position of the first element that fits. */
  ghost function FirstWhere<T>(queue: seq<T>, fits: T -> bool): (at: Option<nat>)
    ensures at.Some? ==> at.value < |queue| && fits(queue[at.value])
    ensures at.Some? ==> forall k :: 0 <= k < at.value ==> !fits(queue[k])
    ensures at.None? ==> forall k :: 0 <= k < |queue| ==> !fits(queue[k])
  {
    if queue == [] then None
    else if fits(queue[0]) then Some(0)
    else
      match FirstWhere(queue[1..], fits)
      case None => (assert forall k :: 1 <= k < |queue| ==> queue[k] == queue[1..][k - 1]; None)
      case Some(i) =>
        assert forall k :: 1 <= k < |queue| ==> queue[k] == queue[1..][k - 1];
        Some(i + 1)
  }

  function RemoveAt<T>(queue: seq<T>, pos: nat): seq<T>
    requires pos < |queue|
  {
    queue[..pos] + queue[pos + 1..]
  }
}
