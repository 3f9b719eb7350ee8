/** Swipe gestures: the saturating 32-bit classifier and the hold it accumulates over. */
module Swipe {
  import opened Bindings
  import opened Machine
  import opened Wrappers

  const THRESHOLD: int := 50
  const DEADZONE: int := 40

  type Direction = d: GestureDirection | !d.Click? witness Up

  function Saturate(n: int): I32 {
    if n < I32_MIN then I32_MIN else if n > I32_MAX then I32_MAX else n
  }

  function Abs(n: int): nat { if n < 0 then -n else n }

  function SaturatingAbs(n: I32): I32 { Saturate(Abs(n)) }
  function SaturatingAdd(a: I32, b: I32): I32 { Saturate(a + b) }
  function SaturatingMul(a: I32, b: I32): I32 { Saturate(a * b) }
  function Max(a: int, b: int): int { if a >= b then a else b }

  /** `detect_swipe`, with every operation kept inside 32 bits. */
  function DetectSwipe(dx: I32, dy: I32): Option<Direction> {
    var absX, absY := SaturatingAbs(dx), SaturatingAbs(dy);
    var dominant := Max(absX, absY);
    if dominant < THRESHOLD then None
    else
      var crossLimit := Max(DEADZONE, SaturatingMul(dominant, 35) / 100);
      if absX > absY then
        if absY > crossLimit then None else Some(if dx > 0 then Right else Left)
      else
        if absX > crossLimit then None else Some(if dy > 0 then Down else Up)
  }

  // ---------------------------------------------------------------------
  // The rule it implements
  // ---------------------------------------------------------------------

  /** The travel along a direction. */
  function Along(dir: Direction, dx: int, dy: int): int {
    match dir
    case Right => dx
    case Left => -dx
    case Down => dy
    case Up => -dy
  }

  /** The travel across a direction. */
  function Across(dir: Direction, dx: int, dy: int): nat {
    if dir.Right? || dir.Left? then Abs(dy) else Abs(dx)
  }

  /** The rule on exact integers: far enough along, and across by at most 35% or the dead zone. */
  predicate ExactRule(dir: Direction, dx: int, dy: int) {
    var along, across := Along(dir, dx, dy), Across(dir, dx, dy);
    && along >= THRESHOLD
    && (across < along || (across == along && (dir.Up? || dir.Down?)))
    && (across <= DEADZONE || 100 * across <= 35 * along)
  }

  /** The dominant travel up to which multiplying by 35 fits in 32 bits. */
  const EXACT_UP_TO: int := 61_356_675

  /** What the saturated limit of 35% amounts to beyond that. */
  const SATURATED_LIMIT: int := 21_474_836

  /**
   The classifier follows the exact rule except where the cross travel is over
   the saturated limit yet within 35%, and there it sees no swipe.
   */
  lemma DetectSwipeExactly(dx: I32, dy: I32, dir: Direction)
    ensures DetectSwipe(dx, dy) == Some(dir)
            <==> ExactRule(dir, dx, dy)
                 && (Along(dir, dx, dy) <= EXACT_UP_TO || Across(dir, dx, dy) <= SATURATED_LIMIT)
  {
    LimitIs(Max(SaturatingAbs(dx), SaturatingAbs(dy)));
    AbsLosesAtMostOne(dx);
    AbsLosesAtMostOne(dy);
  }

  lemma AbsLosesAtMostOne(n: I32)
    ensures 0 <= SaturatingAbs(n) <= I32_MAX
    ensures SaturatingAbs(n) == if n == I32_MIN then Abs(n) - 1 else Abs(n)
  {}

  lemma LimitIs(dominant: I32)
    requires 0 <= dominant
    ensures SaturatingMul(dominant, 35) / 100
            == if dominant <= EXACT_UP_TO then dominant * 35 / 100 else SATURATED_LIMIT
  {}

  /** At most one direction fits, so the classifier's answer is determined by the rule. */
  lemma DirectionsExclude(dx: int, dy: int, dir: Direction, other: Direction)
    requires ExactRule(dir, dx, dy) && ExactRule(other, dx, dy)
    ensures dir == other
  {}

  // ---------------------------------------------------------------------
  // One hold after another
  // ---------------------------------------------------------------------

  datatype State = State(holding: bool, dx: I32, dy: I32, fired: bool)

  /** `longEnough` is whether the hold has lasted the minimum time when the motion arrives. */
  datatype Action = Begin | Move(dx: I32, dy: I32, longEnough: bool) | End

  datatype Output = Silent | Swiped(dir: Direction) | Released(click: bool)

  function Moved(s: State, dx: I32, dy: I32): State {
    s.(dx := SaturatingAdd(s.dx, dx), dy := SaturatingAdd(s.dy, dy))
  }

  /** The state after `accumulate` and the direction it reports. */
  function Accumulated(s: State, dx: I32, dy: I32, longEnough: bool): (State, Option<Direction>) {
    if s.fired || !s.holding then (s, None)
    else
      var moved := Moved(s, dx, dy);
      var dir := if longEnough then DetectSwipe(moved.dx, moved.dy) else None;
      (moved.(fired := dir.Some?), dir)
  }

  function Next(s: State, a: Action): (State, Output) {
    match a
    case Begin => (State(true, 0, 0, false), Silent)
    case Move(dx, dy, longEnough) =>
      var (t, dir) := Accumulated(s, dx, dy, longEnough);
      (t, if dir.Some? then Swiped(dir.value) else Silent)
    case End => (s.(holding := false), Released(s.holding && !s.fired))
  }

  class SwipeAccumulator {
    var holding: bool
    var dx: I32
    var dy: I32
    var fired: bool

    ghost function View(): State
      reads this
    {
      State(holding, dx, dy, fired)
    }

    constructor ()
      ensures View() == State(false, 0, 0, false)
    {
      holding, dx, dy, fired := false, 0, 0, false;
    }

    method BeginHold()
      modifies this
      ensures View() == Next(old(View()), Begin).0
    {
      holding := true;
      dx, dy := 0, 0;
      fired := false;
    }

    method Accumulate(moveX: I32, moveY: I32, longEnough: bool) returns (swipe: Option<Direction>)
      modifies this
      ensures (View(), swipe) == Accumulated(old(View()), moveX, moveY, longEnough)
    {
      if fired || !holding {
        return None;
      }
      dx := SaturatingAdd(dx, moveX);
      dy := SaturatingAdd(dy, moveY);
      if longEnough {
        swipe := DetectSwipe(dx, dy);
        if swipe.Some? {
          fired := true;
        }
      } else {
        swipe := None;
      }
    }

    method EndHold() returns (click: bool)
      modifies this
      ensures (View(), Released(click)) == Next(old(View()), End)
    {
      click := holding && !fired;
      holding := false;
    }
  }

  const IDLE: State := State(false, 0, 0, false)

  function StateAfter(actions: seq<Action>): State {
    if actions == [] then IDLE else Next(StateAfter(actions[..|actions| - 1]), actions[|actions| - 1]).0
  }

  /** What the action at position `i` of a run reports. */
  function OutputAt(actions: seq<Action>, i: nat): Output
    requires i < |actions|
  {
    Next(StateAfter(actions[..i]), actions[i]).1
  }

  /** A hold begun at `i` is still on just before `j`. */
  predicate HeldSince(actions: seq<Action>, i: nat, j: nat) {
    && i < j <= |actions|
    && actions[i].Begin?
    && forall k :: i < k < j ==> actions[k].Move?
  }

  /** Just before `j` no hold is on. */
  predicate NotHeld(actions: seq<Action>, j: nat) {
    && j <= |actions|
    && ((forall k :: 0 <= k < j ==> actions[k].Move?)
        || exists i :: 0 <= i < j && actions[i].End? && forall k :: i < k < j ==> actions[k].Move?)
  }

  /** The exact travel of the moves from `i` up to `j`. */
  function TravelX(actions: seq<Action>, i: nat, j: nat): int
    requires i <= j <= |actions|
  {
    if i == j then 0
    else TravelX(actions, i, j - 1) + if actions[j - 1].Move? then actions[j - 1].dx else 0
  }

  function TravelY(actions: seq<Action>, i: nat, j: nat): int
    requires i <= j <= |actions|
  {
    if i == j then 0
    else TravelY(actions, i, j - 1) + if actions[j - 1].Move? then actions[j - 1].dy else 0
  }

  /** The travel as a 32-bit counter keeps it: every sum is cut off at the ends of the range. */
  function ClampedX(actions: seq<Action>, i: nat, j: nat): I32
    requires i <= j <= |actions|
  {
    if i == j then 0
    else SaturatingAdd(ClampedX(actions, i, j - 1), if actions[j - 1].Move? then actions[j - 1].dx else 0)
  }

  function ClampedY(actions: seq<Action>, i: nat, j: nat): I32
    requires i <= j <= |actions|
  {
    if i == j then 0
    else SaturatingAdd(ClampedY(actions, i, j - 1), if actions[j - 1].Move? then actions[j - 1].dy else 0)
  }

  predicate NoneSwiped(actions: seq<Action>, i: nat, j: nat) {
    forall k :: i < k < j && k < |actions| ==> !OutputAt(actions, k).Swiped?
  }

  /** The travel stays in 32 bits all along. */
  predicate TravelFits(actions: seq<Action>, i: nat, j: nat)
    requires j <= |actions|
  {
    forall k :: i <= k <= j ==>
      I32_MIN <= TravelX(actions, i, k) <= I32_MAX && I32_MIN <= TravelY(actions, i, k) <= I32_MAX
  }

  /** Travel that fits is counted exactly. */
  lemma {:induction false} FittingTravelIsExact(actions: seq<Action>, i: nat, j: nat)
    requires i <= j <= |actions| && TravelFits(actions, i, j)
    ensures ClampedX(actions, i, j) == TravelX(actions, i, j) && ClampedY(actions, i, j) == TravelY(actions, i, j)
    decreases j
  {
    if i < j {
      FittingTravelIsExact(actions, i, j - 1);
      assert I32_MIN <= TravelX(actions, i, j) <= I32_MAX && I32_MIN <= TravelY(actions, i, j) <= I32_MAX;
    }
  }

  lemma StepTo(actions: seq<Action>, j: nat)
    requires 0 < j <= |actions|
    ensures StateAfter(actions[..j]) == Next(StateAfter(actions[..j - 1]), actions[j - 1]).0
  {
    assert actions[..j][..j - 1] == actions[..j - 1];
  }

  lemma OneMoreSilent(actions: seq<Action>, i: nat, j: nat)
    requires i + 1 < j <= |actions|
    ensures NoneSwiped(actions, i, j) <==> NoneSwiped(actions, i, j - 1) && !OutputAt(actions, j - 1).Swiped?
  {}

  /** The state inside a hold: not yet fired exactly while nothing was reported, with the travel so far. */
  lemma {:induction false} InsideHold(actions: seq<Action>, i: nat, j: nat)
    requires HeldSince(actions, i, j)
    ensures var s := StateAfter(actions[..j]);
            && s.holding
            && (s.fired <==> !NoneSwiped(actions, i, j))
            && (!s.fired ==> s.dx == ClampedX(actions, i, j) && s.dy == ClampedY(actions, i, j))
    decreases j
  {
    StepTo(actions, j);
    if j > i + 1 {
      InsideHold(actions, i, j - 1);
      OneMoreSilent(actions, i, j);
    }
  }

  /**
   A hold reports at most one direction, and it is the one the classifier sees
   in the travel since the hold began, once the hold is long enough: the exact
   travel while that fits, and the clamped one always.
   */
  lemma OneSwipePerHold(actions: seq<Action>, i: nat, j: nat)
    requires HeldSince(actions, i, j) && j < |actions| && actions[j].Move?
    ensures !NoneSwiped(actions, i, j) ==> OutputAt(actions, j) == Silent
    ensures NoneSwiped(actions, i, j) ==>
              var dir := DetectSwipe(ClampedX(actions, i, j + 1), ClampedY(actions, i, j + 1));
              OutputAt(actions, j) == if actions[j].longEnough && dir.Some? then Swiped(dir.value) else Silent
    ensures TravelFits(actions, i, j + 1) ==>
              && ClampedX(actions, i, j + 1) == TravelX(actions, i, j + 1)
              && ClampedY(actions, i, j + 1) == TravelY(actions, i, j + 1)
  {
    InsideHold(actions, i, j);
    if TravelFits(actions, i, j + 1) {
      FittingTravelIsExact(actions, i, j + 1);
    }
  }

  /** A hold ends in a click exactly when it reported no direction. */
  lemma ClickExactlyWithoutSwipe(actions: seq<Action>, i: nat, j: nat)
    requires HeldSince(actions, i, j) && j < |actions| && actions[j].End?
    ensures OutputAt(actions, j) == Released(NoneSwiped(actions, i, j))
  {
    InsideHold(actions, i, j);
  }

  lemma {:induction false} OutsideHold(actions: seq<Action>, j: nat)
    requires NotHeld(actions, j)
    ensures !StateAfter(actions[..j]).holding
    decreases j
  {
    if j > 0 {
      StepTo(actions, j);
      if !actions[j - 1].End? {
        OutsideHold(actions, j - 1);
      }
    }
  }

  /** Outside a hold motion reports nothing, and a stray release is no click. */
  lemma NothingOutsideAHold(actions: seq<Action>, j: nat)
    requires NotHeld(actions, j) && j < |actions| && !actions[j].Begin?
    ensures OutputAt(actions, j) == if actions[j].End? then Released(false) else Silent
  {
    OutsideHold(actions, j);
  }

  /** Every moment of every run is inside a hold or outside one. */
  lemma {:induction false} HeldOrNot(actions: seq<Action>, j: nat)
    requires j <= |actions|
    ensures NotHeld(actions, j) || exists i :: 0 <= i < j && HeldSince(actions, i, j)
  {
    if j > 0 {
      HeldOrNot(actions, j - 1);
      if actions[j - 1].Begin? {
        assert HeldSince(actions, j - 1, j);
      } else if actions[j - 1].Move? && !NotHeld(actions, j - 1) {
        var i :| 0 <= i < j - 1 && HeldSince(actions, i, j - 1);
        assert HeldSince(actions, i, j);
      }
    }
  }
}
