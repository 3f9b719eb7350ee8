/** Folding the two binding maps of the oldest files into one. */
module LegacyBindings {
  import opened Bindings
  import opened GestureMigration
  import opened Wrappers

  /** The old single actions, without the one for the gesture button. */
  function Singles(buttons: map<ButtonId, Action>): Stored {
    map b | b in buttons && b != GestureButton :: Single(buttons[b])
  }

  /** The old gesture map, as the gesture button's. */
  function Homed(gestures: GestureMap): Stored {
    if gestures == map[] then map[] else map[GestureButton := Gesture(gestures)]
  }

  /** The merged map: newer bindings win over the gesture map, and that over the single actions. */
  function Merged(bindings: Stored, buttons: map<ButtonId, Action>, gestures: GestureMap): Stored {
    Singles(buttons) + (Homed(gestures) + bindings)
  }

  /** The conversion of a raw device entry. */
  method Merge(bindings: Stored, buttons: map<ButtonId, Action>, gestures: GestureMap) returns (merged: Stored)
    ensures merged == Merged(bindings, buttons, gestures)
  {
    merged := bindings;
    if gestures != map[] && GestureButton !in merged {
      merged := merged[GestureButton := Gesture(gestures)];
    }
    assert merged == Homed(gestures) + bindings;
    merged := InsertAbsent(merged, buttons);
  }

  /** Insert each old single action whose button has no binding yet, skipping the gesture button. */
  method InsertAbsent(stored: Stored, buttons: map<ButtonId, Action>) returns (merged: Stored)
    ensures merged == Singles(buttons) + stored
  {
    merged := stored;
    var left := buttons.Keys;
    while left != {}
      invariant left <= buttons.Keys
      invariant merged.Keys == stored.Keys + (buttons.Keys - left - {GestureButton})
      invariant forall b <- merged :: merged[b] == if b in stored then stored[b] else Single(buttons[b])
    {
      var button :| button in left;
      if button != GestureButton && button !in merged {
        merged := merged[button := Single(buttons[button])];
      }
      left := left - {button};
    }
    assert merged == Singles(buttons) + stored;
  }

  /**
   A button of the merged map has its newer binding, or else, for the gesture
   button, the old gesture map, and for any other its old single action.
   */
  lemma MergedExactly(bindings: Stored, buttons: map<ButtonId, Action>, gestures: GestureMap, b: ButtonId)
    ensures var merged := Merged(bindings, buttons, gestures);
            && (b in merged
                <==> || b in bindings
                     || (b.GestureButton? && gestures != map[])
                     || (!b.GestureButton? && b in buttons))
            && (b in bindings ==> merged[b] == bindings[b])
            && (b !in bindings && b.GestureButton? && gestures != map[] ==> merged[b] == Gesture(gestures))
            && (b !in bindings && !b.GestureButton? && b in buttons ==> merged[b] == Single(buttons[b]))
  {}

  /** Each button of an old file keeps its own single action. */
  lemma SinglesProjectAsTheyWere(buttons: map<ButtonId, Action>, gestures: GestureMap, button: ButtonId)
    requires button in buttons && button != GestureButton
    ensures var projected := BindingsFor(Merged(map[], buttons, gestures));
            button in projected && projected[button] == buttons[button]
  {
    var merged := Merged(map[], buttons, gestures);
    assert button in merged && merged[button] == Single(buttons[button]);
    assert button in ButtonBindingsFor(merged);
  }

  /**
   The gesture button of an old file keeps all its arms, and a single action once
   stored for it, which was never dispatched, still is not.
   */
  lemma OldGesturesDispatchAsTheyWere(buttons: map<ButtonId, Action>, gestures: GestureMap)
    ensures BindingOf(Merged(map[], buttons, gestures), GestureButton)
            == if gestures == map[] then DefaultBindingFor(GestureButton) else Gesture(gestures)
    ensures !IsGestureMode(Merged(map[], buttons, gestures), HapticPanel)
  {}

  /** A binding already in the newer map is never displaced. */
  lemma NewerBindingsWin(bindings: Stored, buttons: map<ButtonId, Action>, gestures: GestureMap, button: ButtonId)
    requires button in bindings
    ensures Merged(bindings, buttons, gestures)[button] == bindings[button]
  {}
}
