/** What the buttons of a device do: single actions, gesture maps, long presses and their defaults. */
module Bindings {
  import opened Wrappers

  /** In declaration order, which is the order a map keyed by buttons is walked in. */
  datatype ButtonId =
    | LeftClick | RightClick | MiddleClick | Back | Forward | DpiToggle
    | Thumbwheel | ThumbwheelScrollUp | ThumbwheelScrollDown | GestureButton
    | KeySearch | KeyDictation | KeyEmoji | KeyScreenCapture | KeyMicMute
    | KeyPlayPause | KeyMute | KeyVolumeDown | KeyVolumeUp
    | HapticPanel | WheelTiltLeft | WheelTiltRight

  const DECLARED: seq<ButtonId> := [
    LeftClick, RightClick, MiddleClick, Back, Forward, DpiToggle,
    Thumbwheel, ThumbwheelScrollUp, ThumbwheelScrollDown, GestureButton,
    KeySearch, KeyDictation, KeyEmoji, KeyScreenCapture, KeyMicMute,
    KeyPlayPause, KeyMute, KeyVolumeDown, KeyVolumeUp,
    HapticPanel, WheelTiltLeft, WheelTiltRight
  ]

  /** The buttons a fresh device starts with defaults for. */
  const SEEDED: set<ButtonId> := {
    LeftClick, RightClick, MiddleClick, WheelTiltLeft, WheelTiltRight, Back, Forward,
    DpiToggle, Thumbwheel, ThumbwheelScrollUp, ThumbwheelScrollDown, GestureButton, HapticPanel
  }

  predicate IsOsHookButton(button: ButtonId) { button.MiddleClick? || button.Back? || button.Forward? }
  predicate IsHidppGestureSource(button: ButtonId) { button.GestureButton? || button.HapticPanel? }

  datatype GestureDirection = Up | Down | Left | Right | Click

  const DIRECTIONS: set<GestureDirection> := {Up, Down, Left, Right, Click}

  /** The actions the defaults name; the rest of the catalog is told apart by number only. */
  datatype Action =
    | DoNothing | PressLeft | PressRight | PressMiddle | BrowserBack | BrowserForward
    | CycleDpiPresets | HorizontalScrollLeft | HorizontalScrollRight | MissionControl
    | ShowDesktop | PrevTab | NextTab | AppExpose | ShowActionsRing | Other(id: nat)

  type GestureMap = map<GestureDirection, Action>

  datatype Binding = Single(action: Action) | Gesture(arms: GestureMap) | LongPress(short: Action, long: Action)

  function DefaultBinding(button: ButtonId): Action {
    match button
    case LeftClick => PressLeft
    case RightClick => PressRight
    case MiddleClick => PressMiddle
    case WheelTiltLeft => HorizontalScrollLeft
    case WheelTiltRight => HorizontalScrollRight
    case Back => BrowserBack
    case Forward => BrowserForward
    case DpiToggle => CycleDpiPresets
    case ThumbwheelScrollUp => HorizontalScrollLeft
    case ThumbwheelScrollDown => HorizontalScrollRight
    case GestureButton => MissionControl
    case HapticPanel => ShowActionsRing
    case _ => DoNothing
  }

  function DefaultGestureBinding(direction: GestureDirection): Action {
    match direction
    case Up => MissionControl
    case Down => ShowDesktop
    case Left => PrevTab
    case Right => NextTab
    case Click => AppExpose
  }

  const DEFAULT_GESTURES: GestureMap := map d | d in DIRECTIONS :: DefaultGestureBinding(d)

  function DefaultBindingFor(button: ButtonId): Binding {
    if button.GestureButton? then Gesture(DEFAULT_GESTURES) else Single(DefaultBinding(button))
  }

  function ClickAction(binding: Binding): Action {
    match binding
    case Single(action) => action
    case Gesture(arms) => if Click in arms then arms[Click] else DoNothing
    case LongPress(short, _) => short
  }

  function UpgradeToGesture(binding: Binding): Binding {
    if binding.Gesture? then binding else Gesture(map[Click := ClickAction(binding)])
  }

  function DemoteToSingle(binding: Binding, fallback: Action): Binding {
    if binding.Gesture? then Single(if Click in binding.arms then binding.arms[Click] else fallback)
    else binding
  }

  function FillGestureDefaults(binding: Binding): Binding {
    if binding.Gesture? then Gesture(DEFAULT_GESTURES + binding.arms) else binding
  }

  /** A gesture without a click of its own keeps the button's default click. */
  function WithDefaultClick(binding: Binding, button: ButtonId): Binding {
    if binding.Gesture? && Click !in binding.arms
    then Gesture(binding.arms[Click := DefaultBinding(button)])
    else binding
  }

  /** The stored bindings over the seeded defaults. */
  function ButtonBindingsFor(stored: map<ButtonId, Binding>): map<ButtonId, Binding> {
    map b | b in SEEDED + stored.Keys ::
      if b in stored then WithDefaultClick(stored[b], b) else Single(DefaultBinding(b))
  }

  function BindingsFor(stored: map<ButtonId, Binding>): map<ButtonId, Action> {
    var bindings := ButtonBindingsFor(stored);
    map b | b in bindings :: ClickAction(bindings[b])
  }

  /** `button_bindings_for`: seed the defaults, then insert what is stored one by one. */
  method BuildButtonBindings(stored: map<ButtonId, Binding>) returns (bindings: map<ButtonId, Binding>)
    ensures bindings == ButtonBindingsFor(stored)
  {
    bindings := map b | b in SEEDED :: Single(DefaultBinding(b));
    var left := stored.Keys;
    while left != {}
      invariant left <= stored.Keys
      invariant bindings.Keys == SEEDED + (stored.Keys - left)
      invariant forall b <- bindings ::
        bindings[b] == if b in stored.Keys - left then WithDefaultClick(stored[b], b) else Single(DefaultBinding(b))
    {
      var button :| button in left;
      var binding := stored[button];
      if binding.Gesture? && Click !in binding.arms {
        binding := Gesture(binding.arms[Click := DefaultBinding(button)]);
      }
      bindings := bindings[button := binding];
      left := left - {button};
    }
  }

  /** `fill_gesture_defaults`: give every unbound direction its default. */
  method BuildFilledGesture(binding: Binding) returns (filled: Binding)
    ensures filled == FillGestureDefaults(binding)
  {
    if !binding.Gesture? {
      return binding;
    }
    var arms := binding.arms;
    var left := DIRECTIONS;
    while left != {}
      invariant left <= DIRECTIONS
      invariant arms.Keys == binding.arms.Keys + (DIRECTIONS - left)
      invariant forall d <- arms ::
        arms[d] == if d in binding.arms then binding.arms[d] else DefaultGestureBinding(d)
    {
      var direction :| direction in left;
      if direction !in arms {
        arms := arms[direction := DefaultGestureBinding(direction)];
      }
      left := left - {direction};
    }
    assert arms == DEFAULT_GESTURES + binding.arms;
    filled := Gesture(arms);
  }

  // ---------------------------------------------------------------------
  // What is dispatched
  // ---------------------------------------------------------------------

  /**
   Every seeded and every stored button is dispatched: as it is stored, except
   that a gesture without a click gains the default one, or else as its default.
   */
  lemma DispatchedExactly(stored: map<ButtonId, Binding>, b: ButtonId)
    ensures var bindings := ButtonBindingsFor(stored);
            && (b in bindings <==> b in SEEDED || b in stored)
            && (b in stored && !stored[b].Gesture? ==> bindings[b] == stored[b])
            && (b in stored && stored[b].Gesture? ==>
                  && bindings[b].Gesture?
                  && bindings[b].arms.Keys == stored[b].arms.Keys + {Click}
                  && (forall d <- stored[b].arms :: bindings[b].arms[d] == stored[b].arms[d])
                  && (Click !in stored[b].arms ==> bindings[b].arms[Click] == DefaultBinding(b)))
            && (b in SEEDED && b !in stored ==> bindings[b] == Single(DefaultBinding(b)))
  {}

  /** The single action of a button: its own, the click of a gesture, the short press of a long one, or the default. */
  lemma SingleActionExactly(stored: map<ButtonId, Binding>, b: ButtonId)
    requires b in stored || b in SEEDED
    ensures b in BindingsFor(stored)
    ensures BindingsFor(stored)[b]
            == if b !in stored then DefaultBinding(b)
               else match stored[b]
                 case Single(action) => action
                 case LongPress(short, _) => short
                 case Gesture(arms) => if Click in arms then arms[Click] else DefaultBinding(b)
  {
    DispatchedExactly(stored, b);
  }

  // ---------------------------------------------------------------------
  // What the shapes promise
  // ---------------------------------------------------------------------

  /** The stored bindings with one app's overlay on top, each override a whole button. */
  function EffectiveBindings(bindings: map<ButtonId, Binding>, overlay: map<ButtonId, Action>): map<ButtonId, Binding> {
    bindings + map b | b in overlay :: Single(overlay[b])
  }

  /** Every HID++ source in gesture mode, with all five directions bound. */
  function HidppGestureMapsFor(bindings: map<ButtonId, Binding>): map<ButtonId, GestureMap> {
    map b | b in {GestureButton, HapticPanel}
            && (if b in bindings then bindings[b] else DefaultBindingFor(b)).Gesture?
      :: DEFAULT_GESTURES + (if b in bindings then bindings[b] else DefaultBindingFor(b)).arms
  }

  /** Every OS-hook button in gesture mode under one app's overlay, with the directions it stores. */
  function OsHookGesturesFor(
      bindings: map<ButtonId, Binding>, overlay: map<ButtonId, Action>): map<ButtonId, GestureMap>
  {
    var effective := EffectiveBindings(bindings, overlay);
    map b | b in effective && IsOsHookButton(b) && effective[b].Gesture? :: effective[b].arms
  }

  /** Demoting takes back a promotion: the plain press is what it was, whatever the fallback. */
  lemma DemoteUndoesUpgrade(binding: Binding, fallback: Action)
    requires !binding.Gesture?
    ensures DemoteToSingle(UpgradeToGesture(binding), fallback) == Single(ClickAction(binding))
    ensures binding.Single? ==> DemoteToSingle(UpgradeToGesture(binding), fallback) == binding
  {}

  /** Every direction of a filled gesture is bound, as the user bound it or else by default; other shapes stay. */
  lemma FilledExactly(binding: Binding, direction: GestureDirection)
    ensures binding.Gesture? ==>
              && FillGestureDefaults(binding).Gesture?
              && direction in FillGestureDefaults(binding).arms
              && FillGestureDefaults(binding).arms[direction]
                 == if direction in binding.arms then binding.arms[direction] else DefaultGestureBinding(direction)
    ensures !binding.Gesture? ==> FillGestureDefaults(binding) == binding
  {
    assert direction in DIRECTIONS;
  }

  /** What a stored binding contributes to the projection of its button. */
  function Projected(binding: Binding, button: ButtonId): Action {
    ClickAction(WithDefaultClick(binding, button))
  }

  lemma SameProjection(stored: map<ButtonId, Binding>, button: ButtonId, binding: Binding)
    requires button in stored && Projected(binding, button) == Projected(stored[button], button)
    ensures BindingsFor(stored[button := binding]) == BindingsFor(stored)
  {
    assert stored[button := binding].Keys == stored.Keys;
  }

  /** Whichever shape a button is turned into, its projected single action stays. */
  lemma ShapeKeepsTheProjection(stored: map<ButtonId, Binding>, button: ButtonId)
    requires button in stored
    ensures BindingsFor(stored[button := DemoteToSingle(stored[button], DefaultBinding(button))]) == BindingsFor(stored)
    ensures BindingsFor(stored[button := UpgradeToGesture(stored[button])]) == BindingsFor(stored)
  {
    SameProjection(stored, button, DemoteToSingle(stored[button], DefaultBinding(button)));
    SameProjection(stored, button, UpgradeToGesture(stored[button]));
  }
}
