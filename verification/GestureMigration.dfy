/** Giving up the one gesture button per device: every button's shape says what it does. */
module GestureMigration {
  import opened Bindings
  import opened DeviceConfigs
  import opened Walks
  import opened Wrappers

  type Stored = map<ButtonId, Binding>

  predicate GesturesApart(bindings: Stored, button: ButtonId) {
    button in bindings && !button.GestureButton? && bindings[button].Gesture?
  }

  /** The first button other than the dedicated one, in declaration order from `i`, that is stored as a gesture. */
  function FirstGesture(bindings: Stored, i: nat): (found: Option<ButtonId>)
    ensures found.Some? ==> GesturesApart(bindings, found.value)
    decreases |DECLARED| - i
  {
    if i >= |DECLARED| then None
    else if GesturesApart(bindings, DECLARED[i]) then Some(DECLARED[i])
    else FirstGesture(bindings, i + 1)
  }

  /** Whose gestures the owner-locked runtime dispatched, when the file does not say. */
  function InferredOwner(bindings: Stored): Option<ButtonId> {
    if FirstGesture(bindings, 0).Some? then FirstGesture(bindings, 0)
    else if GestureButton in bindings && !bindings[GestureButton].Gesture? then None
    else Some(GestureButton)
  }

  method InferGestureOwner(bindings: Stored) returns (owner: Option<ButtonId>)
    ensures owner == InferredOwner(bindings)
  {
    for i := 0 to |DECLARED|
      invariant FirstGesture(bindings, 0) == FirstGesture(bindings, i)
    {
      if GesturesApart(bindings, DECLARED[i]) {
        return Some(DECLARED[i]);
      }
    }
    if GestureButton in bindings && (bindings[GestureButton].Single? || bindings[GestureButton].LongPress?) {
      return None;
    }
    owner := Some(GestureButton);
  }

  /** No button declared at or after `i` and before the one found is stored as a gesture. */
  lemma {:induction false} FirstGestureIsFirst(bindings: Stored, i: nat, k: nat)
    requires i <= k < |DECLARED| && GesturesApart(bindings, DECLARED[k])
    ensures exists j :: i <= j <= k && FirstGesture(bindings, i) == Some(DECLARED[j])
    decreases |DECLARED| - i
  {
    if GesturesApart(bindings, DECLARED[i]) {
      assert FirstGesture(bindings, i) == Some(DECLARED[i]);
    } else {
      FirstGestureIsFirst(bindings, i + 1, k);
    }
  }

  function Owner(device: DeviceConfig): Option<ButtonId> {
    match device.gestureOwner
    case Some(Off) => None
    case Some(Button(id)) => Some(id)
    case None => InferredOwner(device.bindings)
  }

  // ---------------------------------------------------------------------
  // The rewritten shapes
  // ---------------------------------------------------------------------

  /** The stored buttons, the haptic panel when it owns, and the dedicated button when it does not. */
  function RewrittenKeys(bindings: Stored, owner: Option<ButtonId>): set<ButtonId> {
    bindings.Keys
    + (if owner == Some(HapticPanel) then {HapticPanel} else {})
    + (if owner != Some(GestureButton) then {GestureButton} else {})
  }

  function RewrittenAt(bindings: Stored, owner: Option<ButtonId>, b: ButtonId): Binding {
    if owner == Some(b) then
      if b in bindings && (bindings[b].Gesture? || !IsHidppGestureSource(b)) then bindings[b]
      else Gesture(DEFAULT_GESTURES)
    else if b in bindings then DemoteToSingle(bindings[b], DefaultBinding(b))
    else Single(DefaultBinding(b))
  }

  function Rewritten(bindings: Stored, owner: Option<ButtonId>): Stored {
    map b | b in RewrittenKeys(bindings, owner) :: RewrittenAt(bindings, owner, b)
  }

  /** The maps of everyone who gestured without owning. */
  function Stashed(bindings: Stored, owner: Option<ButtonId>): map<ButtonId, GestureMap> {
    map b | b in bindings && Some(b) != owner && bindings[b].Gesture? :: bindings[b].arms
  }

  /** One device after `migrate_owner_locked_gestures`. */
  function Migrated(device: DeviceConfig): DeviceConfig {
    var owner := Owner(device);
    device.(
      gestureOwner := None,
      bindings := Rewritten(device.bindings, owner),
      disabledGestures := device.disabledGestures + Stashed(device.bindings, owner))
  }

  /** What a stored button keeps in its own right. */
  function Demotion(stored: Stored, owner: Option<ButtonId>, b: ButtonId): Binding
    requires b in stored
  {
    if Some(b) != owner then DemoteToSingle(stored[b], DefaultBinding(b)) else stored[b]
  }

  /** Everyone but the owner demoted. */
  function Demoted(stored: Stored, owner: Option<ButtonId>): Stored {
    map b | b in stored :: Demotion(stored, owner, b)
  }

  /** Everyone but the owner demoted and stashed. */
  method DemoteOthers(stored: Stored, stash: map<ButtonId, GestureMap>, owner: Option<ButtonId>)
    returns (bindings: Stored, disabled: map<ButtonId, GestureMap>)
    ensures bindings == Demoted(stored, owner)
    ensures disabled == stash + Stashed(stored, owner)
  {
    ghost var demoted, stashed := Demoted(stored, owner), Stashed(stored, owner);
    Begins(stored, demoted);
    bindings, disabled := stored, stash;
    var left := stored.Keys;
    while left != {}
      invariant left <= stored.Keys
      invariant bindings == Midway(stored, demoted, left)
      invariant disabled == stash + (stashed - left)
    {
      var id :| id in left;
      GoesOn(stored, demoted, left, id);
      StashStep(stash, stashed, left, id);
      if Some(id) != owner {
        disabled := StashOne(disabled, id, bindings[id]);
        bindings := bindings[id := DemoteToSingle(bindings[id], DefaultBinding(id))];
      } else {
        assert bindings[id := bindings[id]] == bindings;
      }
      left := left - {id};
    }
    Finishes(stored, demoted);
  }

  lemma StashStep(
      stash: map<ButtonId, GestureMap>, stashed: map<ButtonId, GestureMap>, left: set<ButtonId>, id: ButtonId)
    requires id in left
    ensures stash + (stashed - (left - {id}))
            == if id in stashed then (stash + (stashed - left))[id := stashed[id]] else stash + (stashed - left)
  {}

  /** Keep a gesture's map aside. */
  method StashOne(stash: map<ButtonId, GestureMap>, id: ButtonId, binding: Binding)
    returns (disabled: map<ButtonId, GestureMap>)
    ensures disabled == if binding.Gesture? then stash[id := binding.arms] else stash
  {
    disabled := stash;
    if binding.Gesture? {
      disabled := disabled[id := binding.arms];
    }
  }

  /** The owner seeded and the dedicated button pinned, where that is called for. */
  method SettleRoles(demoted: Stored, owner: Option<ButtonId>) returns (bindings: Stored)
    ensures bindings.Keys == RewrittenKeys(demoted, owner)
    ensures forall b <- bindings ::
              bindings[b] == if owner == Some(b) || b !in demoted then RewrittenAt(demoted, owner, b) else demoted[b]
  {
    bindings := demoted;
    if owner.Some? && IsHidppGestureSource(owner.value) {
      if owner.value in bindings {
        if !bindings[owner.value].Gesture? {
          bindings := bindings[owner.value := Gesture(DEFAULT_GESTURES)];
        }
      } else if !DefaultBindingFor(owner.value).Gesture? {
        bindings := bindings[owner.value := Gesture(DEFAULT_GESTURES)];
      }
    }
    if owner != Some(GestureButton) && GestureButton !in bindings {
      bindings := bindings[GestureButton := Single(DefaultBinding(GestureButton))];
    }
  }

  lemma SettledIsRewritten(stored: Stored, owner: Option<ButtonId>, bindings: Stored)
    requires bindings.Keys == RewrittenKeys(stored, owner)
    requires var demoted := Demoted(stored, owner);
             forall b <- bindings ::
               bindings[b] == if owner == Some(b) || b !in demoted then RewrittenAt(demoted, owner, b) else demoted[b]
    ensures bindings == Rewritten(stored, owner)
  {}

  method MigrateDevice(stored: DeviceConfig) returns (device: DeviceConfig)
    ensures device == Migrated(stored)
  {
    var owner: Option<ButtonId>;
    match stored.gestureOwner {
      case Some(Off) => owner := None;
      case Some(Button(id)) => owner := Some(id);
      case None => owner := InferGestureOwner(stored.bindings);
    }
    var bindings, disabled := DemoteOthers(stored.bindings, stored.disabledGestures, owner);
    bindings := SettleRoles(bindings, owner);
    SettledIsRewritten(stored.bindings, owner, bindings);
    device := stored.(gestureOwner := None, bindings := bindings, disabledGestures := disabled);
  }

  // ---------------------------------------------------------------------
  // Gesture mode after the migration
  // ---------------------------------------------------------------------

  /** The binding a button has or falls back to. */
  function BindingOf(bindings: Stored, button: ButtonId): Binding {
    if button in bindings then bindings[button] else DefaultBindingFor(button)
  }

  /** Gesture mode is read from the stored shape, or from the default's. */
  predicate IsGestureMode(bindings: Stored, button: ButtonId) { BindingOf(bindings, button).Gesture? }

  predicate StoresGesture(bindings: Stored, button: ButtonId) { button in bindings && bindings[button].Gesture? }

  lemma RewrittenModes(bindings: Stored, owner: Option<ButtonId>, b: ButtonId)
    ensures IsGestureMode(Rewritten(bindings, owner), b)
            <==> owner == Some(b) && (IsHidppGestureSource(b) || StoresGesture(bindings, b))
    ensures owner == Some(b) && StoresGesture(bindings, b) ==>
              b in Rewritten(bindings, owner) && Rewritten(bindings, owner)[b] == bindings[b]
    ensures owner == Some(b) && IsHidppGestureSource(b) && !StoresGesture(bindings, b) ==>
              BindingOf(Rewritten(bindings, owner), b) == Gesture(DEFAULT_GESTURES)
  {}

  /**
   A button gestures after the migration exactly when it owned the role and
   either is a HID++ source or stores a gesture.
   */
  lemma OnlyTheOwnerGesturesExactly(device: DeviceConfig, button: ButtonId)
    ensures IsGestureMode(Migrated(device).bindings, button)
            <==> && Owner(device) == Some(button)
                 && (IsHidppGestureSource(button) || StoresGesture(device.bindings, button))
  {
    RewrittenModes(device.bindings, Owner(device), button);
  }

  lemma EveryButtonIsDeclared(b: ButtonId)
    ensures b in DECLARED
  {
    assert DECLARED[9] == GestureButton && DECLARED[19] == HapticPanel;
    match b
    case LeftClick => assert DECLARED[0] == b;
    case RightClick => assert DECLARED[1] == b;
    case MiddleClick => assert DECLARED[2] == b;
    case Back => assert DECLARED[3] == b;
    case Forward => assert DECLARED[4] == b;
    case DpiToggle => assert DECLARED[5] == b;
    case Thumbwheel => assert DECLARED[6] == b;
    case ThumbwheelScrollUp => assert DECLARED[7] == b;
    case ThumbwheelScrollDown => assert DECLARED[8] == b;
    case GestureButton =>
    case KeySearch => assert DECLARED[10] == b;
    case KeyDictation => assert DECLARED[11] == b;
    case KeyEmoji => assert DECLARED[12] == b;
    case KeyScreenCapture => assert DECLARED[13] == b;
    case KeyMicMute => assert DECLARED[14] == b;
    case KeyPlayPause => assert DECLARED[15] == b;
    case KeyMute => assert DECLARED[16] == b;
    case KeyVolumeDown => assert DECLARED[17] == b;
    case KeyVolumeUp => assert DECLARED[18] == b;
    case HapticPanel =>
    case WheelTiltLeft => assert DECLARED[20] == b;
    case WheelTiltRight => assert DECLARED[21] == b;
  }

  /** A recorded choice decides: off means that nobody gestures, and a button that nobody else does. */
  lemma RecordedOwnerDecides(device: DeviceConfig, owner: ButtonId, button: ButtonId)
    ensures device.gestureOwner == Some(Off) ==> !IsGestureMode(Migrated(device).bindings, button)
    ensures device.gestureOwner == Some(Button(owner)) ==>
              (IsGestureMode(Migrated(device).bindings, button)
               <==> button == owner && (IsHidppGestureSource(button) || StoresGesture(device.bindings, button)))
  {
    RewrittenModes(device.bindings, Owner(device), button);
  }

  /**
   Without one the first declared button that stores a gesture, other than the
   dedicated one, is the only one to gesture; when there is none the dedicated
   button is, unless it stores another shape.
   */
  lemma UnrecordedOwnerIsTheFirst(device: DeviceConfig, k: nat, button: ButtonId)
    requires device.gestureOwner.None?
    ensures k < |DECLARED| && GesturesApart(device.bindings, DECLARED[k])
            && (forall j :: 0 <= j < k ==> !GesturesApart(device.bindings, DECLARED[j])) ==>
              (IsGestureMode(Migrated(device).bindings, button) <==> button == DECLARED[k])
    ensures (forall b: ButtonId :: !GesturesApart(device.bindings, b)) ==>
              (IsGestureMode(Migrated(device).bindings, button)
               <==> button.GestureButton?
                    && !(GestureButton in device.bindings && !device.bindings[GestureButton].Gesture?))
  {
    RewrittenModes(device.bindings, Owner(device), button);
    if k < |DECLARED| && GesturesApart(device.bindings, DECLARED[k]) {
      FirstGestureIsFirst(device.bindings, 0, k);
    }
  }

  /** The migration records nobody as the owner, and keeps everything but the shapes and the stash. */
  lemma OnlyShapesAndStashChange(device: DeviceConfig)
    ensures Migrated(device).gestureOwner.None?
    ensures Migrated(device).(
              gestureOwner := device.gestureOwner, bindings := device.bindings,
              disabledGestures := device.disabledGestures) == device
  {}

  lemma StashedAt(bindings: Stored, stash: map<ButtonId, GestureMap>, owner: Option<ButtonId>, b: ButtonId)
    ensures var after, taken := stash + Stashed(bindings, owner), StoresGesture(bindings, b) && owner != Some(b);
            && (b in after <==> b in stash || taken)
            && (taken ==> after[b] == bindings[b].arms)
            && (b in stash && !taken ==> after[b] == stash[b])
  {}

  /** The stash gains the maps of those who gestured without owning, and keeps the others. */
  lemma StashExactly(device: DeviceConfig, b: ButtonId)
    ensures var after := Migrated(device).disabledGestures;
            var taken := StoresGesture(device.bindings, b) && Owner(device) != Some(b);
            && (b in after <==> b in device.disabledGestures || taken)
            && (taken ==> after[b] == device.bindings[b].arms)
            && (b in device.disabledGestures && !taken ==> after[b] == device.disabledGestures[b])
  {
    StashedAt(device.bindings, device.disabledGestures, Owner(device), b);
  }

  /**
   What the owner-locked runtime dispatched under an app's overlay: the owner's
   map, seeded when the owner is a HID++ source, and gone when the overlay
   replaces an owner that the OS hook sees.
   */
  function OwnerLockedGestures(
      bindings: Stored, owner: Option<ButtonId>, overlay: map<ButtonId, Action>): map<ButtonId, GestureMap>
  {
    if owner.None? then map[]
    else if IsHidppGestureSource(owner.value) then
      map[owner.value := if StoresGesture(bindings, owner.value)
                         then DEFAULT_GESTURES + bindings[owner.value].arms else DEFAULT_GESTURES]
    else if IsOsHookButton(owner.value) && StoresGesture(bindings, owner.value) && owner.value !in overlay then
      map[owner.value := bindings[owner.value].arms]
    else map[]
  }

  function DispatchedGestures(bindings: Stored, overlay: map<ButtonId, Action>): map<ButtonId, GestureMap> {
    HidppGestureMapsFor(bindings) + OsHookGesturesFor(bindings, overlay)
  }

  /** A button whose gestures reach anyone: HID++ sources always, OS-hook buttons where no overlay replaces them. */
  predicate IsHeard(b: ButtonId, overlay: map<ButtonId, Action>) {
    IsHidppGestureSource(b) || (IsOsHookButton(b) && b !in overlay)
  }

  lemma HidppAt(bindings: Stored, b: ButtonId)
    ensures var maps := HidppGestureMapsFor(bindings);
            && (b in maps <==> IsHidppGestureSource(b) && IsGestureMode(bindings, b))
            && (b in maps ==> maps[b] == DEFAULT_GESTURES + BindingOf(bindings, b).arms)
  {}

  lemma EffectiveAt(bindings: Stored, overlay: map<ButtonId, Action>, b: ButtonId)
    ensures var effective := EffectiveBindings(bindings, overlay);
            && (b in effective <==> b in bindings || b in overlay)
            && (b in overlay ==> effective[b] == Single(overlay[b]))
            && (b in bindings && b !in overlay ==> effective[b] == bindings[b])
  {}

  lemma OsHookAt(bindings: Stored, overlay: map<ButtonId, Action>, b: ButtonId)
    ensures var maps := OsHookGesturesFor(bindings, overlay);
            && (b in maps <==> IsOsHookButton(b) && b !in overlay && StoresGesture(bindings, b))
            && (b in maps ==> maps[b] == bindings[b].arms)
  {
    EffectiveAt(bindings, overlay, b);
  }

  lemma DispatchedAt(bindings: Stored, overlay: map<ButtonId, Action>, b: ButtonId)
    ensures b in DispatchedGestures(bindings, overlay) <==> IsGestureMode(bindings, b) && IsHeard(b, overlay)
    ensures b in DispatchedGestures(bindings, overlay) ==>
              DispatchedGestures(bindings, overlay)[b]
              == if IsHidppGestureSource(b) then DEFAULT_GESTURES + BindingOf(bindings, b).arms
                 else BindingOf(bindings, b).arms
  {
    HidppAt(bindings, b);
    OsHookAt(bindings, overlay, b);
  }

  lemma RewrittenDispatch(bindings: Stored, owner: Option<ButtonId>, overlay: map<ButtonId, Action>)
    ensures DispatchedGestures(Rewritten(bindings, owner), overlay) == OwnerLockedGestures(bindings, owner, overlay)
  {
    var now, locked :=
      DispatchedGestures(Rewritten(bindings, owner), overlay), OwnerLockedGestures(bindings, owner, overlay);
    assert DEFAULT_GESTURES + DEFAULT_GESTURES == DEFAULT_GESTURES;
    forall b: ButtonId
      ensures b in now <==> b in locked
      ensures b in locked ==> now[b] == locked[b]
    {
      DispatchedAt(Rewritten(bindings, owner), overlay, b);
      RewrittenModes(bindings, owner, b);
    }
  }

  /** Under every app overlay the migrated shapes dispatch the very gestures the owner lock did. */
  lemma SameGesturesDispatched(device: DeviceConfig, overlay: map<ButtonId, Action>)
    ensures DispatchedGestures(Migrated(device).bindings, overlay)
            == OwnerLockedGestures(device.bindings, Owner(device), overlay)
  {
    RewrittenDispatch(device.bindings, Owner(device), overlay);
  }

  // ---------------------------------------------------------------------
  // Single actions after the migration
  // ---------------------------------------------------------------------

  /** A HID++ owner whose stored shape, or missing one, gives way to the seeded map. */
  predicate GivesWay(bindings: Stored, owner: Option<ButtonId>, b: ButtonId) {
    && owner == Some(b)
    && IsHidppGestureSource(b)
    && (if b in bindings then !bindings[b].Gesture? else b.HapticPanel?)
  }

  function ProjectedUnder(bindings: Stored, overlay: map<ButtonId, Action>): map<ButtonId, Action> {
    BindingsFor(EffectiveBindings(bindings, overlay))
  }

  /** One button of the projection. */
  function ProjectedAt(bindings: Stored, overlay: map<ButtonId, Action>, b: ButtonId): Action {
    if b in overlay then overlay[b]
    else if b in bindings then Projected(bindings[b], b)
    else DefaultBinding(b)
  }

  lemma ProjectionByButton(bindings: Stored, overlay: map<ButtonId, Action>)
    ensures ProjectedUnder(bindings, overlay).Keys == SEEDED + bindings.Keys + overlay.Keys
    ensures forall b <- ProjectedUnder(bindings, overlay) ::
              ProjectedUnder(bindings, overlay)[b] == ProjectedAt(bindings, overlay, b)
  {}

  lemma DemotionProjects(binding: Binding, b: ButtonId)
    ensures Projected(DemoteToSingle(binding, DefaultBinding(b)), b) == Projected(binding, b)
  {}

  lemma SeededProjects(b: ButtonId)
    ensures Projected(Gesture(DEFAULT_GESTURES), b) == AppExpose
  {}

  lemma RewrittenProjects(bindings: Stored, owner: Option<ButtonId>, b: ButtonId)
    ensures var rewritten := Rewritten(bindings, owner);
            (if b in rewritten then Projected(rewritten[b], b) else DefaultBinding(b))
            == if GivesWay(bindings, owner, b) then AppExpose
               else if b in bindings then Projected(bindings[b], b)
               else DefaultBinding(b)
  {
    SeededProjects(b);
    if b in bindings {
      DemotionProjects(bindings[b], b);
    }
  }

  lemma SingleActionAt(bindings: Stored, owner: Option<ButtonId>, overlay: map<ButtonId, Action>, b: ButtonId)
    ensures ProjectedAt(Rewritten(bindings, owner), overlay, b)
            == if b !in overlay && GivesWay(bindings, owner, b) then AppExpose else ProjectedAt(bindings, overlay, b)
  {
    RewrittenProjects(bindings, owner, b);
  }

  /**
   Under every app overlay each button's single action is what it was, except a
   HID++ owner that did not store a gesture: it now clicks as the seeded map does.
   */
  lemma SameSingleActions(device: DeviceConfig, overlay: map<ButtonId, Action>)
    ensures var before := ProjectedUnder(device.bindings, overlay);
            var after := ProjectedUnder(Migrated(device).bindings, overlay);
            && after.Keys == before.Keys
            && forall b <- before ::
                 after[b]
                 == if b !in overlay && GivesWay(device.bindings, Owner(device), b) then AppExpose else before[b]
  {
    var owner := Owner(device);
    var rewritten := Rewritten(device.bindings, owner);
    ProjectionByButton(device.bindings, overlay);
    ProjectionByButton(rewritten, overlay);
    SeededCoversNewKeys(device.bindings, owner);
    forall b | b in ProjectedUnder(device.bindings, overlay)
      ensures ProjectedUnder(rewritten, overlay)[b]
              == if b !in overlay && GivesWay(device.bindings, owner, b) then AppExpose
                 else ProjectedUnder(device.bindings, overlay)[b]
    {
      SingleActionAt(device.bindings, owner, overlay, b);
    }
  }

  lemma SeededCoversNewKeys(bindings: Stored, owner: Option<ButtonId>)
    ensures SEEDED + Rewritten(bindings, owner).Keys == SEEDED + bindings.Keys
  {}

  // ---------------------------------------------------------------------
  // Turning gesture mode off and on again
  // ---------------------------------------------------------------------

  /** A device's live bindings and its stash of maps turned off. */
  datatype Modes = Modes(bindings: Stored, stash: map<ButtonId, GestureMap>)

  function ModesOf(device: DeviceConfig): Modes { Modes(device.bindings, device.disabledGestures) }

  /** What turning on binds: the stashed map, or a promoted shape with every direction bound. */
  function PromotedBinding(modes: Modes, button: ButtonId): Binding {
    if button in modes.stash then Gesture(modes.stash[button])
    else FillGestureDefaults(UpgradeToGesture(BindingOf(modes.bindings, button)))
  }

  /** `set_gesture_mode` on. */
  function TurnedOn(modes: Modes, button: ButtonId): Modes {
    Modes(modes.bindings[button := PromotedBinding(modes, button)], modes.stash - {button})
  }

  /** What turning off binds: the map's click, or the plain default of a button that gestured by default. */
  function DemotedBinding(bindings: Stored, button: ButtonId): Binding {
    if button in bindings then DemoteToSingle(bindings[button], DefaultBinding(button))
    else Single(DefaultBinding(button))
  }

  /** `set_gesture_mode` off: stash the live map and keep its click. */
  function TurnedOff(modes: Modes, button: ButtonId): Modes {
    if IsGestureMode(modes.bindings, button) then
      Modes(
        modes.bindings[button := DemotedBinding(modes.bindings, button)],
        modes.stash[button := BindingOf(modes.bindings, button).arms])
    else modes
  }

  function Switched(modes: Modes, button: ButtonId, enabled: bool): Modes {
    if enabled then TurnedOn(modes, button) else TurnedOff(modes, button)
  }

  method Switch(modes: Modes, button: ButtonId, enabled: bool) returns (switched: Modes)
    ensures switched == Switched(modes, button, enabled)
  {
    if enabled {
      switched := SwitchOn(modes, button);
    } else {
      switched := SwitchOff(modes, button);
    }
  }

  method SwitchOn(modes: Modes, button: ButtonId) returns (switched: Modes)
    ensures switched == TurnedOn(modes, button)
  {
    var bindings, stash := modes.bindings, modes.stash;
    if button in stash {
      bindings := bindings[button := Gesture(stash[button])];
      stash := stash - {button};
    } else {
      var binding := if button in bindings then bindings[button] else DefaultBindingFor(button);
      binding := BuildFilledGesture(UpgradeToGesture(binding));
      bindings := bindings[button := binding];
      assert stash - {button} == stash;
    }
    switched := Modes(bindings, stash);
  }

  method SwitchOff(modes: Modes, button: ButtonId) returns (switched: Modes)
    ensures switched == TurnedOff(modes, button)
  {
    var bindings, stash := modes.bindings, modes.stash;
    if button in bindings {
      if bindings[button].Gesture? {
        stash := stash[button := bindings[button].arms];
      } else {
        assert bindings[button := bindings[button]] == bindings;
      }
      bindings := bindings[button := DemoteToSingle(bindings[button], DefaultBinding(button))];
    } else if DefaultBindingFor(button).Gesture? {
      stash := stash[button := DEFAULT_GESTURES];
      bindings := bindings[button := Single(DefaultBinding(button))];
    }
    switched := Modes(bindings, stash);
  }

  lemma OthersKeepTheirs(bindings: Stored, button: ButtonId, binding: Binding, other: ButtonId)
    requires other != button
    ensures BindingOf(bindings[button := binding], other) == BindingOf(bindings, other)
  {}

  lemma PromotedIsGesture(modes: Modes, button: ButtonId)
    ensures PromotedBinding(modes, button).Gesture?
  {}

  lemma DemotedIsNoGesture(bindings: Stored, button: ButtonId)
    ensures !DemotedBinding(bindings, button).Gesture?
  {}

  /** Turning on always puts a button in gesture mode, turning off always takes it out, and no other button is met. */
  lemma ModeIsWhatWasSet(modes: Modes, button: ButtonId, other: ButtonId)
    ensures IsGestureMode(TurnedOn(modes, button).bindings, button)
    ensures !IsGestureMode(TurnedOff(modes, button).bindings, button)
    ensures other != button ==>
              && BindingOf(TurnedOn(modes, button).bindings, other) == BindingOf(modes.bindings, other)
              && BindingOf(TurnedOff(modes, button).bindings, other) == BindingOf(modes.bindings, other)
  {
    PromotedIsGesture(modes, button);
    DemotedIsNoGesture(modes.bindings, button);
    if other != button {
      OthersKeepTheirs(modes.bindings, button, PromotedBinding(modes, button), other);
      OthersKeepTheirs(modes.bindings, button, DemotedBinding(modes.bindings, button), other);
    }
  }

  /** Turning on a stashed button hands its map back; turning on a plain one keeps what a click did. */
  lemma TurningOnExactly(modes: Modes, button: ButtonId, other: ButtonId)
    ensures var after := TurnedOn(modes, button);
            && button in after.bindings && button !in after.stash
            && (button in modes.stash ==> after.bindings[button] == Gesture(modes.stash[button]))
            && (button !in modes.stash && !IsGestureMode(modes.bindings, button) ==>
                  && after.bindings[button].Gesture?
                  && after.bindings[button].arms.Keys == DIRECTIONS
                  && after.bindings[button].arms[Click] == ClickAction(BindingOf(modes.bindings, button)))
            && (other != button ==>
                  && (other in after.stash <==> other in modes.stash)
                  && (other in modes.stash ==> after.stash[other] == modes.stash[other]))
  {
    var upgraded := UpgradeToGesture(BindingOf(modes.bindings, button));
    FilledExactly(upgraded, Click);
    forall d ensures upgraded.Gesture? ==> d in FillGestureDefaults(upgraded).arms {
      FilledExactly(upgraded, d);
    }
  }

  /** Turning off a gesturing button keeps its click and stashes its map; turning off another changes nothing. */
  lemma TurningOffExactly(modes: Modes, button: ButtonId, other: ButtonId)
    ensures var after := TurnedOff(modes, button);
            && (!IsGestureMode(modes.bindings, button) ==> after == modes)
            && (IsGestureMode(modes.bindings, button) ==>
                  && button in after.bindings && button in after.stash
                  && after.stash[button] == BindingOf(modes.bindings, button).arms
                  && after.bindings[button]
                     == (if StoresGesture(modes.bindings, button) && Click in modes.bindings[button].arms
                         then Single(modes.bindings[button].arms[Click]) else Single(DefaultBinding(button))))
            && (other != button ==>
                  && (other in after.stash <==> other in modes.stash)
                  && (other in modes.stash ==> after.stash[other] == modes.stash[other]))
  {}

  /** Off and on again hands back a gesturing button's map exactly. */
  lemma OffAndOnRestores(modes: Modes, button: ButtonId)
    requires IsGestureMode(modes.bindings, button)
    ensures TurnedOn(TurnedOff(modes, button), button)
            == Modes(modes.bindings[button := BindingOf(modes.bindings, button)], modes.stash - {button})
  {
    var off := TurnedOff(modes, button);
    var arms := BindingOf(modes.bindings, button).arms;
    assert off.stash == modes.stash[button := arms];
    assert off.stash - {button} == modes.stash - {button};
    assert off.bindings[button := Gesture(arms)] == modes.bindings[button := Gesture(arms)];
  }

  lemma RewrittenRestores(bindings: Stored, stash: map<ButtonId, GestureMap>, owner: Option<ButtonId>, b: ButtonId)
    requires StoresGesture(bindings, b) && owner != Some(b)
    ensures var modes := Modes(Rewritten(bindings, owner), stash + Stashed(bindings, owner));
            && !IsGestureMode(modes.bindings, b)
            && TurnedOn(modes, b).bindings[b] == bindings[b]
  {
    RewrittenModes(bindings, owner, b);
    assert b in Stashed(bindings, owner);
  }

  /** A map the migration demoted comes back exactly when its button is turned on. */
  lemma DemotedMapsComeBack(device: DeviceConfig, button: ButtonId)
    requires StoresGesture(device.bindings, button) && Owner(device) != Some(button)
    ensures !IsGestureMode(Migrated(device).bindings, button)
    ensures TurnedOn(ModesOf(Migrated(device)), button).bindings[button] == device.bindings[button]
  {
    RewrittenRestores(device.bindings, device.disabledGestures, Owner(device), button);
  }
}
