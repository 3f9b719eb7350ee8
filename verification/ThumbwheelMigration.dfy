/** Keeping an explicit copy of the old thumb-wheel defaults native once the defaults are swapped. */
module ThumbwheelMigration {
  import opened Bindings
  import opened DeviceConfigs
  import opened Walks
  import opened Wrappers

  type Stored = map<ButtonId, Binding>
  type Overlay = map<ButtonId, Action>

  /** The two directions the wheel turns in. */
  datatype Half = Upward | Downward

  function ButtonOf(half: Half): ButtonId { if half.Upward? then ThumbwheelScrollUp else ThumbwheelScrollDown }
  function OldDefault(half: Half): Action { if half.Upward? then HorizontalScrollRight else HorizontalScrollLeft }

  /** The swapped default is the one a fresh device has now. */
  function NewDefault(half: Half): Action { DefaultBinding(ButtonOf(half)) }

  /** What a half does in a profile: its own override, else the device's binding, else the default. */
  function EffectiveHalf(bindings: Stored, overlay: Overlay, half: Half, fallback: Action): Binding {
    if ButtonOf(half) in overlay then Single(overlay[ButtonOf(half)])
    else if ButtonOf(half) in bindings then bindings[ButtonOf(half)]
    else Single(fallback)
  }

  /** The profile's pair under the old defaults. */
  function OldPair(bindings: Stored, overlay: Overlay): (Binding, Binding) {
    (EffectiveHalf(bindings, overlay, Upward, OldDefault(Upward)),
     EffectiveHalf(bindings, overlay, Downward, OldDefault(Downward)))
  }

  /** The profile's pair under the new defaults. */
  function NewPair(bindings: Stored, overlay: Overlay): (Binding, Binding) {
    (EffectiveHalf(bindings, overlay, Upward, NewDefault(Upward)),
     EffectiveHalf(bindings, overlay, Downward, NewDefault(Downward)))
  }

  const WAS_NATIVE: (Binding, Binding) := (Single(HorizontalScrollRight), Single(HorizontalScrollLeft))
  const IS_NATIVE: (Binding, Binding) := (Single(HorizontalScrollLeft), Single(HorizontalScrollRight))

  predicate Overrides(overlay: Overlay) { ThumbwheelScrollUp in overlay || ThumbwheelScrollDown in overlay }

  function MigratedOverlay(bindings: Stored, overlay: Overlay): Overlay {
    if Overrides(overlay) && OldPair(bindings, overlay) == WAS_NATIVE then
      overlay[ThumbwheelScrollUp := HorizontalScrollLeft][ThumbwheelScrollDown := HorizontalScrollRight]
    else overlay
  }

  function MigratedBindings(bindings: Stored): Stored {
    if OldPair(bindings, map[]) == WAS_NATIVE then
      map b | b in bindings ::
        if b == ThumbwheelScrollUp then Single(HorizontalScrollLeft)
        else if b == ThumbwheelScrollDown then Single(HorizontalScrollRight)
        else bindings[b]
    else bindings
  }

  /** One device after `migrate_thumbwheel_native_direction`. */
  function Migrated(device: DeviceConfig): DeviceConfig {
    device.(
      bindings := MigratedBindings(device.bindings),
      perAppBindings :=
        map app | app in device.perAppBindings :: MigratedOverlay(device.bindings, device.perAppBindings[app]))
  }

  predicate IsOldDefault(binding: Option<Binding>, before: Action) {
    match binding
    case None => true
    case Some(Single(action)) => action == before
    case Some(_) => false
  }

  function Lookup<K, V>(m: map<K, V>, key: K): Option<V> { if key in m then Some(m[key]) else None }

  method MigrateDevice(stored: DeviceConfig) returns (device: DeviceConfig)
    ensures device == Migrated(stored)
  {
    device := stored;
    var upIsOld := IsOldDefault(Lookup(stored.bindings, ThumbwheelScrollUp), HorizontalScrollRight);
    var downIsOld := IsOldDefault(Lookup(stored.bindings, ThumbwheelScrollDown), HorizontalScrollLeft);

    ghost var migrated := Migrated(stored).perAppBindings;
    Begins(stored.perAppBindings, migrated);
    var overlays := stored.perAppBindings;
    var left := overlays.Keys;
    while left != {}
      invariant left <= stored.perAppBindings.Keys
      invariant overlays == Midway(stored.perAppBindings, migrated, left)
    {
      var app :| app in left;
      GoesOn(stored.perAppBindings, migrated, left, app);
      var overlay := MigrateOverlay(stored.bindings, overlays[app], upIsOld, downIsOld);
      overlays := overlays[app := overlay];
      left := left - {app};
    }
    Finishes(stored.perAppBindings, migrated);

    var bindings := MigrateGlobal(stored.bindings, upIsOld, downIsOld);
    device := stored.(bindings := bindings, perAppBindings := overlays);
  }

  method MigrateGlobal(stored: Stored, upIsOld: bool, downIsOld: bool) returns (bindings: Stored)
    requires upIsOld == IsOldDefault(Lookup(stored, ThumbwheelScrollUp), HorizontalScrollRight)
    requires downIsOld == IsOldDefault(Lookup(stored, ThumbwheelScrollDown), HorizontalScrollLeft)
    ensures bindings == MigratedBindings(stored)
  {
    bindings := stored;
    if upIsOld && downIsOld {
      if ThumbwheelScrollUp in bindings && bindings[ThumbwheelScrollUp].Single? {
        bindings := bindings[ThumbwheelScrollUp := Single(HorizontalScrollLeft)];
      }
      if ThumbwheelScrollDown in bindings && bindings[ThumbwheelScrollDown].Single? {
        bindings := bindings[ThumbwheelScrollDown := Single(HorizontalScrollRight)];
      }
    }
    assert bindings == MigratedBindings(stored);
  }

  method MigrateOverlay(bindings: Stored, overlay: Overlay, upIsOld: bool, downIsOld: bool)
    returns (migrated: Overlay)
    requires upIsOld == IsOldDefault(Lookup(bindings, ThumbwheelScrollUp), HorizontalScrollRight)
    requires downIsOld == IsOldDefault(Lookup(bindings, ThumbwheelScrollDown), HorizontalScrollLeft)
    ensures migrated == MigratedOverlay(bindings, overlay)
  {
    migrated := overlay;
    var overridesDirection := ThumbwheelScrollUp in overlay || ThumbwheelScrollDown in overlay;
    var effectiveUpIsOld :=
      if ThumbwheelScrollUp in overlay then overlay[ThumbwheelScrollUp] == HorizontalScrollRight else upIsOld;
    var effectiveDownIsOld :=
      if ThumbwheelScrollDown in overlay then overlay[ThumbwheelScrollDown] == HorizontalScrollLeft else downIsOld;
    if overridesDirection && effectiveUpIsOld && effectiveDownIsOld {
      migrated := migrated[ThumbwheelScrollUp := HorizontalScrollLeft];
      migrated := migrated[ThumbwheelScrollDown := HorizontalScrollRight];
    }
  }

  // ---------------------------------------------------------------------
  // What a profile does afterwards
  // ---------------------------------------------------------------------

  /** The pair of a migrated profile under the new defaults; the empty overlay stands for the device itself. */
  function PairAfter(bindings: Stored, overlay: Overlay): (Binding, Binding) {
    NewPair(MigratedBindings(bindings), MigratedOverlay(bindings, overlay))
  }

  /** A profile whose pair was native stays native. */
  lemma NativeStaysNative(bindings: Stored, overlay: Overlay)
    requires OldPair(bindings, overlay) == WAS_NATIVE
    ensures PairAfter(bindings, overlay) == IS_NATIVE
  {
    if !Overrides(overlay) {
      assert OldPair(bindings, map[]) == OldPair(bindings, overlay);
    }
  }

  /** A half the migration cannot reach: overridden in the profile, or stored in a device pair that was not native. */
  predicate Settled(bindings: Stored, overlay: Overlay, half: Half) {
    || ButtonOf(half) in overlay
    || (ButtonOf(half) in bindings && OldPair(bindings, map[]) != WAS_NATIVE)
  }

  lemma HalfAfter(bindings: Stored, overlay: Overlay, half: Half)
    requires OldPair(bindings, overlay) != WAS_NATIVE
    ensures EffectiveHalf(MigratedBindings(bindings), overlay, half, NewDefault(half))
            == EffectiveHalf(bindings, overlay, half, OldDefault(half))
            <==> Settled(bindings, overlay, half)
  {}

  /**
   A profile whose pair was not native keeps its pair exactly when each half is
   its own override or is stored in a device pair that was not native itself;
   a half inherited from a rewritten pair, or from the defaults, is swapped.
   */
  lemma CustomPairsKeptExactly(bindings: Stored, overlay: Overlay)
    requires OldPair(bindings, overlay) != WAS_NATIVE
    ensures PairAfter(bindings, overlay) == OldPair(bindings, overlay)
            <==> Settled(bindings, overlay, Upward) && Settled(bindings, overlay, Downward)
  {
    HalfAfter(bindings, overlay, Upward);
    HalfAfter(bindings, overlay, Downward);
  }

  /** A profile that overrides one half of a native pair has its other half reversed. */
  lemma InheritedHalfIsReversed()
    ensures var bindings: Stored := map[];
            var overlay: Overlay := map[ThumbwheelScrollUp := Other(7)];
            && OldPair(bindings, overlay) == (Single(Other(7)), Single(HorizontalScrollLeft))
            && PairAfter(bindings, overlay) == (Single(Other(7)), Single(HorizontalScrollRight))
  {}

  /** A stored device pair that was not native is left as it was, and so is everything but the wheel. */
  lemma UnrelatedIsUntouched(device: DeviceConfig)
    ensures OldPair(device.bindings, map[]) != WAS_NATIVE ==> Migrated(device).bindings == device.bindings
    ensures Migrated(device).bindings.Keys == device.bindings.Keys
    ensures forall b <- device.bindings ::
              b != ThumbwheelScrollUp && b != ThumbwheelScrollDown ==>
                Migrated(device).bindings[b] == device.bindings[b]
  {}

  /** Overlays keep every other button, and devices everything but the two maps. */
  lemma OnlyTheWheelChanges(device: DeviceConfig, app: string, b: ButtonId)
    ensures Migrated(device).(bindings := device.bindings, perAppBindings := device.perAppBindings) == device
    ensures Migrated(device).perAppBindings.Keys == device.perAppBindings.Keys
    ensures app in device.perAppBindings && b != ThumbwheelScrollUp && b != ThumbwheelScrollDown ==>
              var before, after := device.perAppBindings[app], Migrated(device).perAppBindings[app];
              && (b in after <==> b in before)
              && (b in before ==> after[b] == before[b])
    ensures app in device.perAppBindings
            && ThumbwheelScrollUp !in device.perAppBindings[app]
            && ThumbwheelScrollDown !in device.perAppBindings[app] ==>
              Migrated(device).perAppBindings[app] == device.perAppBindings[app]
  {}

  lemma OverlayTwice(bindings: Stored, overlay: Overlay)
    ensures MigratedOverlay(MigratedBindings(bindings), MigratedOverlay(bindings, overlay))
            == MigratedOverlay(bindings, overlay)
  {}

  lemma BindingsTwice(bindings: Stored)
    ensures MigratedBindings(MigratedBindings(bindings)) == MigratedBindings(bindings)
  {}

  /** Migrating again changes nothing. */
  lemma MigratingAgainIsIdle(device: DeviceConfig)
    ensures Migrated(Migrated(device)) == Migrated(device)
  {
    BindingsTwice(device.bindings);
    forall app | app in device.perAppBindings
      ensures Migrated(Migrated(device)).perAppBindings[app] == Migrated(device).perAppBindings[app]
    {
      OverlayTwice(device.bindings, device.perAppBindings[app]);
    }
    assert Migrated(Migrated(device)).perAppBindings == Migrated(device).perAppBindings;
  }
}
