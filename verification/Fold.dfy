/** Merging the entry of an old key into the entry of the device it turned out to be. */
module Fold {
  import opened Bindings
  import opened DeviceConfigs
  import opened Wrappers

  /** The override a field leaves on the folded link: both set and different parks the legacy value there. */
  function FoldedOverride<T(==)>(ours: Option<T>, theirs: Option<T>, override: Option<T>): Option<T> {
    if ours.Some? && theirs.Some? && ours != theirs then theirs else override
  }

  /** The merged links, before the folded one is touched: the canonical entry's win. */
  function JoinedLinks(device: DeviceConfig, legacy: DeviceConfig): map<string, LinkConfig> {
    legacy.links + device.links
  }

  function JoinedLink(device: DeviceConfig, legacy: DeviceConfig, route: string): LinkConfig {
    if route in device.links then device.links[route] else LinkOf(legacy, route)
  }

  function FoldedLink(device: DeviceConfig, legacy: DeviceConfig, link: LinkConfig): LinkConfig {
    LinkConfig(
      link.capabilities.Or(if legacy.identity.Some? then Some(legacy.identity.value.capabilities) else None),
      LinkOverrides(
        dpi := FoldedOverride(device.dpi, legacy.dpi, link.overrides.dpi),
        invertScroll :=
          if legacy.invertScroll && !device.invertScroll then Some(true) else link.overrides.invertScroll,
        scrollResolution :=
          FoldedOverride(device.scrollResolution, legacy.scrollResolution, link.overrides.scrollResolution),
        lighting := FoldedOverride(device.lighting, legacy.lighting, link.overrides.lighting),
        smartshift := FoldedOverride(device.smartshift, legacy.smartshift, link.overrides.smartshift)))
  }

  /** The whole merged entry. */
  function Folded(device: DeviceConfig, legacy: DeviceConfig, route: string): DeviceConfig {
    DeviceConfig(
      enabled := device.enabled && legacy.enabled,
      customName := device.customName.Or(legacy.customName),
      gestureOwner := device.gestureOwner,
      identity := device.identity.Or(legacy.identity),
      links := JoinedLinks(device, legacy)[route := FoldedLink(device, legacy, JoinedLink(device, legacy, route))],
      bindings := legacy.bindings + device.bindings,
      disabledGestures := legacy.disabledGestures + device.disabledGestures,
      perAppBindings := legacy.perAppBindings + device.perAppBindings,
      actionRing := if device.actionRing == DEFAULT_RING then legacy.actionRing else device.actionRing,
      dpiPresets := if device.dpiPresets == [] then legacy.dpiPresets else device.dpiPresets,
      dpi := device.dpi.Or(legacy.dpi),
      lighting := device.lighting.Or(legacy.lighting),
      light := device.light.Or(legacy.light),
      smartshift := device.smartshift.Or(legacy.smartshift),
      cameraControls := device.cameraControls.Or(legacy.cameraControls),
      cameraProfiles := legacy.cameraProfiles + device.cameraProfiles,
      cameraProfile := device.cameraProfile.Or(legacy.cameraProfile),
      thumbwheelSensitivity := device.thumbwheelSensitivity.Or(legacy.thumbwheelSensitivity),
      invertScroll := device.invertScroll,
      scrollResolution := device.scrollResolution.Or(legacy.scrollResolution),
      hostSwitchTargets :=
        if device.hostSwitchTargets == [] then legacy.hostSwitchTargets else device.hostSwitchTargets,
      fnLock := device.fnLock.Or(legacy.fnLock))
  }

  // ---------------------------------------------------------------------
  // The fold as the program runs it, field by field
  // ---------------------------------------------------------------------

  /** Take each entry of `theirs` whose key `ours` does not have. */
  method FoldMap<K(==), V(==)>(ours: map<K, V>, theirs: map<K, V>) returns (merged: map<K, V>)
    ensures merged == theirs + ours
  {
    merged := ours;
    var left := theirs.Keys;
    while left != {}
      invariant left <= theirs.Keys
      invariant merged.Keys == ours.Keys + (theirs.Keys - left)
      invariant forall k <- merged :: merged[k] == if k in ours then ours[k] else theirs[k]
    {
      var key :| key in left;
      if key !in merged {
        merged := merged[key := theirs[key]];
      }
      left := left - {key};
    }
  }

  /** One field with an override slot: the new device value and the new override. */
  method FoldField<T(==)>(ours: Option<T>, theirs: Option<T>, override: Option<T>)
    returns (value: Option<T>, parked: Option<T>)
    ensures value == ours.Or(theirs)
    ensures parked == FoldedOverride(ours, theirs, override)
  {
    value, parked := ours, override;
    match (ours, theirs)
    case (None, Some(_)) => value := theirs;
    case (Some(x), Some(y)) => if x != y { parked := theirs; }
    case _ =>
  }

  method FoldMaps(device: DeviceConfig, legacy: DeviceConfig) returns (merged: DeviceConfig)
    ensures merged == device.(
      bindings := legacy.bindings + device.bindings,
      disabledGestures := legacy.disabledGestures + device.disabledGestures,
      perAppBindings := legacy.perAppBindings + device.perAppBindings,
      cameraProfiles := legacy.cameraProfiles + device.cameraProfiles)
  {
    var bindings := FoldMap(device.bindings, legacy.bindings);
    var disabled := FoldMap(device.disabledGestures, legacy.disabledGestures);
    var perApp := FoldMap(device.perAppBindings, legacy.perAppBindings);
    var profiles := FoldMap(device.cameraProfiles, legacy.cameraProfiles);
    merged := device.(
      bindings := bindings, disabledGestures := disabled, perAppBindings := perApp, cameraProfiles := profiles);
  }

  /** The link the fold settles on, and the four device values that share a slot with it. */
  method FoldLink(device: DeviceConfig, legacy: DeviceConfig, found: LinkConfig)
    returns (merged: DeviceConfig, link: LinkConfig)
    ensures link == FoldedLink(device, legacy, found)
    ensures merged == device.(
      dpi := device.dpi.Or(legacy.dpi),
      scrollResolution := device.scrollResolution.Or(legacy.scrollResolution),
      lighting := device.lighting.Or(legacy.lighting),
      smartshift := device.smartshift.Or(legacy.smartshift))
  {
    link := found;
    if legacy.identity.Some? && link.capabilities.None? {
      link := link.(capabilities := Some(legacy.identity.value.capabilities));
    }
    var dpi, dpiOverride := FoldField(device.dpi, legacy.dpi, found.overrides.dpi);
    var scroll, scrollOverride :=
      FoldField(device.scrollResolution, legacy.scrollResolution, found.overrides.scrollResolution);
    var lighting, lightingOverride := FoldField(device.lighting, legacy.lighting, found.overrides.lighting);
    var smartshift, smartshiftOverride := FoldField(device.smartshift, legacy.smartshift, found.overrides.smartshift);
    var invertOverride := found.overrides.invertScroll;
    if device.invertScroll != legacy.invertScroll && legacy.invertScroll {
      invertOverride := Some(legacy.invertScroll);
    }
    link := link.(overrides :=
      LinkOverrides(dpiOverride, invertOverride, scrollOverride, lightingOverride, smartshiftOverride));
    merged := device.(dpi := dpi, scrollResolution := scroll, lighting := lighting, smartshift := smartshift);
  }

  /** The values without an override slot: taken only where the canonical entry has none. */
  method FoldUnset(device: DeviceConfig, legacy: DeviceConfig) returns (merged: DeviceConfig)
    ensures merged == device.(
      enabled := device.enabled && legacy.enabled,
      customName := device.customName.Or(legacy.customName),
      identity := device.identity.Or(legacy.identity),
      actionRing := if device.actionRing == DEFAULT_RING then legacy.actionRing else device.actionRing,
      dpiPresets := if device.dpiPresets == [] then legacy.dpiPresets else device.dpiPresets,
      light := device.light.Or(legacy.light),
      cameraControls := device.cameraControls.Or(legacy.cameraControls),
      cameraProfile := device.cameraProfile.Or(legacy.cameraProfile),
      thumbwheelSensitivity := device.thumbwheelSensitivity.Or(legacy.thumbwheelSensitivity),
      hostSwitchTargets :=
        if device.hostSwitchTargets == [] then legacy.hostSwitchTargets else device.hostSwitchTargets,
      fnLock := device.fnLock.Or(legacy.fnLock))
  {
    var identity := if device.identity.None? then legacy.identity else device.identity;
    var presets := if device.dpiPresets == [] then legacy.dpiPresets else device.dpiPresets;
    var targets := if device.hostSwitchTargets == [] then legacy.hostSwitchTargets else device.hostSwitchTargets;
    var ring := if device.actionRing == DEFAULT_RING then legacy.actionRing else device.actionRing;
    var enabled := if device.enabled && !legacy.enabled then false else device.enabled;
    merged := device.(
      light := device.light.Or(legacy.light),
      cameraControls := device.cameraControls.Or(legacy.cameraControls),
      cameraProfile := device.cameraProfile.Or(legacy.cameraProfile),
      thumbwheelSensitivity := device.thumbwheelSensitivity.Or(legacy.thumbwheelSensitivity),
      fnLock := device.fnLock.Or(legacy.fnLock),
      customName := device.customName.Or(legacy.customName),
      identity := identity, dpiPresets := presets, hostSwitchTargets := targets,
      actionRing := ring, enabled := enabled);
  }

  /** `fold`. */
  method FoldInto(canonical: DeviceConfig, legacy: DeviceConfig, route: string) returns (device: DeviceConfig)
    ensures device == Folded(canonical, legacy, route)
  {
    var links := FoldMap(canonical.links, legacy.links);
    device := FoldMaps(canonical, legacy);
    var found := if route in links then links[route] else DEFAULT_LINK;
    var link;
    device, link := FoldLink(device, legacy, found);
    device := FoldUnset(device, legacy);
    device := device.(links := links[route := link]);
  }

  // ---------------------------------------------------------------------
  // What the fold keeps
  // ---------------------------------------------------------------------

  /** `kept` is `was` with every value that was unset taken from `filler`. */
  predicate FillsGaps(kept: Effective, was: Effective, filler: DeviceConfig) {
    && kept.dpi == was.dpi.Or(filler.dpi)
    && kept.scrollResolution == was.scrollResolution.Or(filler.scrollResolution)
    && kept.lighting == was.lighting.Or(filler.lighting)
    && kept.smartshift == was.smartshift.Or(filler.smartshift)
    && kept.invertScroll == was.invertScroll
  }

  /**
   On a route the canonical entry already indexed, other than the folded one,
   everything it set stays in force, and only a value it had left unset
   everywhere is filled in.
   */
  lemma IndexedRoutesUndisturbed(device: DeviceConfig, legacy: DeviceConfig, route: string, other: string)
    requires other in device.links && other != route
    ensures FillsGaps(EffectiveOn(Folded(device, legacy, route), other), EffectiveOn(device, other), legacy)
  {}

  /** An override stood in the way on the folded route: set already, to something else, and not replaced. */
  predicate Shadowed<T(==)>(ours: Option<T>, theirs: Option<T>, override: Option<T>) {
    && override.Some?
    && override != theirs
    && !(ours.Some? && ours != theirs)
  }

  /** A field the legacy entry set is in force as `now` exactly when nothing shadowed it. */
  predicate KeptUnlessShadowed<T(==)>(now: Option<T>, ours: Option<T>, theirs: Option<T>, override: Option<T>) {
    theirs.Some? ==> (now == theirs <==> !Shadowed(ours, theirs, override))
  }

  lemma FieldOnFoldedRoute<T>(ours: Option<T>, theirs: Option<T>, override: Option<T>)
    ensures KeptUnlessShadowed(FoldedOverride(ours, theirs, override).Or(ours.Or(theirs)), ours, theirs, override)
  {}

  /**
   On the folded route the legacy value of each field stays in force exactly
   when no override there shadows it; a route nobody indexed shadows nothing. An
   inversion that is on stays on unless an override the device outvoted turned it
   off; one that is off decides nothing.
   */
  lemma LegacyValuesOnTheFoldedRouteExactly(device: DeviceConfig, legacy: DeviceConfig, route: string)
    ensures var now := EffectiveOn(Folded(device, legacy, route), route);
            var before := JoinedLink(device, legacy, route).overrides;
            && KeptUnlessShadowed(now.dpi, device.dpi, legacy.dpi, before.dpi)
            && KeptUnlessShadowed(
                 now.scrollResolution, device.scrollResolution, legacy.scrollResolution, before.scrollResolution)
            && KeptUnlessShadowed(now.lighting, device.lighting, legacy.lighting, before.lighting)
            && KeptUnlessShadowed(now.smartshift, device.smartshift, legacy.smartshift, before.smartshift)
            && (legacy.invertScroll ==>
                  (now.invertScroll <==> !(device.invertScroll && before.invertScroll == Some(false))))
            && (!legacy.invertScroll ==> now.invertScroll == before.invertScroll.GetOr(device.invertScroll))
  {
    var before := JoinedLink(device, legacy, route).overrides;
    FieldOnFoldedRoute(device.dpi, legacy.dpi, before.dpi);
    FieldOnFoldedRoute(device.scrollResolution, legacy.scrollResolution, before.scrollResolution);
    FieldOnFoldedRoute(device.lighting, legacy.lighting, before.lighting);
    FieldOnFoldedRoute(device.smartshift, legacy.smartshift, before.smartshift);
  }

  /** What the canonical default hides of a link that came along: both set, different, and not overridden. */
  predicate Displaced<T(==)>(ours: Option<T>, theirs: Option<T>, override: Option<T>) {
    override.None? && ours.Some? && ours != theirs
  }

  /**
   A route the legacy entry brings along, other than the folded one, behaves as
   it did exactly when no field is displaced by the canonical default.
   */
  lemma BroughtRoutesExactly(device: DeviceConfig, legacy: DeviceConfig, route: string, other: string)
    requires other in legacy.links && other !in device.links && other != route
    ensures var overrides := legacy.links[other].overrides;
            EffectiveOn(Folded(device, legacy, route), other) == EffectiveOn(legacy, other)
            <==> && !Displaced(device.dpi, legacy.dpi, overrides.dpi)
                 && !Displaced(device.scrollResolution, legacy.scrollResolution, overrides.scrollResolution)
                 && !Displaced(device.lighting, legacy.lighting, overrides.lighting)
                 && !Displaced(device.smartshift, legacy.smartshift, overrides.smartshift)
                 && (overrides.invertScroll.Some? || device.invertScroll == legacy.invertScroll)
  {
    assert LinkOf(Folded(device, legacy, route), other) == legacy.links[other];
  }

  /** A cable's 1600 becomes the 800 of the entry it is folded into on another route. */
  lemma CanonicalDpiDisplaces()
    ensures var device := DEFAULT_DEVICE.(dpi := Some(800));
            var legacy := DEFAULT_DEVICE.(dpi := Some(1600), links := map["usb" := DEFAULT_LINK]);
            && EffectiveOn(legacy, "usb").dpi == Some(1600)
            && EffectiveOn(Folded(device, legacy, "bluetooth"), "usb").dpi == Some(800)
  {
    var device := DEFAULT_DEVICE.(dpi := Some(800));
    var legacy := DEFAULT_DEVICE.(dpi := Some(1600), links := map["usb" := DEFAULT_LINK]);
    assert "usb"[0] != "bluetooth"[0];
    assert LinkOf(Folded(device, legacy, "bluetooth"), "usb") == DEFAULT_LINK;
  }

  /** No key is lost by the fold, no canonical entry is touched, and the folded route is indexed. */
  lemma NothingIsDropped(device: DeviceConfig, legacy: DeviceConfig, route: string)
    ensures var folded := Folded(device, legacy, route);
            && folded.links.Keys == device.links.Keys + legacy.links.Keys + {route}
            && folded.bindings.Keys == device.bindings.Keys + legacy.bindings.Keys
            && folded.disabledGestures.Keys == device.disabledGestures.Keys + legacy.disabledGestures.Keys
            && folded.perAppBindings.Keys == device.perAppBindings.Keys + legacy.perAppBindings.Keys
            && folded.cameraProfiles.Keys == device.cameraProfiles.Keys + legacy.cameraProfiles.Keys
            && (forall b <- device.bindings :: folded.bindings[b] == device.bindings[b])
            && (forall b <- legacy.bindings :: b !in device.bindings ==> folded.bindings[b] == legacy.bindings[b])
  {}

  /**
   The owner and the inversion of the device default stay the canonical ones,
   and the folded link keeps its own capabilities, or else takes those the legacy
   entry was last known by; every other link stays.
   */
  lemma FoldedLinksExactly(device: DeviceConfig, legacy: DeviceConfig, route: string, other: string)
    ensures var folded := Folded(device, legacy, route);
            && folded.gestureOwner == device.gestureOwner && folded.invertScroll == device.invertScroll
            && route in folded.links
            && folded.links[route].capabilities
               == (if JoinedLink(device, legacy, route).capabilities.Some?
                   then JoinedLink(device, legacy, route).capabilities
                   else if legacy.identity.Some? then Some(legacy.identity.value.capabilities) else None)
            && (other != route && other in device.links ==>
                  other in folded.links && folded.links[other] == device.links[other])
            && (other != route && other in legacy.links && other !in device.links ==>
                  other in folded.links && folded.links[other] == legacy.links[other])
  {}

  lemma OverlayTwice<K, V>(under: map<K, V>, over: map<K, V>)
    ensures under + (under + over) == under + over
  {}

  lemma OverlayOnNothing<K, V>(over: map<K, V>)
    ensures map[] + over == over
  {}

  /** Folding the same entry in again changes nothing. */
  lemma FoldTwice(device: DeviceConfig, legacy: DeviceConfig, route: string)
    ensures var once := Folded(device, legacy, route);
            Folded(once, legacy, route) == once
  {
    OverlayTwice(legacy.bindings, device.bindings);
    OverlayTwice(legacy.disabledGestures, device.disabledGestures);
    OverlayTwice(legacy.perAppBindings, device.perAppBindings);
    OverlayTwice(legacy.cameraProfiles, device.cameraProfiles);
    FoldLinksTwice(device, legacy, route);
  }

  lemma FoldLinksTwice(device: DeviceConfig, legacy: DeviceConfig, route: string)
    ensures var once := Folded(device, legacy, route);
            Folded(once, legacy, route).links == once.links
  {
    var once := Folded(device, legacy, route);
    var link := JoinedLink(device, legacy, route);
    assert once.links[route] == FoldedLink(device, legacy, link);
    assert FoldedLink(once, legacy, once.links[route]) == once.links[route];
    assert JoinedLinks(once, legacy) == once.links;
  }

  /** An entry with nothing but defaults folds in as the index of its route alone. */
  lemma FoldingDefaultsOnlyIndexes(device: DeviceConfig, route: string)
    ensures Folded(device, DEFAULT_DEVICE, route) == device.(links := device.links[route := LinkOf(device, route)])
  {
    OverlayOnNothing(device.links);
    OverlayOnNothing(device.bindings);
    OverlayOnNothing(device.disabledGestures);
    OverlayOnNothing(device.perAppBindings);
    OverlayOnNothing(device.cameraProfiles);
  }

  /** The settings of an entry, without its identity and its links. */
  function Settings(device: DeviceConfig): DeviceConfig { device.(identity := None, links := map[]) }

  /** What of a folded entry lands among the settings: inversion only ever becomes a link override. */
  function Foldable(legacy: DeviceConfig): DeviceConfig { legacy.(invertScroll := false, gestureOwner := None) }

  /** An entry without settings takes over everything the legacy entry had, and behaves like it on the folded route. */
  lemma FoldIntoBare(device: DeviceConfig, legacy: DeviceConfig, route: string)
    requires !HoldsSettings(device)
    ensures Settings(Folded(device, legacy, route)) == Settings(Foldable(legacy))
    ensures JoinedLink(device, legacy, route).overrides == NO_OVERRIDES ==>
              EffectiveOn(Folded(device, legacy, route), route)
              == Effective(legacy.dpi, legacy.invertScroll, legacy.scrollResolution, legacy.lighting, legacy.smartshift)
  {
    assert Settings(device) == DEFAULT_DEVICE;
    assert device.bindings == map[] && device.disabledGestures == map[];
    assert device.perAppBindings == map[] && device.cameraProfiles == map[];
    OntoNothing(legacy.bindings);
    OntoNothing(legacy.disabledGestures);
    OntoNothing(legacy.perAppBindings);
    OntoNothing(legacy.cameraProfiles);
  }

  lemma OntoNothing<K, V>(under: map<K, V>)
    ensures under + map[] == under
  {}
}
