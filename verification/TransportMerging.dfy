/** What becomes of the settings of entries that the key migration brings together. */
module TransportMerging {
  import opened Configs
  import opened DeviceConfigs
  import opened DeviceParts
  import opened Fold
  import opened StringOrder
  import opened TransportMigration
  import opened Wrappers

  /** Keys to be renamed, none of them nested. */
  predicate Renaming(left: set<string>) {
    forall k <- left :: Renameable(k) && !Nested(k)
  }

  lemma RenamesAreRenaming(config: Config)
    requires NoneNested(Mentioned(config))
    ensures Renaming(Moves(config))
  {}

  // ---------------------------------------------------------------------
  // In force on the route they were set for
  // ---------------------------------------------------------------------

  /** What was set before is in force as it was. */
  predicate StillInForce(was: Effective, now: Effective) {
    && (was.dpi.Some? ==> now.dpi == was.dpi)
    && (was.scrollResolution.Some? ==> now.scrollResolution == was.scrollResolution)
    && (was.lighting.Some? ==> now.lighting == was.lighting)
    && (was.smartshift.Some? ==> now.smartshift == was.smartshift)
    && (was.invertScroll ==> now.invertScroll)
  }

  /** Files as old as these have no link overrides. */
  predicate NoOverrides(devices: Devices) {
    forall k, route :: k in devices && route in devices[k].links ==>
      LinkOf(devices[k], route).overrides == NO_OVERRIDES
  }

  /** No override on a route that is still to be folded, where it could meet that route's entry. */
  predicate Clean(devices: Devices, left: set<string>)
    requires Renaming(left)
  {
    forall k, j :: k in devices && j in left && (k in left || k == NewKey(j)) ==>
      LinkOf(devices[k], RouteOf(j)).overrides == NO_OVERRIDES
  }

  /** Different keys with one new key differ in their routes. */
  lemma RoutesDiffer(x: string, y: string)
    requires Renameable(x) && Renameable(y) && x != y && NewKey(x) == NewKey(y)
    ensures RouteOf(x) != RouteOf(y)
  {
    KeyParts(x);
    KeyParts(y);
  }

  lemma MoveKeepsClean(devices: Devices, left: set<string>)
    requires Renaming(left) && left != {} && Clean(devices, left)
    ensures Clean(Moved(devices, Least(left)), left - {Least(left)})
  {
    var first := Least(left);
    var rest, moved := left - {first}, Moved(devices, first);
    forall k, j | k in moved && j in rest && (k in rest || k == NewKey(j))
      ensures LinkOf(moved[k], RouteOf(j)).overrides == NO_OVERRIDES
    {
      if first in devices && k == NewKey(first) {
        assert Nested(first) || k == NewKey(j);
        RoutesDiffer(first, j);
        MergedLink(devices, first, RouteOf(j));
      }
    }
  }

  /** Moving an entry leaves the links of the other routes as either entry had them. */
  lemma MergedLink(devices: Devices, first: string, other: string)
    requires Renameable(first) && first in devices && other != RouteOf(first)
    ensures var now := LinkOf(Moved(devices, first)[NewKey(first)], other);
            || now == LinkOf(devices[first], other)
            || (NewKey(first) in devices && now == LinkOf(devices[NewKey(first)], other))
  {}

  lemma FoldKeepsInForce(device: DeviceConfig, legacy: DeviceConfig, route: string, other: string, was: Effective)
    requires other in device.links && other != route && StillInForce(was, EffectiveOn(device, other))
    ensures other in Folded(device, legacy, route).links
    ensures StillInForce(was, EffectiveOn(Folded(device, legacy, route), other))
  {
    IndexedRoutesUndisturbed(device, legacy, route, other);
    FilledIsInForce(EffectiveOn(Folded(device, legacy, route), other), EffectiveOn(device, other), legacy, was);
  }

  lemma FilledIsInForce(kept: Effective, before: Effective, filler: DeviceConfig, was: Effective)
    requires FillsGaps(kept, before, filler) && StillInForce(was, before)
    ensures StillInForce(was, kept)
  {}

  lemma MoveKeepsInForce(devices: Devices, first: string, key: string, route: string, was: Effective)
    requires Renameable(first) && first != key && key in devices && route in devices[key].links
    requires NewKey(first) == key ==> RouteOf(first) != route
    requires StillInForce(was, EffectiveOn(devices[key], route))
    ensures var moved := Moved(devices, first);
            key in moved && route in moved[key].links && StillInForce(was, EffectiveOn(moved[key], route))
  {
    if first in devices && NewKey(first) == key {
      FoldKeepsInForce(devices[key], Indexed(devices[first], RouteOf(first)), RouteOf(first), route, was);
    }
  }

  /** What is in force on an indexed route stays so while entries of other routes are folded in. */
  lemma {:induction false} StaysInForce(
      devices: Devices, left: set<string>, key: string, route: string, was: Effective)
    requires Renaming(left) && key in devices && key !in left && route in devices[key].links
    requires forall j <- left :: NewKey(j) == key ==> RouteOf(j) != route
    requires StillInForce(was, EffectiveOn(devices[key], route))
    ensures key in AllMoved(devices, left) && StillInForce(was, EffectiveOn(AllMoved(devices, left)[key], route))
    decreases |left|
  {
    if left != {} {
      var first := Least(left);
      var moved := Moved(devices, first);
      MoveKeepsInForce(devices, first, key, route, was);
      StaysInForce(moved, left - {first}, key, route, was);
    }
  }

  /** An entry's values are in force on its own route once it is moved. */
  lemma InForceOnceMoved(devices: Devices, left: set<string>, key: string)
    requires Renaming(left) && Clean(devices, left) && key in left && key in devices
    ensures var now := Moved(devices, key)[NewKey(key)];
            && RouteOf(key) in now.links
            && StillInForce(EffectiveOn(devices[key], RouteOf(key)), EffectiveOn(now, RouteOf(key)))
  {
    var route := RouteOf(key);
    var device := Indexed(devices[key], route);
    IndexingKeepsValues(devices[key], route, route);
    assert LinkOf(devices[key], route).overrides == NO_OVERRIDES;
    if NewKey(key) in devices {
      assert LinkOf(devices[NewKey(key)], route).overrides == NO_OVERRIDES;
      LegacyValuesOnTheFoldedRouteExactly(devices[NewKey(key)], device, route);
    }
  }

  lemma {:induction false} ArrivesInForce(devices: Devices, left: set<string>, key: string)
    requires Renaming(left) && Clean(devices, left) && key in left && key in devices
    ensures NewKey(key) in AllMoved(devices, left)
    ensures StillInForce(
              EffectiveOn(devices[key], RouteOf(key)),
              EffectiveOn(AllMoved(devices, left)[NewKey(key)], RouteOf(key)))
    decreases |left|
  {
    var first := Least(left);
    var rest, moved := left - {first}, Moved(devices, first);
    if first == key {
      InForceOnceMoved(devices, left, key);
      forall j | j in rest && NewKey(j) == NewKey(key) ensures RouteOf(j) != RouteOf(key) {
        RoutesDiffer(j, key);
      }
      StaysInForce(moved, rest, NewKey(key), RouteOf(key), EffectiveOn(devices[key], RouteOf(key)));
    } else {
      MoveKeepsClean(devices, left);
      ArrivesInForce(moved, rest, key);
    }
  }

  /**
   Whatever entries meet under a new key, each one's values stay in force on the
   route they were set for.
   */
  lemma MergedEntriesStayInForce(config: Config, key: string)
    requires NoneNested(Mentioned(config)) && NoOverrides(config.devices)
    requires key in config.devices && Renameable(key)
    ensures NewKey(key) in Migrated(config).devices
    ensures StillInForce(
              EffectiveOn(config.devices[key], RouteOf(key)),
              EffectiveOn(Migrated(config).devices[NewKey(key)], RouteOf(key)))
  {
    RenamesAreRenaming(config);
    assert Clean(config.devices, Moves(config));
    ArrivesInForce(config.devices, Moves(config), key);
  }

  /** And so do the values of the entry they meet, on every route it indexed and none of them came from. */
  lemma CanonicalEntryStaysInForce(config: Config, key: string, route: string)
    requires NoneNested(Mentioned(config)) && key in config.devices && !Renameable(key)
    requires route in config.devices[key].links
    requires forall j <- Moves(config) :: NewKey(j) == key ==> RouteOf(j) != route
    ensures key in Migrated(config).devices
    ensures StillInForce(
              EffectiveOn(config.devices[key], route), EffectiveOn(Migrated(config).devices[key], route))
  {
    RenamesAreRenaming(config);
    StaysInForce(config.devices, Moves(config), key, route, EffectiveOn(config.devices[key], route));
  }

  // ---------------------------------------------------------------------
  // Which entry a part is taken from
  // ---------------------------------------------------------------------

  /** Of two entries that end at `key`, the one there from the start goes first, then the smaller key. */
  predicate Precedes(x: string, y: string, key: string) { x == key || (y != key && Leq(x, y)) }

  /** Of the entries that end where this one does, none that sets the part precedes it. */
  predicate SetsFirst(devices: Devices, left: set<string>, key: string, part: Part)
    requires forall k <- left :: Renameable(k)
  {
    && key in devices && Has(devices[key], part)
    && forall k <- devices :: End(k, left) == End(key, left) && Has(devices[k], part) ==>
         Precedes(key, k, End(key, left))
  }

  lemma EndIsNext(key: string, left: set<string>)
    requires Renaming(left)
    ensures End(key, left) == if key in left then NewKey(key) else key
  {}

  lemma SameAsItself(device: DeviceConfig, part: Part)
    ensures Same(device, device, part)
  {}

  /** The move takes the part over from the entry that sets it first. */
  lemma FirstSetterMoves(devices: Devices, left: set<string>, key: string, part: Part)
    requires Renaming(left) && left != {} && SetsFirst(devices, left, key, part)
    ensures var now := Stepped(key, Least(left));
            && now in Moved(devices, Least(left))
            && Same(Moved(devices, Least(left))[now], devices[key], part)
  {
    var first := Least(left);
    EndIsNext(first, left);
    if key == first {
      EndIsNext(NewKey(first), left);
      assert NewKey(first) in devices && Has(devices[NewKey(first)], part) ==>
          Precedes(key, NewKey(first), NewKey(first));
      var was := MovedEntryPart(devices, first, part);
    } else if first in devices && NewKey(first) == key {
      var was := MovedEntryPart(devices, first, part);
    } else {
      SameAsItself(devices[key], part);
    }
  }

  lemma StepKeepsPrecedes(left: set<string>, key: string, was: string)
    requires Renaming(left) && left != {} && Precedes(key, was, End(key, left))
    ensures Precedes(Stepped(key, Least(left)), Stepped(was, Least(left)), End(key, left))
  {
    var first := Least(left);
    EndIsNext(key, left);
    if key != End(key, left) && key != first && was == first {
      Antisymmetric(key, first);
    }
  }

  lemma FirstSetterStaysFirst(devices: Devices, left: set<string>, key: string, part: Part)
    requires Renaming(left) && left != {} && SetsFirst(devices, left, key, part)
    ensures SetsFirst(Moved(devices, Least(left)), left - {Least(left)}, Stepped(key, Least(left)), part)
  {
    var first := Least(left);
    var rest, moved, now := left - {first}, Moved(devices, first), Stepped(key, first);
    FirstSetterMoves(devices, left, key, part);
    SameHas(moved[now], devices[key], part);
    EndStep(key, left);
    forall k | k in moved && End(k, rest) == End(now, rest) && Has(moved[k], part)
      ensures Precedes(now, k, End(now, rest))
    {
      SetterWas(devices, left, key, part, k);
    }
  }

  lemma SetterWas(devices: Devices, left: set<string>, key: string, part: Part, k: string)
    requires Renaming(left) && left != {} && SetsFirst(devices, left, key, part)
    requires k in Moved(devices, Least(left)) && Has(Moved(devices, Least(left))[k], part)
    requires End(k, left - {Least(left)}) == End(key, left)
    ensures Precedes(Stepped(key, Least(left)), k, End(key, left))
  {
    var first := Least(left);
    var was := MovedPart(devices, first, k, part);
    SameHas(Moved(devices, first)[k], devices[was], part);
    EndStep(was, left);
    StepKeepsPrecedes(left, key, was);
  }

  lemma {:induction false} FirstSetterArrives(devices: Devices, left: set<string>, key: string, part: Part)
    requires Renaming(left) && SetsFirst(devices, left, key, part)
    ensures End(key, left) in AllMoved(devices, left)
    ensures Same(AllMoved(devices, left)[End(key, left)], devices[key], part)
    decreases |left|
  {
    if left != {} {
      var first := Least(left);
      var rest, moved, now := left - {first}, Moved(devices, first), Stepped(key, first);
      FirstSetterMoves(devices, left, key, part);
      FirstSetterStaysFirst(devices, left, key, part);
      FirstSetterArrives(moved, rest, now, part);
      EndStep(key, left);
      SameIsTransitive(AllMoved(moved, rest)[End(now, rest)], moved[now], devices[key], part);
    }
  }

  /**
   Where entries meet, each part is the one of the entry that was there from the
   start, or else of the smallest key that sets it.
   */
  lemma FirstSetterWins(config: Config, key: string, part: Part)
    requires NoneNested(Mentioned(config)) && SetsFirst(config.devices, Moves(config), key, part)
    ensures var end := End(key, Moves(config));
            && end in Migrated(config).devices
            && Same(Migrated(config).devices[end], WithRenamedTargets(config.devices[key], Renames(config)), part)
  {
    RenamesAreRenaming(config);
    FirstSetterArrives(config.devices, Moves(config), key, part);
    RenamingIsAlike(
      AllMoved(config.devices, Moves(config))[End(key, Moves(config))], config.devices[key], Renames(config), part);
  }

  lemma RenamingIsAlike(x: DeviceConfig, y: DeviceConfig, rename: map<string, string>, part: Part)
    requires Same(x, y, part)
    ensures Same(WithRenamedTargets(x, rename), WithRenamedTargets(y, rename), part)
  {}
}
