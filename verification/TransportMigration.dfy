/** Renaming the entries that were keyed by device and cable together to the device alone. */
module TransportMigration {
  import opened Configs
  import opened DeviceConfigs
  import opened DeviceKeys
  import opened DeviceParts
  import opened Fold
  import opened Machine
  import opened StringOrder
  import opened Text
  import opened Wrappers

  /** The identity key and the route a direct key splits into. */
  function ParseRename(key: string): Option<(string, string)> {
    match StripPrefix(key, "direct:")
    case None => None
    case Some(rest) =>
      match SplitOnce(rest, ':')
      case None => None
      case Some((vendor, rest)) =>
        match SplitOnce(rest, ':')
        case None => None
        case Some((product, identity)) =>
          if Parses(identity) then Some((identity, "direct:" + vendor + ":" + product)) else None
  }

  predicate Renameable(key: string) { ParseRename(key).Some? }

  function NewKey(key: string): (newKey: string)
    requires Renameable(key)
    ensures |newKey| < |key|
  {
    KeyParts(key);
    ParseRename(key).value.0
  }

  function RouteOf(key: string): string
    requires Renameable(key)
  {
    ParseRename(key).value.1
  }

  lemma Rejoined(vendor: string, product: string, identity: string)
    ensures "direct:" + (vendor + [':'] + (product + [':'] + identity))
            == "direct:" + vendor + ":" + product + ":" + identity
  {}

  /** A renamed key is cut into its route and the rest; nothing of it is lost. */
  lemma KeyParts(key: string)
    requires Renameable(key)
    ensures key == ParseRename(key).value.1 + ":" + ParseRename(key).value.0
  {
    var rest := key[|"direct:"|..];
    var (vendor, after) := SplitOnce(rest, ':').value;
    var (product, identity) := SplitOnce(after, ':').value;
    SplitRejoins(rest, ':');
    SplitRejoins(after, ':');
    Rejoined(vendor, product, identity);
    assert key == "direct:" + rest;
  }

  /** Every key that occurs: as an entry, as the selection or as a host-switch target. */
  function Mentioned(config: Config): set<string> {
    config.devices.Keys
    + (if config.selected.Some? then {config.selected.value} else {})
    + (set k, target | k in config.devices && target in config.devices[k].hostSwitchTargets :: target)
  }

  /** A key is mentioned exactly when it names an entry or something refers to it. */
  lemma MentionedExactly(config: Config, key: string)
    ensures key in Mentioned(config) <==> key in config.devices || Refers(config, key)
  {}

  function Renames(config: Config): map<string, string> {
    map key | key in Mentioned(config) && Renameable(key) :: NewKey(key)
  }

  /** An entry with a route in its link table. */
  function Indexed(device: DeviceConfig, route: string): DeviceConfig {
    device.(links := device.links[route := LinkOf(device, route)])
  }

  /** One entry moved to its new key, folded into what is there. */
  function Moved(devices: Devices, key: string): Devices
    requires Renameable(key)
  {
    if key !in devices then devices
    else
      var device := Indexed(devices[key], RouteOf(key));
      var rest := devices - {key};
      rest[NewKey(key) := if NewKey(key) in rest then Folded(rest[NewKey(key)], device, RouteOf(key)) else device]
  }

  /** Every entry of `left` moved, in key order. */
  function AllMoved(devices: Devices, left: set<string>): Devices
    requires forall k <- left :: Renameable(k)
    decreases |left|
  {
    if left == {} then devices
    else
      var key := Least(left);
      AllMoved(Moved(devices, key), left - {key})
  }

  /** The configuration after `migrate_transport_scoped_keys`. */
  function Migrated(config: Config): Config {
    RenamedReferences(
      config.(devices := AllMoved(config.devices, Renames(config).Keys)), Renames(config))
  }

  // ---------------------------------------------------------------------
  // Where the entries end up
  // ---------------------------------------------------------------------

  /** Where a walk over `left` takes an entry: on through every new key that the walk meets later. */
  function End(key: string, left: set<string>): string
    requires forall k <- left :: Renameable(k)
    decreases |key|
  {
    if key !in left then key
    else
      var next := NewKey(key);
      if next in left && Leq(key, next) then End(next, left) else next
  }

  /** The key an entry has after the first step of the walk. */
  function Stepped(key: string, first: string): string
    requires Renameable(first)
  {
    if key == first then NewKey(first) else key
  }

  lemma {:induction false} EndPassesTheLeast(key: string, left: set<string>)
    requires (forall k <- left :: Renameable(k)) && left != {} && key != Least(left)
    ensures End(key, left - {Least(left)}) == End(key, left)
    decreases |key|
  {
    var first := Least(left);
    if key in left && NewKey(key) in left && Leq(key, NewKey(key)) {
      if NewKey(key) == first {
        Antisymmetric(key, first);
      }
      EndPassesTheLeast(NewKey(key), left);
    }
  }

  /** Taking one step does not change where the walk ends. */
  lemma EndStep(key: string, left: set<string>)
    requires (forall k <- left :: Renameable(k)) && left != {}
    ensures End(Stepped(key, Least(left)), left - {Least(left)}) == End(key, left)
  {
    EndPassesTheLeast(Stepped(key, Least(left)), left);
  }

  lemma {:induction false} KeysAfter(devices: Devices, left: set<string>, key: string)
    requires forall k <- left :: Renameable(k)
    ensures key in AllMoved(devices, left)
            <==> exists k :: k in devices && key == End(k, left)
    decreases |left|
  {
    if left == {} {
      assert forall k :: End(k, left) == k;
    } else {
      var first := Least(left);
      var rest := left - {first};
      var moved := Moved(devices, first);
      KeysAfter(moved, rest, key);
      if k :| k in moved && key == End(k, rest) {
        var was := if k in devices && k != first then k else first;
        EndStep(was, left);
        assert was in devices && key == End(was, left);
      }
      if k :| k in devices && key == End(k, left) {
        EndStep(k, left);
        assert Stepped(k, first) in moved;
      }
    }
  }

  /** Every part `before` sets and every route it indexes is set and indexed in `after`. */
  ghost predicate Carries(before: DeviceConfig, after: DeviceConfig) {
    && (forall part: Part :: Has(before, part) ==> Has(after, part))
    && before.links.Keys <= after.links.Keys
  }

  lemma IndexingKeepsParts(device: DeviceConfig, route: string)
    ensures forall part: Part :: Same(Indexed(device, route), device, part)
    ensures Carries(device, Indexed(device, route))
  {}

  lemma FoldCarriesBoth(device: DeviceConfig, legacy: DeviceConfig, route: string)
    ensures Carries(device, Folded(device, legacy, route))
    ensures Carries(legacy, Folded(device, legacy, route))
  {
    forall part: Part ensures Has(Folded(device, legacy, route), part) <==> Has(device, part) || Has(legacy, part) {
      CanonicalPartWins(device, legacy, route, part);
    }
  }

  lemma MoveCarries(devices: Devices, first: string, key: string)
    requires Renameable(first) && key in devices
    ensures var now := Stepped(key, first);
            && now in Moved(devices, first)
            && Carries(devices[key], Moved(devices, first)[now])
            && (key == first ==> RouteOf(first) in Moved(devices, first)[now].links)
  {
    if first in devices {
      var device := Indexed(devices[first], RouteOf(first));
      IndexingKeepsParts(devices[first], RouteOf(first));
      if NewKey(first) in devices {
        FoldCarriesBoth(devices[NewKey(first)], device, RouteOf(first));
      }
    }
  }

  /** Everything an entry sets arrives with it, and its dropped route is indexed where it arrives. */
  lemma {:induction false} EntriesArrive(devices: Devices, left: set<string>, key: string)
    requires (forall k <- left :: Renameable(k)) && key in devices
    ensures var end := End(key, left);
            && end in AllMoved(devices, left)
            && Carries(devices[key], AllMoved(devices, left)[end])
            && (key in left ==> RouteOf(key) in AllMoved(devices, left)[end].links)
    decreases |left|
  {
    if left != {} {
      var first := Least(left);
      MoveCarries(devices, first, key);
      EndStep(key, left);
      EntriesArrive(Moved(devices, first), left - {first}, Stepped(key, first));
    }
  }

  /** The part of the entry at `key` after a walk is the one this entry had before it. */
  ghost predicate CameFrom(devices: Devices, left: set<string>, key: string, part: Part, was: string)
    requires (forall k <- left :: Renameable(k)) && key in AllMoved(devices, left)
  {
    was in devices && End(was, left) == key && Same(AllMoved(devices, left)[key], devices[was], part)
  }

  lemma IndexedPart(device: DeviceConfig, route: string, part: Part)
    ensures Same(Indexed(device, route), device, part) && Has(Indexed(device, route), part) == Has(device, part)
  {}

  lemma FoldedPart(device: DeviceConfig, legacy: DeviceConfig, route: string, part: Part)
    ensures var folded := Folded(device, Indexed(legacy, route), route);
            Same(folded, if Has(device, part) then device else legacy, part)
  {
    var folded := Folded(device, Indexed(legacy, route), route);
    CanonicalPartWins(device, Indexed(legacy, route), route, part);
    IndexedPart(legacy, route, part);
    if !Has(device, part) {
      SameIsTransitive(folded, Indexed(legacy, route), legacy, part);
    }
  }

  /** The part of the entry that a move leaves at the new key, and whose it was. */
  lemma MovedEntryPart(devices: Devices, first: string, part: Part) returns (was: string)
    requires Renameable(first) && first in devices
    ensures was == if NewKey(first) in devices && Has(devices[NewKey(first)], part) then NewKey(first) else first
    ensures was in devices && Same(Moved(devices, first)[NewKey(first)], devices[was], part)
  {
    var newKey, route := NewKey(first), RouteOf(first);
    was := if newKey in devices && Has(devices[newKey], part) then newKey else first;
    var now := Moved(devices, first)[newKey];
    if newKey in devices {
      assert now == Folded(devices[newKey], Indexed(devices[first], route), route);
      FoldedPart(devices[newKey], devices[first], route, part);
    } else {
      assert now == Indexed(devices[first], route);
      IndexedPart(devices[first], route, part);
    }
  }

  lemma MovedPart(devices: Devices, first: string, key: string, part: Part) returns (was: string)
    requires Renameable(first) && key in Moved(devices, first)
    ensures was in devices && Stepped(was, first) == key && Same(Moved(devices, first)[key], devices[was], part)
  {
    if first in devices && key == NewKey(first) {
      was := MovedEntryPart(devices, first, part);
    } else {
      was := key;
    }
  }

  /** No part of an entry is made up: each is as one of the entries that ended there had it. */
  lemma {:induction false} PartsComeFrom(devices: Devices, left: set<string>, key: string, part: Part)
    requires (forall k <- left :: Renameable(k)) && key in AllMoved(devices, left)
    ensures exists was :: CameFrom(devices, left, key, part, was)
    decreases |left|
  {
    if left == {} {
      assert CameFrom(devices, left, key, part, key);
    } else {
      var first := Least(left);
      var rest, moved := left - {first}, Moved(devices, first);
      PartsComeFrom(moved, rest, key, part);
      var k :| CameFrom(moved, rest, key, part, k);
      var was := MovedPart(devices, first, k, part);
      SameIsTransitive(AllMoved(moved, rest)[key], moved[k], devices[was], part);
      EndStep(was, left);
      assert CameFrom(devices, left, key, part, was);
    }
  }

  /** An entry where no other one ends stays as it was, if it is not renamed itself. */
  lemma {:induction false} BystandersStay(devices: Devices, left: set<string>, key: string)
    requires (forall k <- left :: Renameable(k)) && key in devices && key !in left
    requires forall k <- devices :: k != key ==> End(k, left) != key
    ensures key in AllMoved(devices, left) && AllMoved(devices, left)[key] == devices[key]
    decreases |left|
  {
    if left != {} {
      var first := Least(left);
      var moved := Moved(devices, first);
      assert first in devices ==> NewKey(first) != key by {
        EndStep(first, left);
      }
      forall k | k in moved && k != key ensures End(k, left - {first}) != key {
        EndStep(if k in devices then k else first, left);
        EndPassesTheLeast(k, left);
      }
      BystandersStay(moved, left - {first}, key);
    }
  }

  lemma IndexingKeepsValues(device: DeviceConfig, route: string, other: string)
    ensures EffectiveOn(Indexed(device, route), other) == EffectiveOn(device, other)
  {}

  /** An entry that meets no other on its way keeps everything, and only gains routes in its index. */
  lemma {:induction false} LoneEntriesOnlyMove(devices: Devices, left: set<string>, key: string, route: string)
    requires (forall k <- left :: Renameable(k)) && key in devices
    requires forall k <- devices :: k != key ==> End(k, left) != End(key, left)
    ensures var end := End(key, left);
            && end in AllMoved(devices, left)
            && EffectiveOn(AllMoved(devices, left)[end], route) == EffectiveOn(devices[key], route)
            && AllMoved(devices, left)[end].(links := map[]) == devices[key].(links := map[])
    decreases |left|
  {
    if left != {} {
      var first := Least(left);
      var rest, moved, now := left - {first}, Moved(devices, first), Stepped(key, first);
      EndStep(key, left);
      assert first in devices && first != key ==> NewKey(first) != key by {
        EndStep(first, left);
      }
      assert key == first ==> now !in devices by {
        EndPassesTheLeast(NewKey(first), left);
      }
      forall k | k in moved && k != now ensures End(k, rest) != End(now, rest) {
        EndStep(if k in devices && k != first then k else first, left);
      }
      if key == first {
        IndexingKeepsValues(devices[key], RouteOf(key), route);
      }
      LoneEntriesOnlyMove(moved, rest, now, route);
    }
  }

  // ---------------------------------------------------------------------
  // The whole migration: entries
  // ---------------------------------------------------------------------

  function Moves(config: Config): (left: set<string>)
    ensures forall k <- left :: k in Mentioned(config) && Renameable(k)
  {
    Renames(config).Keys
  }

  /** The keys of the entries afterwards are exactly those where the old ones end. */
  lemma EntriesAfterExactly(config: Config, key: string)
    ensures key in Migrated(config).devices
            <==> exists was :: was in config.devices && key == End(was, Moves(config))
  {
    KeysAfter(config.devices, Moves(config), key);
  }

  /** The new key of this one is mentioned as well, can be renamed in turn, and the walk meets it later. */
  predicate ChasedOn(config: Config, key: string) {
    key in Renames(config) && NewKey(key) in Renames(config) && Leq(key, NewKey(key))
  }

  lemma EndIsRenamed(config: Config, key: string)
    requires key in Mentioned(config)
    ensures !ChasedOn(config, key) ==> End(key, Moves(config)) == Renamed(key, Renames(config))
  {}

  /** Nested in another key: still renameable once unwrapped. */
  predicate Nested(key: string) { Renameable(key) && Renameable(NewKey(key)) }

  /** What is left of a nested key of the old configuration. */
  ghost predicate Unwrapped(config: Config, key: string, was: string) {
    was in Mentioned(config) && Nested(was) && NewKey(was) == key
  }

  lemma {:induction false} EndsUnwrapped(config: Config, key: string)
    requires key in Mentioned(config) && Renameable(End(key, Moves(config)))
    ensures exists was :: Unwrapped(config, End(key, Moves(config)), was)
    decreases |key|
  {
    if ChasedOn(config, key) {
      EndsUnwrapped(config, NewKey(key));
    } else {
      assert Unwrapped(config, End(key, Moves(config)), key);
    }
  }

  /**
   Everything an entry sets is set where it ends up, and so is every route it
   indexed, with the route it was renamed out of. It is named there the way
   references to it are, unless it was chased on.
   */
  lemma EntriesAreFoundUnderTheirNewKeys(config: Config, key: string)
    requires key in config.devices
    ensures var next, end := Migrated(config), End(key, Moves(config));
            && end in next.devices
            && Carries(config.devices[key], next.devices[end])
            && (Renameable(key) ==> RouteOf(key) in next.devices[end].links)
            && (!ChasedOn(config, key) ==> end == Renamed(key, Renames(config)))
            && (config.selected == Some(key) ==> next.selected == Some(Renamed(key, Renames(config))))
  {
    EntriesArrive(config.devices, Moves(config), key);
    RenamingCarries(AllMoved(config.devices, Moves(config))[End(key, Moves(config))], Renames(config));
    EndIsRenamed(config, key);
  }

  lemma RenamingCarries(device: DeviceConfig, rename: map<string, string>)
    ensures Carries(device, WithRenamedTargets(device, rename))
    ensures forall part: Part :: part.HostTargets? || Same(WithRenamedTargets(device, rename), device, part)
  {}

  /** An entry that no other one ends up with behaves on every route as it did; only its links and targets differ. */
  lemma LoneEntriesBehaveTheSame(config: Config, key: string, route: string)
    requires key in config.devices
    requires forall k <- config.devices :: k != key ==> End(k, Moves(config)) != End(key, Moves(config))
    ensures End(key, Moves(config)) in Migrated(config).devices
    ensures var was, after := config.devices[key], Migrated(config).devices[End(key, Moves(config))];
            && EffectiveOn(after, route) == EffectiveOn(was, route)
            && after.(links := map[]) == WithRenamedTargets(was, Renames(config)).(links := map[])
  {
    LoneEntriesOnlyMove(config.devices, Moves(config), key, route);
  }

  // ---------------------------------------------------------------------
  // The whole migration: references
  // ---------------------------------------------------------------------

  /** Something in the old configuration refers to `was`, which is renamed to `key`. */
  ghost predicate ReferredAs(config: Config, key: string, was: string) {
    Refers(config, was) && key == Renamed(was, Renames(config))
  }

  /** The entry at `key` has the target list that the entry at `was` had, renamed. */
  ghost predicate HasTargetsOf(config: Config, key: string, was: string) {
    && was in config.devices && End(was, Moves(config)) == key && key in Migrated(config).devices
    && Migrated(config).devices[key].hostSwitchTargets
       == RenamedTargets(config.devices[was].hostSwitchTargets, Renames(config))
  }

  lemma MigratedEntry(config: Config, left: set<string>, key: string)
    requires left == Moves(config) && key in AllMoved(config.devices, left)
    ensures key in Migrated(config).devices
    ensures Migrated(config).devices[key] == WithRenamedTargets(AllMoved(config.devices, left)[key], Renames(config))
  {}

  lemma SameTargets(x: DeviceConfig, y: DeviceConfig, part: Part)
    requires part.HostTargets? && Same(x, y, part)
    ensures x.hostSwitchTargets == y.hostSwitchTargets
  {}

  /** No target is made up by moving entries: each list is the one of an entry that ended there. */
  lemma TargetsCameFrom(config: Config, key: string)
    requires key in Migrated(config).devices
    ensures exists was :: HasTargetsOf(config, key, was)
  {
    var left := Moves(config);
    PartsComeFrom(config.devices, left, key, HostTargets);
    var was :| CameFrom(config.devices, left, key, HostTargets, was);
    SameTargets(AllMoved(config.devices, left)[key], config.devices[was], HostTargets);
    MigratedEntry(config, left, key);
    assert HasTargetsOf(config, key, was);
  }

  lemma TargetRefers(config: Config, k: string, was: string, key: string)
    requires HasTargetsOf(config, k, was) && key in Migrated(config).devices[k].hostSwitchTargets
    ensures exists origin :: ReferredAs(config, key, origin)
  {
    var targets := config.devices[was].hostSwitchTargets;
    var i :| 0 <= i < |targets| && key == Renamed(targets[i], Renames(config));
    assert targets[i] in targets;
    assert ReferredAs(config, key, targets[i]);
  }

  /** A reference of the migrated configuration is one of the old configuration, renamed. */
  lemma ReferenceAfter(config: Config, key: string)
    requires Refers(Migrated(config), key)
    ensures exists was :: ReferredAs(config, key, was)
  {
    if Migrated(config).selected == Some(key) {
      assert ReferredAs(config, key, config.selected.value);
    } else {
      var k :| k in Migrated(config).devices && key in Migrated(config).devices[k].hostSwitchTargets;
      TargetsCameFrom(config, k);
      var was :| HasTargetsOf(config, k, was);
      TargetRefers(config, k, was, key);
    }
  }

  /** A renameable key that is left anywhere is what a nested key was unwrapped to. */
  lemma OnlyUnwrappedKeysAreLeft(config: Config, key: string)
    requires key in Mentioned(Migrated(config)) && Renameable(key)
    ensures exists was :: Unwrapped(config, key, was)
  {
    if key in Migrated(config).devices {
      EntriesAfterExactly(config, key);
      var k :| k in config.devices && key == End(k, Moves(config));
      EndsUnwrapped(config, k);
    } else {
      MentionedExactly(Migrated(config), key);
      ReferenceAfter(config, key);
      var was :| ReferredAs(config, key, was);
      MentionedExactly(config, was);
      assert Unwrapped(config, key, was);
    }
  }

  /** No key renames to one that could be renamed again. */
  predicate NoneNested(keys: set<string>) {
    forall k <- keys :: !Nested(k)
  }

  /** Without nested keys no renameable key names an entry or is referred to afterwards. */
  lemma NoneIsLeft(config: Config, key: string)
    requires NoneNested(Mentioned(config))
    ensures key in Migrated(config).devices || Refers(Migrated(config), key) ==> !Renameable(key)
  {
    MentionedExactly(Migrated(config), key);
    if key in Mentioned(Migrated(config)) && Renameable(key) {
      OnlyUnwrappedKeysAreLeft(config, key);
    }
  }

  /** A migrated selection can be renamed again exactly when the old one was nested. */
  lemma SelectionIsFinalExactly(config: Config)
    requires config.selected.Some?
    ensures var was := config.selected.value;
            Renameable(Migrated(config).selected.value)
            <==> Nested(was)
  {
    assert config.selected.value in Mentioned(config);
  }

  /** And so can a migrated target. */
  lemma TargetIsFinalExactly(config: Config, key: string, i: nat)
    requires key in config.devices && i < |config.devices[key].hostSwitchTargets|
    ensures var targets := config.devices[key].hostSwitchTargets;
            Renameable(RenamedTargets(targets, Renames(config))[i]) <==> Nested(targets[i])
  {
    var target := config.devices[key].hostSwitchTargets[i];
    assert target in config.devices[key].hostSwitchTargets;
    assert target in Mentioned(config);
  }

  /**
   A reference dangles afterwards only if it dangled before, or if the entry it
   named was chased on past the key the reference was rewritten to.
   */
  lemma NoNewDangling(config: Config, key: string)
    requires Dangles(Migrated(config), key)
    ensures exists was :: ReferredAs(config, key, was) && (Dangles(config, was) || ChasedOn(config, was))
  {
    ReferenceAfter(config, key);
    var was :| ReferredAs(config, key, was);
    if was in config.devices {
      EntriesAreFoundUnderTheirNewKeys(config, was);
    }
  }

  /** The selection of an entry dangles afterwards exactly when the entry was chased on and none ended in its place. */
  lemma SelectionDanglesExactly(config: Config)
    requires config.selected.Some? && config.selected.value in config.devices
    ensures var was, key := config.selected.value, Migrated(config).selected.value;
            Dangles(Migrated(config), key)
            <==> ChasedOn(config, was) && forall k <- config.devices :: End(k, Moves(config)) != key
  {
    EntriesAfterExactly(config, Migrated(config).selected.value);
    EndIsRenamed(config, config.selected.value);
  }

  // ---------------------------------------------------------------------
  // When the migration is idle
  // ---------------------------------------------------------------------

  lemma NothingToMigrate(config: Config)
    requires Renames(config) == map[]
    ensures Migrated(config) == config
  {
    assert AllMoved(config.devices, {}) == config.devices;
    NoTargetToRename(config, config.devices);
  }

  lemma NoTargetToRename(config: Config, devices: Devices)
    requires Renames(config) == map[]
    ensures (map k | k in devices :: WithRenamedTargets(devices[k], Renames(config))) == devices
  {
    forall k | k in devices ensures WithRenamedTargets(devices[k], map[]) == devices[k] {
      NothingToRename(devices[k].hostSwitchTargets, map[]);
    }
  }

  lemma {:induction false} EndIsShorter(key: string, left: set<string>)
    requires (forall k <- left :: Renameable(k)) && key in left
    ensures |End(key, left)| < |key|
    decreases |key|
  {
    if NewKey(key) in left && Leq(key, NewKey(key)) {
      EndIsShorter(NewKey(key), left);
    }
  }

  /** The longest entry that is moved leaves its key behind for good. */
  lemma {:induction false} MovedKeyIsGone(config: Config, key: string)
    requires key in config.devices && Renameable(key)
    ensures Migrated(config).devices.Keys != config.devices.Keys
    decreases |Longer(config, key)|
  {
    if key in Migrated(config).devices {
      EntriesAfterExactly(config, key);
      var k :| k in config.devices && key == End(k, Moves(config));
      assert k in Moves(config);
      EndIsShorter(k, Moves(config));
      assert Longer(config, k) < Longer(config, key) by {
        assert k in Longer(config, key) && k !in Longer(config, k);
      }
      SmallerSet(Longer(config, k), Longer(config, key));
      MovedKeyIsGone(config, k);
    }
  }

  function Longer(config: Config, key: string): set<string> { set k | k in config.devices && |k| > |key| }

  lemma SmallerSet(a: set<string>, b: set<string>)
    requires a < b
    ensures |a| < |b|
  {
    assert b == a + (b - a) && |b - a| > 0;
  }

  lemma RenamedDiffers(config: Config, key: string)
    requires key in Mentioned(config) && Renameable(key)
    ensures Renamed(key, Renames(config)) != key
  {}

  lemma {:induction false} UnmovedEntries(devices: Devices, left: set<string>)
    requires (forall k <- left :: Renameable(k)) && left !! devices.Keys
    ensures AllMoved(devices, left) == devices
    decreases |left|
  {
    if left != {} {
      assert Moved(devices, Least(left)) == devices;
      UnmovedEntries(devices, left - {Least(left)});
    }
  }

  lemma RenameableReferenceMoves(config: Config, key: string)
    requires Refers(config, key) && Renameable(key) && Migrated(config).devices.Keys == config.devices.Keys
    ensures Migrated(config) != config
  {
    RenamedDiffers(config, key);
    forall k | k in Moves(config) ensures k !in config.devices {
      if k in config.devices {
        MovedKeyIsGone(config, k);
      }
    }
    UnmovedEntries(config.devices, Moves(config));
    if config.selected != Some(key) {
      var k :| k in config.devices && key in config.devices[k].hostSwitchTargets;
      var targets := config.devices[k].hostSwitchTargets;
      var i :| 0 <= i < |targets| && targets[i] == key;
      assert RenamedTargets(targets, Renames(config))[i] != targets[i];
      assert Migrated(config).devices[k].hostSwitchTargets == RenamedTargets(targets, Renames(config));
    }
  }

  /** The migration changes nothing exactly when no key that is mentioned can be renamed. */
  lemma IdleExactly(config: Config)
    ensures Migrated(config) == config <==> forall key <- Mentioned(config) :: !Renameable(key)
  {
    if key :| key in Mentioned(config) && Renameable(key) {
      MentionedExactly(config, key);
      if key in config.devices {
        MovedKeyIsGone(config, key);
      } else if Migrated(config).devices.Keys == config.devices.Keys {
        RenameableReferenceMoves(config, key);
      }
    } else {
      assert Renames(config) == map[];
      NothingToMigrate(config);
    }
  }

  /** A second migration changes nothing, if no key was nested. */
  lemma MigratingAgainIsIdle(config: Config)
    ensures Migrated(Migrated(config)) == Migrated(config)
            <==> forall key <- Mentioned(Migrated(config)) :: !Renameable(key)
    ensures NoneNested(Mentioned(config)) ==> Migrated(Migrated(config)) == Migrated(config)
  {
    IdleExactly(Migrated(config));
    forall key | key in Mentioned(Migrated(config)) && NoneNested(Mentioned(config)) ensures !Renameable(key) {
      MentionedExactly(Migrated(config), key);
      NoneIsLeft(config, key);
    }
  }

  // ---------------------------------------------------------------------
  // The keys that were written, and nested ones
  // ---------------------------------------------------------------------

  lemma Unwraps(vendor: string, product: string, identity: string)
    requires ':' !in vendor && ':' !in product && Parses(identity)
    ensures ParseRename("direct:" + (vendor + [':'] + (product + [':'] + identity)))
            == Some((identity, "direct:" + vendor + ":" + product))
    ensures IsHexWord(vendor) && IsHexWord(product) ==>
              DirectIdentityFragment("direct:" + (vendor + [':'] + (product + [':'] + identity))) == Some(identity)
  {
    var key := "direct:" + (vendor + [':'] + (product + [':'] + identity));
    assert key[7..] == vendor + [':'] + (product + [':'] + identity);
    SplitsAtFirst(vendor, ':', product + [':'] + identity);
    SplitsAtFirst(product, ':', identity);
  }

  /** `key` is a direct key: a vendor and a product without colons, and the key of a device after them. */
  predicate IsDirectKey(key: string, vendor: string, product: string, identity: string) {
    && ':' !in vendor && ':' !in product && Parses(identity)
    && key == "direct:" + (vendor + [':'] + (product + [':'] + identity))
  }

  /** A key is renamed exactly when it is a direct key, to the device key in it and out of the route before that. */
  lemma RenamedExactly(key: string)
    ensures Renameable(key) <==> exists vendor, product, identity :: IsDirectKey(key, vendor, product, identity)
    ensures forall vendor, product, identity :: IsDirectKey(key, vendor, product, identity) ==>
              && Renameable(key) && NewKey(key) == identity
              && RouteOf(key) == "direct:" + vendor + ":" + product
  {
    if Renameable(key) {
      CutsDirectKey(key);
    }
    forall vendor, product, identity | IsDirectKey(key, vendor, product, identity)
      ensures ParseRename(key) == Some((identity, "direct:" + vendor + ":" + product))
    {
      Unwraps(vendor, product, identity);
    }
  }

  lemma CutsDirectKey(key: string)
    requires Renameable(key)
    ensures exists vendor, product, identity :: IsDirectKey(key, vendor, product, identity)
  {
    var rest := key[|"direct:"|..];
    var (vendor, after) := SplitOnce(rest, ':').value;
    var (product, identity) := SplitOnce(after, ':').value;
    SplitRejoins(rest, ':');
    SplitRejoins(after, ':');
    SplitsBeforeTheMark(rest, ':');
    SplitsBeforeTheMark(after, ':');
    assert key == "direct:" + rest;
    assert IsDirectKey(key, vendor, product, identity);
  }

  /** A key without a direct fragment inside it is not nested. */
  lemma PlainFragmentsAreNotNested(key: string)
    requires Renameable(key) && !StartsWith(NewKey(key), "direct:")
    ensures !Nested(key)
  {}

  lemma RouteText(vendor: string, product: string)
    ensures "direct:" + vendor + ":" + product == "direct:" + (vendor + [':'] + product)
  {}

  lemma IdentityIsPlain(identity: DeviceIdentity)
    ensures !StartsWith(IdentityKey(identity), "direct:")
  {
    assert IdentityKey(identity)[0] == if identity.Serial? then 's' else 'u';
    assert "direct:"[0] == 'd';
  }

  lemma DirectKeySplits(id: StableId, vendor: string, product: string, identity: string)
    requires id.Direct? && IsPhysical(id.identity)
    requires vendor == Hex4(id.vendor) && product == Hex4(id.product) && identity == IdentityKey(id.identity)
    ensures ParseRename(RuntimeKey(id)) == Some((identity, RouteKey(id)))
  {
    HexWordsHaveNoColon(id.vendor);
    HexWordsHaveNoColon(id.product);
    ConfigKeyParses(id.identity);
    Unwraps(vendor, product, identity);
    RouteText(vendor, product);
  }

  lemma OtherKeysStay(id: StableId)
    requires !id.Direct?
    ensures !Renameable(RuntimeKey(id))
  {
    LeadsTheKey(id);
    assert RuntimeKey(id)[0] == Lead(id)[0] != "direct:"[0];
  }

  /**
   Of the keys the program itself keeps, exactly those of cabled devices are
   renamed, to the key of the identity alone and out of the key of the route,
   and none of them is nested.
   */
  lemma WrittenKeysSplit(id: StableId)
    requires PhysicalKey(id).Some?
    ensures var key := PhysicalKey(id).value;
            && (Renameable(key) <==> id.Direct?)
            && (id.Direct? ==> Some(NewKey(key)) == ConfigKey(id.identity) && RouteOf(key) == RouteKey(id))
            && !Nested(key)
  {
    if id.Direct? {
      DirectKeySplits(id, Hex4(id.vendor), Hex4(id.product), IdentityKey(id.identity));
      IdentityIsPlain(id.identity);
      PlainFragmentsAreNotNested(RuntimeKey(id));
    } else {
      OtherKeysStay(id);
    }
  }

  /** A key wrapped in a route, as a nested one is. */
  function Wrapped(vendor: U16, product: U16, inner: string): string {
    "direct:" + (Hex4(vendor) + [':'] + (Hex4(product) + [':'] + inner))
  }

  lemma WrappedRenames(vendor: U16, product: U16, id: StableId)
    requires id.Direct? && PhysicalKey(id).Some?
    ensures var key := Wrapped(vendor, product, RuntimeKey(id));
            Renameable(key) && NewKey(key) == RuntimeKey(id) && Renameable(RuntimeKey(id))
  {
    HexWordsHaveNoColon(vendor);
    HexWordsHaveNoColon(product);
    PhysicalKeyParsesExactly(id);
    Unwraps(Hex4(vendor), Hex4(product), RuntimeKey(id));
    WrittenKeysSplit(id);
  }

  /** A key nested in another is only unwrapped once: a renameable selection is left behind. */
  lemma NestedKeysAreUnwrappedOnce(vendor: U16, product: U16, id: StableId)
    requires id.Direct? && PhysicalKey(id).Some?
    ensures var config := Config(Some(Wrapped(vendor, product, RuntimeKey(id))), map[]);
            && Migrated(config).selected == PhysicalKey(id)
            && Renameable(PhysicalKey(id).value)
  {
    WrappedRenames(vendor, product, id);
    var config := Config(Some(Wrapped(vendor, product, RuntimeKey(id))), map[]);
    assert config.selected.value in Mentioned(config);
  }

  lemma SmallerProductComesFirst(head: string, vendor: string, x: string, y: string, xs: string, ys: string)
    requires |x| > 0 && |y| > 0 && x[0] < y[0]
    ensures Leq(head + (vendor + [':'] + (x + xs)), head + (vendor + [':'] + (y + ys)))
  {
    var a, b := head + (vendor + [':'] + (x + xs)), head + (vendor + [':'] + (y + ys));
    var i := |head| + |vendor| + 1;
    assert a[..i] == head + (vendor + [':']) == b[..i];
    assert a[i] == x[0] && b[i] == y[0];
    LeqExactly(a, b);
    assert SmallerAt(a, b, i);
  }

  lemma ChasedEntriesEnd(config: Config, chased: string, once: string)
    requires Renameable(chased) && NewKey(chased) == once && Renameable(once) && !Renameable(NewKey(once))
    requires config == Config(Some(chased), map[chased := DEFAULT_DEVICE, once := DEFAULT_DEVICE])
    requires Leq(chased, once)
    ensures Migrated(config).selected == Some(once) && Dangles(Migrated(config), once)
  {
    assert chased in Mentioned(config) && once in Mentioned(config);
    assert End(once, Moves(config)) == NewKey(once) && End(chased, Moves(config)) == NewKey(once);
    EntriesAfterExactly(config, once);
  }

  lemma ChasedComesFirst(product: U16, id: StableId)
    requires id.Direct? && Hex4(product)[0] < Hex4(id.product)[0]
    ensures Leq(Wrapped(id.vendor, product, RuntimeKey(id)), RuntimeKey(id))
  {
    var inner, identity, vendor := RuntimeKey(id), IdentityKey(id.identity), Hex4(id.vendor);
    Associate("direct:", vendor, Hex4(product), inner);
    Associate("direct:", vendor, Hex4(id.product), identity);
    SmallerProductComesFirst("direct:", vendor, Hex4(product), Hex4(id.product), [':'] + inner, [':'] + identity);
  }

  lemma Associate(head: string, x: string, y: string, z: string)
    ensures head + (x + [':'] + (y + [':'] + z)) == head + (x + [':'] + (y + ([':'] + z)))
  {}

  /** An entry that is chased on leaves the selection that named it dangling. */
  lemma ChasedEntryLosesItsSelection(product: U16, id: StableId, config: Config)
    requires id.Direct? && PhysicalKey(id).Some? && Hex4(product)[0] < Hex4(id.product)[0]
    requires var once, chased := RuntimeKey(id), Wrapped(id.vendor, product, RuntimeKey(id));
             config == Config(Some(chased), map[chased := DEFAULT_DEVICE, once := DEFAULT_DEVICE])
    ensures config.selected.value in config.devices
    ensures Migrated(config).selected == PhysicalKey(id) && Dangles(Migrated(config), RuntimeKey(id))
  {
    WrappedRenames(id.vendor, product, id);
    WrittenKeysSplit(id);
    ChasedComesFirst(product, id);
    PlainEnd(id);
    ChasedEntriesEnd(config, Wrapped(id.vendor, product, RuntimeKey(id)), RuntimeKey(id));
  }

  lemma PlainEnd(id: StableId)
    requires id.Direct? && PhysicalKey(id).Some?
    ensures Renameable(RuntimeKey(id)) && !Renameable(NewKey(RuntimeKey(id)))
  {
    WrittenKeysSplit(id);
  }
}
