/** Which entry a device's settings live under, and moving them there when its route is seen. */
module Adoption {
  import opened Configs
  import opened DeviceConfigs
  import opened DeviceKeys
  import opened DeviceParts
  import opened Fold
  import opened StringOrder
  import opened Wrappers

  /** The key of the reported identity, when there is one worth keying on. */
  function OwnKey(identity: Option<DeviceIdentity>): Option<string> {
    if identity.Some? && ConfigKey(identity.value).Some? && Parses(ConfigKey(identity.value).value)
    then ConfigKey(identity.value) else None
  }

  function CanonicalDeviceKey(id: StableId, identity: Option<DeviceIdentity>): Option<string> {
    OwnKey(identity).Or(PhysicalKey(id))
  }

  /** The first owner of a route in key order. */
  function FirstOwner(devices: Devices, route: string): Option<string> {
    var owners := Owners(devices, route);
    if owners == {} then None else Some(Least(owners))
  }

  /** With an identity: its own key, unless only the pre-upgrade key holds settings. */
  function ResolveAwake(devices: Devices, own: string, legacy: Option<string>): string {
    if legacy.Some? && legacy.value != own && !Holds(devices, own) && Holds(devices, legacy.value) then legacy.value
    else own
  }

  /** Without one: the route's first owner, else the route-derived key. */
  function ResolveAsleep(devices: Devices, route: string, physical: Option<string>): Option<string> {
    var owner := FirstOwner(devices, route);
    if owner.Some? && Parses(owner.value) then owner else physical
  }

  /** The key to read and write for a device. */
  function ResolveDeviceKey(devices: Devices, id: StableId, identity: Option<DeviceIdentity>): Option<string> {
    match OwnKey(identity)
    case Some(own) => Some(ResolveAwake(devices, own, PhysicalKey(id)))
    case None => ResolveAsleep(devices, RouteKey(id), PhysicalKey(id))
  }

  /**
   A device that reports an identity reads the entry of that identity, unless
   that entry holds nothing and its pre-upgrade entry still holds the settings.
   */
  lemma AwakeReadsExactly(devices: Devices, id: StableId, identity: DeviceIdentity, own: string)
    requires ConfigKey(identity) == Some(own)
    ensures var before := PhysicalKey(id);
            var stillThere := before.Some? && before.value in devices && HoldsSettings(devices[before.value]);
            var moved := own in devices && HoldsSettings(devices[own]);
            ResolveDeviceKey(devices, id, Some(identity)) == if stillThere && !moved then before else Some(own)
  {
    ConfigKeyParses(identity);
  }

  /** Neither an absent identity nor one that is not worth keying on names an entry. */
  predicate Unidentified(identity: Option<DeviceIdentity>) { identity.None? || !IsPhysical(identity.value) }

  /**
   A device without an identity reads the first entry, in key order, that indexes
   its route, if that is a device key, and otherwise the entry named by its route.
   */
  lemma AsleepReadsExactly(devices: Devices, id: StableId, identity: Option<DeviceIdentity>, owner: string)
    requires Unidentified(identity)
    ensures (forall k <- devices :: RouteKey(id) !in devices[k].links) ==>
              ResolveDeviceKey(devices, id, identity) == PhysicalKey(id)
    ensures owner in devices && RouteKey(id) in devices[owner].links
            && (forall k <- devices :: RouteKey(id) in devices[k].links ==> Leq(owner, k)) ==>
              ResolveDeviceKey(devices, id, identity) == if Parses(owner) then Some(owner) else PhysicalKey(id)
  {
    var owners := Owners(devices, RouteKey(id));
    if owner in owners && forall k <- owners :: Leq(owner, k) {
      LeastIsUnique(owners, owner);
    }
  }

  // ---------------------------------------------------------------------
  // One owner per route
  // ---------------------------------------------------------------------

  function KeptLinks(devices: Devices, key: string): map<string, LinkConfig>
    requires key in devices
  {
    map route | route in devices[key].links && FirstOwner(devices, route) == Some(key) :: devices[key].links[route]
  }

  function RepairedEntry(devices: Devices, key: string): DeviceConfig
    requires key in devices
  {
    devices[key].(links := KeptLinks(devices, key))
  }

  /** Each route left with its first owner only. */
  function Repaired(devices: Devices): Devices { map k | k in devices :: RepairedEntry(devices, k) }

  lemma RepairedOwners(devices: Devices, route: string)
    ensures Owners(Repaired(devices), route)
            == if FirstOwner(devices, route).Some? then {FirstOwner(devices, route).value} else {}
  {
    var owners := Owners(devices, route);
    var left := Owners(Repaired(devices), route);
    if owners == {} {
      assert forall k :: k in left ==> k in owners;
    } else {
      var first := Least(owners);
      assert first in left;
      assert forall k :: k in left ==> k == first;
    }
  }

  lemma SingletonFirst(devices: Devices, route: string, key: string)
    requires Owners(devices, route) == {key}
    ensures FirstOwner(devices, route) == Some(key)
  {
    assert Least({key}) in {key};
  }

  lemma OneOwnerByOwners(devices: Devices)
    requires forall route :: |Owners(devices, route)| <= 1
    ensures OneOwnerEach(devices)
  {
    forall j, k, route | j in devices && k in devices && route in devices[j].links && route in devices[k].links
      ensures j == k
    {
      assert {j, k} <= Owners(devices, route);
      if j != k {
        SubsetSize({j, k}, Owners(devices, route));
      }
    }
  }

  lemma {:induction false} SubsetSize<T>(a: set<T>, b: set<T>)
    requires a <= b
    ensures |a| <= |b|
    decreases a
  {
    if a != {} {
      var x :| x in a;
      SubsetSize(a - {x}, b - {x});
    }
  }

  lemma RepairedHasOneOwner(devices: Devices)
    ensures OneOwnerEach(Repaired(devices))
  {
    forall route ensures |Owners(Repaired(devices), route)| <= 1 {
      RepairedOwners(devices, route);
    }
    OneOwnerByOwners(Repaired(devices));
  }

  lemma RepairKeepsFirstOwner(devices: Devices, route: string)
    ensures FirstOwner(Repaired(devices), route) == FirstOwner(devices, route)
  {
    RepairedOwners(devices, route);
    if FirstOwner(devices, route).Some? {
      SingletonFirst(Repaired(devices), route, FirstOwner(devices, route).value);
    }
  }

  lemma RepairKeepsSettings(devices: Devices, key: string)
    ensures Holds(Repaired(devices), key) == Holds(devices, key)
  {
    if key in devices {
      assert Repaired(devices)[key] == RepairedEntry(devices, key);
    }
  }

  lemma RepairKeepsAwake(devices: Devices, own: string, legacy: Option<string>)
    ensures ResolveAwake(Repaired(devices), own, legacy) == ResolveAwake(devices, own, legacy)
  {
    RepairKeepsSettings(devices, own);
    if legacy.Some? {
      RepairKeepsSettings(devices, legacy.value);
    }
  }

  /**
   Repairing leaves every route at most one owner without changing the key any
   device resolves to, asleep or awake.
   */
  lemma RepairKeepsEveryAnswer(devices: Devices, id: StableId, identity: Option<DeviceIdentity>)
    ensures OneOwnerEach(Repaired(devices))
    ensures ResolveDeviceKey(Repaired(devices), id, identity) == ResolveDeviceKey(devices, id, identity)
  {
    RepairedHasOneOwner(devices);
    match OwnKey(identity) {
      case Some(own) => RepairKeepsAwake(devices, own, PhysicalKey(id));
      case None => RepairKeepsFirstOwner(devices, RouteKey(id));
    }
  }

  /** Repair takes away exactly the routes that an entry of a smaller key indexes too, and touches nothing else. */
  lemma RepairExactly(devices: Devices, key: string, route: string)
    requires key in devices
    ensures key in Repaired(devices)
    ensures Repaired(devices)[key].(links := devices[key].links) == devices[key]
    ensures route in Repaired(devices)[key].links
            <==> route in devices[key].links
                 && forall k <- devices :: route in devices[k].links ==> Leq(key, k)
    ensures route in Repaired(devices)[key].links ==>
              Repaired(devices)[key].links[route] == devices[key].links[route]
  {
    var owners := Owners(devices, route);
    if route in devices[key].links {
      assert key in owners;
      if forall k <- devices :: route in devices[k].links ==> Leq(key, k) {
        LeastIsUnique(owners, key);
      }
    }
  }

  /** Repair touches nothing exactly when every route had one owner. */
  lemma RepairIsIdleExactly(devices: Devices)
    ensures Repaired(devices) == devices <==> OneOwnerEach(devices)
  {
    RepairedHasOneOwner(devices);
    if OneOwnerEach(devices) {
      forall k | k in devices ensures KeptLinks(devices, k) == devices[k].links {
        forall route | route in devices[k].links ensures FirstOwner(devices, route) == Some(k) {
          assert k in Owners(devices, route);
          assert Least(Owners(devices, route)) == k;
        }
      }
      assert Repaired(devices) == devices;
    }
  }

  // ---------------------------------------------------------------------
  // Adopting a route
  // ---------------------------------------------------------------------

  /** The other entries give the route up. */
  function Released(devices: Devices, canonical: string, route: string): Devices {
    map k | k in devices :: if k == canonical then devices[k] else devices[k].(links := devices[k].links - {route})
  }

  function EntryOf(devices: Devices, key: string): DeviceConfig {
    if key in devices then devices[key] else DEFAULT_DEVICE
  }

  /** The canonical entry with the route indexed and what was measured on it recorded. */
  function Sighted(device: DeviceConfig, route: string, capabilities: Option<Capabilities>): DeviceConfig {
    var link := LinkOf(device, route);
    device.(links := device.links[route := link.(capabilities := capabilities.Or(link.capabilities))])
  }

  predicate Consumes(devices: Devices, canonical: string, route: string) {
    route != canonical && route in devices
  }

  /** The configuration after `adopt_route`. */
  function Adopted(config: Config, canonical: string, route: string, capabilities: Option<Capabilities>): Config {
    var devices := Released(config.devices, canonical, route);
    var device := Sighted(EntryOf(config.devices, canonical), route, capabilities);
    if Consumes(config.devices, canonical, route) then
      RenamedReferences(
        Config(config.selected, (devices - {route})[canonical := Folded(device, devices[route], route)]),
        map[route := canonical])
    else
      Config(config.selected, devices[canonical := device])
  }

  /** What `adopt_route` returns. */
  predicate AdoptionChanges(config: Config, canonical: string, route: string, capabilities: Option<Capabilities>) {
    || Owners(config.devices, route) - {canonical} != {}
    || route !in EntryOf(config.devices, canonical).links
    || (capabilities.Some? && LinkOf(EntryOf(config.devices, canonical), route).capabilities != capabilities)
    || Consumes(config.devices, canonical, route)
  }

  lemma SightingChangesExactly(device: DeviceConfig, route: string, capabilities: Option<Capabilities>)
    ensures Sighted(device, route, capabilities) == device
            <==> route in device.links
                 && !(capabilities.Some? && LinkOf(device, route).capabilities != capabilities)
  {
    if route in device.links {
      assert Sighted(device, route, capabilities).links[route].capabilities
          == capabilities.Or(device.links[route].capabilities);
      if !(capabilities.Some? && device.links[route].capabilities != capabilities) {
        assert Sighted(device, route, capabilities).links == device.links;
      }
    } else {
      assert route in Sighted(device, route, capabilities).links;
    }
  }

  lemma ReleasingChangesExactly(devices: Devices, canonical: string, route: string)
    ensures Released(devices, canonical, route) == devices <==> Owners(devices, route) - {canonical} == {}
  {
    if k :| k in Owners(devices, route) - {canonical} {
      assert route !in Released(devices, canonical, route)[k].links;
    } else {
      forall k | k in devices && k != canonical ensures devices[k].links - {route} == devices[k].links {
        assert k !in Owners(devices, route) - {canonical};
      }
    }
  }

  /** Putting the sighted entry into the released entries changes nothing exactly when neither step did. */
  lemma PutChangesExactly(devices: Devices, released: Devices, canonical: string, device: DeviceConfig)
    requires released.Keys == devices.Keys
    requires canonical in devices ==> released[canonical] == devices[canonical]
    ensures released[canonical := device] == devices
            <==> released == devices && canonical in devices && devices[canonical] == device
  {
    if released[canonical := device] == devices {
      forall k | k in devices ensures released[k] == devices[k] {
        assert released[canonical := device][k] == devices[k];
      }
    }
  }

  /** The answer is true exactly when the configuration changed. */
  lemma AnswerIsWhetherItChanged(config: Config, canonical: string, route: string, capabilities: Option<Capabilities>)
    ensures AdoptionChanges(config, canonical, route, capabilities)
            <==> Adopted(config, canonical, route, capabilities) != config
  {
    var device := EntryOf(config.devices, canonical);
    if Consumes(config.devices, canonical, route) {
      assert route !in Adopted(config, canonical, route, capabilities).devices;
    } else {
      var released := Released(config.devices, canonical, route);
      SightingChangesExactly(device, route, capabilities);
      ReleasingChangesExactly(config.devices, canonical, route);
      PutChangesExactly(config.devices, released, canonical, Sighted(device, route, capabilities));
    }
  }

  /** The entries after an adoption that consumed the route's own entry. */
  lemma AfterConsuming(config: Config, canonical: string, route: string, capabilities: Option<Capabilities>, k: string)
    requires Consumes(config.devices, canonical, route)
    ensures var next := Adopted(config, canonical, route, capabilities);
            && (k in next.devices <==> k == canonical || (k in config.devices && k != route))
            && (k in next.devices && k != canonical ==>
                  next.devices[k] == WithRenamedTargets(
                    config.devices[k].(links := config.devices[k].links - {route}), map[route := canonical]))
  {}

  lemma CanonicalAfterConsuming(config: Config, canonical: string, route: string, capabilities: Option<Capabilities>)
    requires Consumes(config.devices, canonical, route)
    ensures Adopted(config, canonical, route, capabilities).devices[canonical]
            == WithRenamedTargets(
                 Folded(
                   Sighted(EntryOf(config.devices, canonical), route, capabilities),
                   config.devices[route].(links := config.devices[route].links - {route}),
                   route),
                 map[route := canonical])
  {}

  /** After an adoption the canonical entry is the route's only owner, with the measurement on record. */
  lemma AdoptedOwner(config: Config, canonical: string, route: string, capabilities: Option<Capabilities>)
    ensures var next := Adopted(config, canonical, route, capabilities);
            && Owners(next.devices, route) == {canonical}
            && (capabilities.Some? ==> next.devices[canonical].links[route].capabilities == capabilities)
            && !Consumes(next.devices, canonical, route)
  {
    var next := Adopted(config, canonical, route, capabilities);
    if Consumes(config.devices, canonical, route) {
      CanonicalAfterConsuming(config, canonical, route, capabilities);
      forall k ensures k in Owners(next.devices, route) <==> k == canonical {
        AfterConsuming(config, canonical, route, capabilities, k);
      }
    } else {
      forall k ensures k in Owners(next.devices, route) <==> k == canonical {}
    }
  }

  /** Repeating an adoption answers false and changes nothing. */
  lemma AdoptingAgainIsIdle(config: Config, canonical: string, route: string, capabilities: Option<Capabilities>)
    ensures var next := Adopted(config, canonical, route, capabilities);
            && !AdoptionChanges(next, canonical, route, capabilities)
            && Adopted(next, canonical, route, capabilities) == next
  {
    var next := Adopted(config, canonical, route, capabilities);
    AdoptedOwner(config, canonical, route, capabilities);
    assert canonical in Owners(next.devices, route);
    AnswerIsWhetherItChanged(next, canonical, route, capabilities);
  }

  // ---------------------------------------------------------------------
  // What an adoption keeps
  // ---------------------------------------------------------------------

  lemma LinksAfter(config: Config, canonical: string, route: string, capabilities: Option<Capabilities>, k: string)
    requires k in Adopted(config, canonical, route, capabilities).devices
    ensures var links := Adopted(config, canonical, route, capabilities).devices[k].links.Keys;
            links - {route}
            == (if k in config.devices then config.devices[k].links.Keys else {})
               + (if k == canonical && Consumes(config.devices, canonical, route)
                  then config.devices[route].links.Keys else {})
               - {route}
  {
    if Consumes(config.devices, canonical, route) {
      AfterConsuming(config, canonical, route, capabilities, k);
      CanonicalAfterConsuming(config, canonical, route, capabilities);
    }
  }

  /** Routes that had one owner each still do, also when a consumed entry brings its own links. */
  lemma AdoptionKeepsOneOwner(config: Config, canonical: string, route: string, capabilities: Option<Capabilities>)
    requires OneOwnerEach(config.devices)
    ensures OneOwnerEach(Adopted(config, canonical, route, capabilities).devices)
  {
    var next := Adopted(config, canonical, route, capabilities);
    AdoptedOwner(config, canonical, route, capabilities);
    forall j, k, r | j in next.devices && k in next.devices && r in next.devices[j].links && r in next.devices[k].links
      ensures j == k
    {
      if r == route {
        assert j in Owners(next.devices, route) && k in Owners(next.devices, route);
      } else {
        OwnerBefore(config, canonical, route, capabilities, j, r);
        OwnerBefore(config, canonical, route, capabilities, k, r);
      }
    }
  }

  /** An owner of another route owned it before, or took it over from the consumed entry. */
  lemma OwnerBefore(
      config: Config, canonical: string, route: string, capabilities: Option<Capabilities>, k: string, r: string)
    requires var next := Adopted(config, canonical, route, capabilities);
             k in next.devices && r in next.devices[k].links && r != route
    ensures || (k in config.devices && r in config.devices[k].links
                && !(k == route && Consumes(config.devices, canonical, route)))
            || (k == canonical && Consumes(config.devices, canonical, route) && r in config.devices[route].links)
  {
    LinksAfter(config, canonical, route, capabilities, k);
    assert r in Adopted(config, canonical, route, capabilities).devices[k].links.Keys - {route};
    if Consumes(config.devices, canonical, route) {
      AfterConsuming(config, canonical, route, capabilities, k);
    }
  }

  /**
   No reference is left dangling that was not dangling before, the selection
   follows a consumed entry, and every other entry keeps its targets in place.
   */
  lemma ReferencesFollow(config: Config, canonical: string, route: string, capabilities: Option<Capabilities>)
    ensures var next := Adopted(config, canonical, route, capabilities);
            var rename := if Consumes(config.devices, canonical, route) then map[route := canonical] else map[];
            && (forall key :: Dangles(next, key) ==> Dangles(config, key))
            && next.selected == (if config.selected.Some? then Some(Renamed(config.selected.value, rename)) else None)
            && (forall k :: k in config.devices && k in next.devices && config.devices[k].hostSwitchTargets != [] ==>
                  next.devices[k].hostSwitchTargets == RenamedTargets(config.devices[k].hostSwitchTargets, rename))
  {
    var next := Adopted(config, canonical, route, capabilities);
    if Consumes(config.devices, canonical, route) {
      forall key | Dangles(next, key) ensures Dangles(config, key) {
        ConsumedDangles(config, canonical, route, capabilities, key);
      }
      CanonicalAfterConsuming(config, canonical, route, capabilities);
    } else {
      forall k | k in config.devices && k in next.devices
        ensures next.devices[k].hostSwitchTargets == config.devices[k].hostSwitchTargets
      {}
      forall k | k in config.devices
        ensures RenamedTargets(config.devices[k].hostSwitchTargets, map[]) == config.devices[k].hostSwitchTargets
      {
        NothingToRename(config.devices[k].hostSwitchTargets, map[]);
      }
    }
  }

  lemma ConsumedDangles(
      config: Config, canonical: string, route: string, capabilities: Option<Capabilities>, key: string)
    requires Consumes(config.devices, canonical, route)
    requires Dangles(Adopted(config, canonical, route, capabilities), key)
    ensures Dangles(config, key)
  {
    var next := Adopted(config, canonical, route, capabilities);
    AfterConsuming(config, canonical, route, capabilities, key);
    if next.selected == Some(key) {
      assert config.selected.Some? && key == Renamed(config.selected.value, map[route := canonical]);
    } else {
      var k :| k in next.devices && key in next.devices[k].hostSwitchTargets;
      var from := TargetsCameFrom(config, canonical, route, capabilities, k);
      RenamedBack(config.devices[from].hostSwitchTargets, route, canonical, key);
    }
  }

  lemma RenamedBack(targets: seq<string>, before: string, after: string, key: string)
    requires key in RenamedTargets(targets, map[before := after]) && key != after
    ensures key in targets && key != before
  {
    var renamed := RenamedTargets(targets, map[before := after]);
    var i :| 0 <= i < |renamed| && renamed[i] == key;
    assert targets[i] == key;
  }

  /** The entry whose targets an entry of the adopted configuration has. */
  lemma TargetsCameFrom(
      config: Config, canonical: string, route: string, capabilities: Option<Capabilities>, k: string)
    returns (from: string)
    requires Consumes(config.devices, canonical, route)
    requires var next := Adopted(config, canonical, route, capabilities);
             k in next.devices && next.devices[k].hostSwitchTargets != []
    ensures from in config.devices
    ensures Adopted(config, canonical, route, capabilities).devices[k].hostSwitchTargets
            == RenamedTargets(config.devices[from].hostSwitchTargets, map[route := canonical])
  {
    AfterConsuming(config, canonical, route, capabilities, k);
    CanonicalAfterConsuming(config, canonical, route, capabilities);
    from := if k != canonical then k
            else if EntryOf(config.devices, canonical).hostSwitchTargets == [] then route
            else canonical;
  }

  // ---------------------------------------------------------------------
  // What an adoption leaves alone
  // ---------------------------------------------------------------------

  /** An entry as it was, but for the presence of one route and for that link's capabilities. */
  ghost predicate SameButForTheLink(before: DeviceConfig, after: DeviceConfig, route: string) {
    && after.(links := map[]) == before.(links := map[])
    && after.links.Keys - {route} == before.links.Keys - {route}
    && (forall r <- after.links :: r != route ==> r in before.links && after.links[r] == before.links[r])
    && (route in after.links ==> after.links[route].overrides == LinkOf(before, route).overrides)
  }

  /** Such an entry behaves on every route it still indexes as it did. */
  lemma SameOnEveryRoute(before: DeviceConfig, after: DeviceConfig, route: string, r: string)
    requires SameButForTheLink(before, after, route) && r in after.links
    ensures EffectiveOn(after, r) == EffectiveOn(before, r)
  {
    if r != route {
      assert r in after.links.Keys - {route};
    }
  }

  /** What a link is known to be capable of: the new measurement when there is one. */
  function Measured(before: DeviceConfig, route: string, capabilities: Option<Capabilities>): Option<Capabilities> {
    if capabilities.Some? then capabilities else LinkOf(before, route).capabilities
  }

  /**
   An adoption that consumes no entry changes no setting, no override and no
   other link of any entry: the canonical entry indexes the route, with what was
   measured on it, and the others give it up.
   */
  lemma PlainAdoptionExactly(
      config: Config, canonical: string, route: string, capabilities: Option<Capabilities>, k: string)
    requires !Consumes(config.devices, canonical, route)
    ensures var next := Adopted(config, canonical, route, capabilities);
            && next.selected == config.selected
            && (k in next.devices <==> k in config.devices || k == canonical)
            && (k in next.devices ==>
                  && SameButForTheLink(EntryOf(config.devices, k), next.devices[k], route)
                  && (route in next.devices[k].links <==> k == canonical))
            && next.devices[canonical].links[route].capabilities
               == Measured(EntryOf(config.devices, canonical), route, capabilities)
  {}

  /** So every entry behaves on every route it indexed and keeps as it did. */
  lemma PlainAdoptionKeepsValues(
      config: Config, canonical: string, route: string, capabilities: Option<Capabilities>, k: string, r: string)
    requires !Consumes(config.devices, canonical, route)
    requires var next := Adopted(config, canonical, route, capabilities);
             k in next.devices && r in next.devices[k].links
    ensures EffectiveOn(Adopted(config, canonical, route, capabilities).devices[k], r)
            == EffectiveOn(EntryOf(config.devices, k), r)
  {
    PlainAdoptionExactly(config, canonical, route, capabilities, k);
    SameOnEveryRoute(
      EntryOf(config.devices, k), Adopted(config, canonical, route, capabilities).devices[k], route, r);
  }

  /**
   An adoption that consumes the route's own entry leaves every bystander as it
   was, but for the route it gives up and the references that follow.
   */
  lemma BystandersOfAdoptionExactly(
      config: Config, canonical: string, route: string, capabilities: Option<Capabilities>, k: string)
    requires Consumes(config.devices, canonical, route) && k != canonical
    ensures var next := Adopted(config, canonical, route, capabilities);
            && (k in next.devices <==> k in config.devices && k != route)
            && (k in next.devices ==>
                  && SameButForTheLink(
                       WithRenamedTargets(config.devices[k], map[route := canonical]), next.devices[k], route)
                  && route !in next.devices[k].links)
  {
    AfterConsuming(config, canonical, route, capabilities, k);
  }

  /** The entry the canonical one is merged with, without the route it is keyed by. */
  function Consumed(devices: Devices, route: string): DeviceConfig
    requires route in devices
  {
    devices[route].(links := devices[route].links - {route})
  }

  lemma RenamingKeepsValues(device: DeviceConfig, rename: map<string, string>, r: string)
    ensures EffectiveOn(WithRenamedTargets(device, rename), r) == EffectiveOn(device, r)
  {}

  lemma SightingKeepsTheRest(device: DeviceConfig, route: string, capabilities: Option<Capabilities>, r: string)
    ensures SameButForTheLink(device, Sighted(device, route, capabilities), route)
    ensures EffectiveOn(Sighted(device, route, capabilities), r) == EffectiveOn(device, r)
  {}

  /** Off the route, the merged entry has its own links and, where it had none, the consumed entry's. */
  lemma ConsumingJoinsLinks(
      config: Config, canonical: string, route: string, capabilities: Option<Capabilities>, r: string)
    requires Consumes(config.devices, canonical, route) && r != route
    ensures var next := Adopted(config, canonical, route, capabilities);
            var was, legacy := EntryOf(config.devices, canonical), config.devices[route];
            && canonical in next.devices
            && (r in next.devices[canonical].links <==> r in was.links || r in legacy.links)
            && (r in next.devices[canonical].links ==>
                  next.devices[canonical].links[r] == if r in was.links then was.links[r] else legacy.links[r])
  {
    CanonicalAfterConsuming(config, canonical, route, capabilities);
  }

  /**
   When an adoption consumes the route's own entry, the canonical entry behaves
   on every other route it indexed as it did, up to values it had left unset.
   */
  lemma ConsumingKeepsOtherRoutes(
      config: Config, canonical: string, route: string, capabilities: Option<Capabilities>, r: string)
    requires Consumes(config.devices, canonical, route)
    requires r in EntryOf(config.devices, canonical).links && r != route
    ensures var next := Adopted(config, canonical, route, capabilities);
            && canonical in next.devices
            && r in next.devices[canonical].links
            && FillsGaps(
                 EffectiveOn(next.devices[canonical], r), EffectiveOn(EntryOf(config.devices, canonical), r),
                 config.devices[route])
  {
    var was := EntryOf(config.devices, canonical);
    var device, legacy := Sighted(was, route, capabilities), Consumed(config.devices, route);
    CanonicalAfterConsuming(config, canonical, route, capabilities);
    RenamingKeepsValues(Folded(device, legacy, route), map[route := canonical], r);
    IndexedRoutesUndisturbed(device, legacy, route, r);
    SightingKeepsTheRest(was, route, capabilities, r);
  }

  /**
   On the route itself each value of the consumed entry stays in force exactly
   when no override the canonical entry had there shadows it, and what was
   measured is recorded.
   */
  lemma ConsumingOnTheRouteExactly(
      config: Config, canonical: string, route: string, capabilities: Option<Capabilities>)
    requires Consumes(config.devices, canonical, route)
    ensures var next := Adopted(config, canonical, route, capabilities);
            var was, legacy := EntryOf(config.devices, canonical), config.devices[route];
            var overrides := LinkOf(was, route).overrides;
            && canonical in next.devices
            && route in next.devices[canonical].links
            && (capabilities.Some? ==> next.devices[canonical].links[route].capabilities == capabilities)
            && var now := EffectiveOn(next.devices[canonical], route);
               && KeptUnlessShadowed(now.dpi, was.dpi, legacy.dpi, overrides.dpi)
               && KeptUnlessShadowed(
                    now.scrollResolution, was.scrollResolution, legacy.scrollResolution, overrides.scrollResolution)
               && KeptUnlessShadowed(now.lighting, was.lighting, legacy.lighting, overrides.lighting)
               && KeptUnlessShadowed(now.smartshift, was.smartshift, legacy.smartshift, overrides.smartshift)
               && now.invertScroll
                  == if legacy.invertScroll && !was.invertScroll then true
                     else overrides.invertScroll.GetOr(was.invertScroll)
  {
    var was := EntryOf(config.devices, canonical);
    var device, legacy := Sighted(was, route, capabilities), Consumed(config.devices, route);
    CanonicalAfterConsuming(config, canonical, route, capabilities);
    RenamingKeepsValues(Folded(device, legacy, route), map[route := canonical], route);
    LegacyValuesOnTheFoldedRouteExactly(device, legacy, route);
    assert JoinedLink(device, legacy, route).overrides == LinkOf(was, route).overrides;
  }

  /** Every other part of the canonical entry is its own where it sets it, and the consumed entry's otherwise. */
  lemma ConsumingTakesParts(
      config: Config, canonical: string, route: string, capabilities: Option<Capabilities>, part: Part)
    requires Consumes(config.devices, canonical, route)
    ensures var next := Adopted(config, canonical, route, capabilities);
            var was, legacy := EntryOf(config.devices, canonical), config.devices[route];
            && canonical in next.devices
            && Same(
                 next.devices[canonical],
                 WithRenamedTargets(if Has(was, part) then was else legacy, map[route := canonical]), part)
  {
    var was := EntryOf(config.devices, canonical);
    var device, legacy := Sighted(was, route, capabilities), Consumed(config.devices, route);
    CanonicalAfterConsuming(config, canonical, route, capabilities);
    LinksAreNoPart(was, device, part);
    LinksAreNoPart(config.devices[route], legacy, part);
    CanonicalPartWins(device, legacy, route, part);
    var from := if Has(was, part) then was else config.devices[route];
    SameIsTransitive(Folded(device, legacy, route), if Has(was, part) then device else legacy, from, part);
    RenamedAlike(Folded(device, legacy, route), from, map[route := canonical], part);
  }

  lemma LinksAreNoPart(x: DeviceConfig, y: DeviceConfig, part: Part)
    requires x.(links := map[]) == y.(links := map[])
    ensures Same(y, x, part) && Has(x, part) == Has(y, part)
  {}

  lemma RenamedAlike(x: DeviceConfig, y: DeviceConfig, rename: map<string, string>, part: Part)
    requires Same(x, y, part)
    ensures Same(WithRenamedTargets(x, rename), WithRenamedTargets(y, rename), part)
  {}

  // ---------------------------------------------------------------------
  // Both lookups after an adoption
  // ---------------------------------------------------------------------

  lemma FoldedHolds(device: DeviceConfig, legacy: DeviceConfig, route: string)
    ensures HoldsSettings(Folded(device, legacy, route)) <==> HoldsSettings(device) || HoldsSettings(Foldable(legacy))
  {
    var folded := Folded(device, legacy, route).(identity := None, links := map[]);
    var bare := device.(identity := None, links := map[]);
    var brought := Foldable(legacy).(identity := None, links := map[]);
    assert folded.bindings == map[] <==> bare.bindings == map[] && brought.bindings == map[] by {
      EmptyOverlay(legacy.bindings, device.bindings);
    }
    EmptyOverlay(legacy.disabledGestures, device.disabledGestures);
    EmptyOverlay(legacy.perAppBindings, device.perAppBindings);
    EmptyOverlay(legacy.cameraProfiles, device.cameraProfiles);
  }

  lemma EmptyOverlay<K, V>(under: map<K, V>, over: map<K, V>)
    ensures under + over == map[] <==> under == map[] && over == map[]
  {
    if under + over == map[] {
      assert forall k :: k in under ==> k in under + over;
      assert forall k :: k in over ==> k in under + over;
      assert under.Keys == {} && over.Keys == {};
    }
  }

  lemma SightedHolds(device: DeviceConfig, route: string, capabilities: Option<Capabilities>)
    ensures HoldsSettings(Sighted(device, route, capabilities)) == HoldsSettings(device)
  {}

  /** Asleep, the device resolves to the key it was adopted under. */
  lemma AsleepFindsTheAdopted(
      config: Config, id: StableId, identity: Option<DeviceIdentity>, capabilities: Option<Capabilities>)
    requires CanonicalDeviceKey(id, identity).Some?
    ensures var canonical := CanonicalDeviceKey(id, identity);
            var next := Adopted(config, canonical.value, RouteKey(id), capabilities);
            ResolveDeviceKey(next.devices, id, None) == canonical
  {
    var canonical := CanonicalDeviceKey(id, identity).value;
    var next := Adopted(config, canonical, RouteKey(id), capabilities);
    AdoptedOwner(config, canonical, RouteKey(id), capabilities);
    SingletonFirst(next.devices, RouteKey(id), canonical);
  }

  /** The entry a cabled device had under its full direct key still outranks its identity entry. */
  predicate FullKeyStillWins(devices: Devices, id: StableId, own: string) {
    && id.Direct?
    && PhysicalKey(id).Some?
    && Holds(devices, PhysicalKey(id).value)
    && !Holds(devices, own)
    && !(RouteKey(id) in devices && HoldsSettings(Foldable(devices[RouteKey(id)])))
  }

  /**
   Awake, the device resolves to the identity key it was adopted under, for a
   receiver, raw or routeless device always, and for a cabled one exactly when
   no entry under its full direct key still holds what neither the identity
   entry nor the consumed route entry does.
   */
  lemma AwakeFindsTheAdoptedExactly(
      config: Config, id: StableId, identity: Option<DeviceIdentity>, capabilities: Option<Capabilities>)
    requires OwnKey(identity).Some?
    ensures var canonical := CanonicalDeviceKey(id, identity);
            var next := Adopted(config, canonical.value, RouteKey(id), capabilities);
            ResolveDeviceKey(next.devices, id, identity) == canonical
            <==> !FullKeyStillWins(config.devices, id, canonical.value)
  {
    var own := OwnKey(identity).value;
    RoutesAreNotIdentities(id, identity.value);
    if PhysicalKey(id).Some? {
      if id.Direct? {
        CabledAfterAdoption(config, id, own, capabilities);
      } else {
        UncabledAfterAdoption(config, id, own, capabilities);
      }
    }
  }

  lemma CabledAfterAdoption(config: Config, id: StableId, own: string, capabilities: Option<Capabilities>)
    requires id.Direct? && PhysicalKey(id).Some? && RuntimeKey(id) != own && RouteKey(id) != own
    ensures var next := Adopted(config, own, RouteKey(id), capabilities);
            ResolveAwake(next.devices, own, PhysicalKey(id)) == own <==> !FullKeyStillWins(config.devices, id, own)
  {
    FullKeyIsNotTheRoute(id);
    HoldsElsewhere(config, own, RouteKey(id), capabilities, RuntimeKey(id));
    HoldsAtCanonical(config, own, RouteKey(id), capabilities);
  }

  lemma UncabledAfterAdoption(config: Config, id: StableId, own: string, capabilities: Option<Capabilities>)
    requires !id.Direct? && PhysicalKey(id).Some? && RouteKey(id) != own
    ensures var next := Adopted(config, own, RouteKey(id), capabilities);
            ResolveAwake(next.devices, own, PhysicalKey(id)) == own
  {
    AdoptedOwner(config, own, RouteKey(id), capabilities);
    assert PhysicalKey(id) == Some(RouteKey(id));
  }

  /** The parse filter never drops the key of a reported identity. */
  lemma OwnKeyIsTheConfigKey(identity: DeviceIdentity)
    ensures OwnKey(Some(identity)) == ConfigKey(identity)
  {
    if ConfigKey(identity).Some? {
      ConfigKeyParses(identity);
    }
  }

  /** Any cabled device with a setting under its full direct key alone resolves to that key, not to the adopted one. */
  lemma FullKeyOutranksTheAdopted(id: StableId, config: Config)
    requires id.Direct? && PhysicalKey(id).Some?
    requires config == Config(None, map[PhysicalKey(id).value := DEFAULT_DEVICE.(dpi := Some(800))])
    ensures var identity := Some(id.identity);
            var canonical := CanonicalDeviceKey(id, identity);
            && canonical == ConfigKey(id.identity)
            && ResolveDeviceKey(Adopted(config, canonical.value, RouteKey(id), None).devices, id, identity)
               == PhysicalKey(id) != canonical
  {
    OwnKeyIsTheConfigKey(id.identity);
    AwakeFindsTheAdoptedExactly(config, id, Some(id.identity), None);
    RoutesAreNotIdentities(id, id.identity);
    FullKeyIsNotTheRoute(id);
  }

  lemma FullKeyIsNotTheRoute(id: StableId)
    requires id.Direct?
    ensures RuntimeKey(id) != RouteKey(id)
  {
    assert |RuntimeKey(id)| > 17;
    assert |RouteKey(id)| <= 16;
  }

  lemma HoldsElsewhere(
      config: Config, canonical: string, route: string, capabilities: Option<Capabilities>, key: string)
    requires key != canonical && key != route
    ensures Holds(Adopted(config, canonical, route, capabilities).devices, key) == Holds(config.devices, key)
  {
    if Consumes(config.devices, canonical, route) {
      AfterConsuming(config, canonical, route, capabilities, key);
      if key in config.devices {
        RenamingKeepsSettings(
          config.devices[key].(links := config.devices[key].links - {route}), map[route := canonical]);
      }
    }
  }

  lemma HoldsAtCanonical(config: Config, canonical: string, route: string, capabilities: Option<Capabilities>)
    ensures Holds(Adopted(config, canonical, route, capabilities).devices, canonical)
            <==> || Holds(config.devices, canonical)
                 || (Consumes(config.devices, canonical, route) && HoldsSettings(Foldable(config.devices[route])))
  {
    var device := EntryOf(config.devices, canonical);
    SightedHolds(device, route, capabilities);
    assert HoldsSettings(device) == Holds(config.devices, canonical);
    if Consumes(config.devices, canonical, route) {
      var sighted := Sighted(device, route, capabilities);
      var legacy := config.devices[route].(links := config.devices[route].links - {route});
      CanonicalAfterConsuming(config, canonical, route, capabilities);
      FoldedHolds(sighted, legacy, route);
      RenamingKeepsSettings(Folded(sighted, legacy, route), map[route := canonical]);
    }
  }

  /** Before adoption the device reads the route's own entry, and no override stands on the route. */
  predicate ReadsTheRouteEntry(devices: Devices, id: StableId, own: string) {
    && ResolveAwake(devices, own, PhysicalKey(id)) == RouteKey(id) != own
    && LinkOf(EntryOf(devices, own), RouteKey(id)).overrides == NO_OVERRIDES
    && LinkOf(EntryOf(devices, RouteKey(id)), RouteKey(id)).overrides == NO_OVERRIDES
  }

  /**
   When a device reads the entry under its route because only that holds
   settings, adoption moves all of them: the entry read afterwards has the same
   settings, and the same values apply on the route.
   */
  lemma AdoptionCarriesTheSettings(
      config: Config, id: StableId, identity: Option<DeviceIdentity>, capabilities: Option<Capabilities>)
    requires OwnKey(identity).Some?
    ensures var own, route := OwnKey(identity).value, RouteKey(id);
            ReadsTheRouteEntry(config.devices, id, own) ==>
              && route in config.devices
              && var before := config.devices[route];
                 var next := Adopted(config, own, route, capabilities);
                 && ResolveDeviceKey(next.devices, id, identity) == Some(own)
                 && var after := next.devices[own];
                    && EffectiveOn(after, route) == EffectiveOn(before, route)
                    && Settings(after) == WithRenamedTargets(Settings(Foldable(before)), map[route := own])
  {
    var own, route := OwnKey(identity).value, RouteKey(id);
    if ReadsTheRouteEntry(config.devices, id, own) {
      assert PhysicalKey(id) == Some(route);
      if id.Direct? {
        FullKeyIsNotTheRoute(id);
      }
      AwakeFindsTheAdoptedExactly(config, id, identity, capabilities);
      CarriedEntry(config, own, route, capabilities);
    }
  }

  lemma CarriedEntry(config: Config, own: string, route: string, capabilities: Option<Capabilities>)
    requires Consumes(config.devices, own, route) && !Holds(config.devices, own)
    requires LinkOf(EntryOf(config.devices, own), route).overrides == NO_OVERRIDES
    requires LinkOf(config.devices[route], route).overrides == NO_OVERRIDES
    ensures var before := config.devices[route];
            var after := Adopted(config, own, route, capabilities).devices[own];
            && EffectiveOn(after, route) == EffectiveOn(before, route)
            && Settings(after) == WithRenamedTargets(Settings(Foldable(before)), map[route := own])
  {
    var device := Sighted(EntryOf(config.devices, own), route, capabilities);
    var before := config.devices[route];
    var legacy := before.(links := before.links - {route});
    SightedHolds(EntryOf(config.devices, own), route, capabilities);
    assert !HoldsSettings(device);
    FoldIntoBare(device, legacy, route);
    CanonicalAfterConsuming(config, own, route, capabilities);
    assert Settings(Foldable(legacy)) == Settings(Foldable(before));
    assert JoinedLink(device, legacy, route).overrides == NO_OVERRIDES;
  }
}
