/** The configuration in memory, edited in place pass by pass. */
module LiveConfigs {
  import opened Bindings
  import opened Configs
  import opened DeviceConfigs
  import opened Fold
  import opened StringOrder
  import opened Walks
  import opened Wrappers
  import Adoption
  import GestureMigration
  import Loading
  import ThumbwheelMigration
  import TransportMigration

  /** The first owners of the routes met so far in a walk over the entries in key order. */
  predicate OwnersOf(owners: map<string, string>, devices: Devices, left: set<string>) {
    && (forall route <- owners :: Adoption.FirstOwner(devices, route) == Some(owners[route]))
    && (forall k, route :: k in devices && k !in left && route in devices[k].links ==> route in owners)
    && (forall route <- owners :: owners[route] in devices && owners[route] !in left)
  }

  /** A walk in key order has the entries of `left` still before it, with the earlier owners known. */
  predicate Walk(owners: map<string, string>, devices: Devices, left: set<string>) {
    && left <= devices.Keys
    && OwnersOf(owners, devices, left)
    && forall k, j :: k in devices && k !in left && j in left ==> Leq(k, j)
  }

  lemma FirstOwnerNow(owners: map<string, string>, devices: Devices, left: set<string>, key: string, route: string)
    requires Walk(owners, devices, left) && IsLeast(left, key) && route in devices[key].links
    ensures route !in owners <==> Adoption.FirstOwner(devices, route) == Some(key)
  {
    if route !in owners {
      var all := Owners(devices, route);
      assert key in all;
      assert forall k :: k in all ==> k in left;
      LeastIsUnique(all, key);
    }
  }

  /** The links kept are those the entry owns first. */
  lemma KeptAreOwned(owners: map<string, string>, devices: Devices, left: set<string>, key: string)
    requires Walk(owners, devices, left) && IsLeast(left, key)
    ensures devices[key].links - owners.Keys == Adoption.KeptLinks(devices, key)
  {
    forall route | route in devices[key].links
      ensures route !in owners <==> Adoption.FirstOwner(devices, route) == Some(key)
    {
      FirstOwnerNow(owners, devices, left, key, route);
    }
  }

  /** Noting an entry as the owner of its unowned routes carries the walk past it. */
  lemma WalkGoesOn(owners: map<string, string>, devices: Devices, left: set<string>, key: string)
    requires Walk(owners, devices, left) && IsLeast(left, key)
    ensures Walk(WithOwned(owners, devices[key].links, key), devices, left - {key})
  {
    forall route | route in devices[key].links && route !in owners
      ensures Adoption.FirstOwner(devices, route) == Some(key)
    {
      FirstOwnerNow(owners, devices, left, key, route);
    }
  }

  /** The routes of an entry that nobody owned yet, now owned by it. */
  function WithOwned(owners: map<string, string>, links: map<string, LinkConfig>, key: string): map<string, string> {
    (map route | route in links :: key) + owners
  }

  /** What one more route does to the links kept and to the owners noted. */
  lemma OneMoreRoute(
      links: map<string, LinkConfig>, key: string, found: map<string, string>, routes: set<string>, route: string)
    requires route in routes && routes <= links.Keys
    ensures var kept, owners := links - (found.Keys - routes), WithOwned(found, links - routes, key);
            && (route in owners <==> route in found)
            && links - (found.Keys - (routes - {route})) == (if route in found then kept - {route} else kept)
            && WithOwned(found, links - (routes - {route}), key)
               == if route in found then owners else owners[route := key]
  {}

  class LiveConfig {
    var selected: Option<string>
    var devices: Devices

    ghost function View(): Config
      reads this
    {
      Config(selected, devices)
    }

    constructor (config: Config)
      ensures View() == config
    {
      selected, devices := config.selected, config.devices;
    }

    method RepairDuplicateRoutes()
      modifies this
      ensures View() == old(View()).(devices := Adoption.Repaired(old(devices)))
    {
      ghost var before, repaired := devices, Adoption.Repaired(devices);
      Begins(before, repaired);
      var owners: map<string, string> := map[];
      var left := devices.Keys;
      while left != {}
        invariant left <= before.Keys
        invariant selected == old(selected)
        invariant Walk(owners, before, left)
        invariant devices == Midway(before, repaired, left)
      {
        var key := Least(left);
        GoesOn(before, repaired, left, key);
        KeptAreOwned(owners, before, left, key);
        WalkGoesOn(owners, before, left, key);
        var kept: map<string, LinkConfig>;
        kept, owners := RetainUnowned(devices[key].links, key, owners);
        devices := devices[key := devices[key].(links := kept)];
        left := left - {key};
      }
      Finishes(before, repaired);
    }

    /** The links of one entry whose routes nobody earlier owns, and the owners with this entry noted. */
    static method RetainUnowned(links: map<string, LinkConfig>, key: string, found: map<string, string>)
      returns (kept: map<string, LinkConfig>, owners: map<string, string>)
      ensures kept == links - found.Keys
      ensures owners == WithOwned(found, links, key)
    {
      kept, owners := links, found;
      var routes := links.Keys;
      while routes != {}
        invariant routes <= links.Keys
        invariant kept == links - (found.Keys - routes)
        invariant owners == WithOwned(found, links - routes, key)
      {
        var route :| route in routes;
        OneMoreRoute(links, key, found, routes, route);
        if route !in owners {
          owners := owners[route := key];
        } else {
          kept := kept - {route};
        }
        routes := routes - {route};
      }
      assert links - {} == links;
    }

    method RepointReferences(before: string, after: string)
      modifies this
      ensures View() == RenamedReferences(old(View()), map[before := after])
    {
      if selected == Some(before) {
        selected := Some(after);
      }
      RetargetAll(map[before := after]);
    }

    /** Rewrite every host-switch target of every entry. */
    method RetargetAll(rename: map<string, string>)
      modifies this`devices
      ensures devices == map k | k in old(devices) :: WithRenamedTargets(old(devices)[k], rename)
    {
      ghost var before := devices;
      ghost var retargeted := map k | k in before :: WithRenamedTargets(before[k], rename);
      Begins(before, retargeted);
      var left := devices.Keys;
      while left != {}
        invariant left <= before.Keys
        invariant devices == Midway(before, retargeted, left)
      {
        var key :| key in left;
        GoesOn(before, retargeted, left, key);
        var targets := Retarget(devices[key].hostSwitchTargets, rename);
        devices := devices[key := devices[key].(hostSwitchTargets := targets)];
        left := left - {key};
      }
      Finishes(before, retargeted);
    }

    static method Retarget(targets: seq<string>, rename: map<string, string>) returns (renamed: seq<string>)
      ensures renamed == RenamedTargets(targets, rename)
    {
      renamed := targets;
      for i := 0 to |targets|
        invariant |renamed| == |targets|
        invariant forall k :: 0 <= k < |targets| ==>
          renamed[k] == if k < i then Renamed(targets[k], rename) else targets[k]
      {
        if renamed[i] in rename {
          renamed := renamed[i := rename[renamed[i]]];
        }
      }
    }

    /** Take a route away from every entry but one. */
    method ReleaseRoute(canonical: string, route: string) returns (changed: bool)
      modifies this`devices
      ensures devices == Adoption.Released(old(devices), canonical, route)
      ensures changed <==> Owners(old(devices), route) - {canonical} != {}
    {
      ghost var before, released := devices, Adoption.Released(devices, canonical, route);
      ghost var others := Owners(before, route) - {canonical};
      Begins(before, released);
      changed := false;
      var left := devices.Keys;
      while left != {}
        invariant left <= before.Keys
        invariant devices == Midway(before, released, left)
        invariant changed <==> others - left != {}
      {
        var key :| key in left;
        GoesOn(before, released, left, key);
        assert others - (left - {key}) == (others - left) + if key in others then {key} else {};
        if key != canonical {
          if route in devices[key].links {
            changed := true;
          }
          devices := devices[key := devices[key].(links := devices[key].links - {route})];
        } else {
          assert devices[key := devices[key]] == devices;
        }
        left := left - {key};
      }
      Finishes(before, released);
    }

    method AdoptRoute(canonical: string, route: string, capabilities: Option<Capabilities>) returns (changed: bool)
      modifies this
      ensures View() == Adoption.Adopted(old(View()), canonical, route, capabilities)
      ensures changed == Adoption.AdoptionChanges(old(View()), canonical, route, capabilities)
    {
      changed := ReleaseRoute(canonical, route);
      var legacy := None;
      if route != canonical && route in devices {
        legacy := Some(devices[route]);
        devices := devices - {route};
      }
      var device := if canonical in devices then devices[canonical] else DEFAULT_DEVICE;
      if route !in device.links {
        changed := true;
      }
      var link := if route in device.links then device.links[route] else DEFAULT_LINK;
      if capabilities.Some? && link.capabilities != capabilities {
        link := link.(capabilities := capabilities);
        changed := true;
      }
      device := device.(links := device.links[route := link]);
      assert device == Adoption.Sighted(Adoption.EntryOf(old(devices), canonical), route, capabilities);
      if legacy.None? {
        devices := devices[canonical := device];
        return;
      }
      device := FoldInto(device, legacy.value, route);
      devices := devices[canonical := device];
      RepointReferences(route, canonical);
      changed := true;
    }

    method MigrateTransportScopedKeys()
      modifies this
      ensures View() == TransportMigration.Migrated(old(View()))
    {
      var renames := TransportMigration.Renames(Config(selected, devices));
      var left := renames.Keys;
      while left != {}
        invariant left <= renames.Keys
        invariant selected == old(selected)
        invariant forall k <- left :: TransportMigration.Renameable(k)
        invariant TransportMigration.AllMoved(devices, left)
               == TransportMigration.AllMoved(old(devices), renames.Keys)
      {
        var key := Least(left);
        if key in devices {
          MoveEntry(key, renames[key], TransportMigration.RouteOf(key));
        }
        left := left - {key};
      }
      if selected.Some? && selected.value in renames {
        selected := Some(renames[selected.value]);
      }
      RetargetAll(renames);
    }

    /** Move one entry to its new key with its route indexed, folding it into an entry already there. */
    method MoveEntry(key: string, newKey: string, route: string)
      requires TransportMigration.ParseRename(key) == Some((newKey, route)) && key in devices
      modifies this`devices
      ensures devices == TransportMigration.Moved(old(devices), key)
    {
      var device := devices[key];
      devices := devices - {key};
      if route !in device.links {
        device := device.(links := device.links[route := DEFAULT_LINK]);
      }
      assert device == TransportMigration.Indexed(old(devices)[key], route);
      if newKey in devices {
        var folded := FoldInto(devices[newKey], device, route);
        devices := devices[newKey := folded];
      } else {
        devices := devices[newKey := device];
      }
    }

    method MigrateOwnerLockedGestures()
      modifies this`devices
      ensures devices == Loading.GesturesMigrated(old(devices))
    {
      ghost var before, migrated := devices, Loading.GesturesMigrated(devices);
      Begins(before, migrated);
      var left := devices.Keys;
      while left != {}
        invariant left <= before.Keys
        invariant devices == Midway(before, migrated, left)
      {
        var key :| key in left;
        GoesOn(before, migrated, left, key);
        var device := GestureMigration.MigrateDevice(devices[key]);
        devices := devices[key := device];
        left := left - {key};
      }
      Finishes(before, migrated);
    }

    method MigrateThumbwheelNativeDirection()
      modifies this`devices
      ensures devices == Loading.ThumbwheelsMigrated(old(devices))
    {
      ghost var before, migrated := devices, Loading.ThumbwheelsMigrated(devices);
      Begins(before, migrated);
      var left := devices.Keys;
      while left != {}
        invariant left <= before.Keys
        invariant devices == Midway(before, migrated, left)
      {
        var key :| key in left;
        GoesOn(before, migrated, left, key);
        var device := ThumbwheelMigration.MigrateDevice(devices[key]);
        devices := devices[key := device];
        left := left - {key};
      }
      Finishes(before, migrated);
    }

    /** The passes `parse_config` runs on a file of `version`. */
    method Migrate(version: nat)
      modifies this
      ensures View() == Loading.Loaded(old(View()), version)
    {
      if version <= 3 {
        MigrateOwnerLockedGestures();
      }
      assert View() == Loading.AfterGestures(old(View()), version);
      if version <= 4 {
        MigrateTransportScopedKeys();
      }
      if version <= 6 {
        MigrateThumbwheelNativeDirection();
      }
      RepairDuplicateRoutes();
    }

    method SetGestureMode(key: string, button: ButtonId, enabled: bool)
      modifies this`devices
      ensures devices.Keys == old(devices).Keys + {key}
      ensures forall k <- old(devices) :: k != key ==> devices[k] == old(devices)[k]
      ensures var before := Adoption.EntryOf(old(devices), key);
              var modes := GestureMigration.Switched(GestureMigration.ModesOf(before), button, enabled);
              devices[key] == before.(bindings := modes.bindings, disabledGestures := modes.stash)
    {
      var device := if key in devices then devices[key] else DEFAULT_DEVICE;
      var modes := GestureMigration.Switch(GestureMigration.ModesOf(device), button, enabled);
      devices := devices[key := device.(bindings := modes.bindings, disabledGestures := modes.stash)];
    }

    /** The stored bindings of a device with one app's overrides inserted over them. */
    method EffectiveBindingsOf(key: string, overlay: Option<map<ButtonId, Action>>)
      returns (out: map<ButtonId, Binding>)
      ensures out == if key !in devices then map[]
                     else EffectiveBindings(devices[key].bindings, overlay.GetOr(map[]))
    {
      if key !in devices {
        return map[];
      }
      out := devices[key].bindings;
      if overlay.Some? {
        var left := overlay.value.Keys;
        while left != {}
          invariant left <= overlay.value.Keys
          invariant out.Keys == devices[key].bindings.Keys + (overlay.value.Keys - left)
          invariant forall b <- out ::
            out[b] == if b in overlay.value && b !in left then Single(overlay.value[b]) else devices[key].bindings[b]
        {
          var button :| button in left;
          out := out[button := Single(overlay.value[button])];
          left := left - {button};
        }
      }
      assert out == EffectiveBindings(devices[key].bindings, overlay.GetOr(map[]));
    }
  }
}
