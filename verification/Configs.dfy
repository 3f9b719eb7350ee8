/** The configuration as a value: the entries by key and the references between them. */
module Configs {
  import opened DeviceConfigs
  import opened Wrappers

  type Devices = map<string, DeviceConfig>

  datatype Config = Config(selected: Option<string>, devices: Devices)

  /** Who refers to a device key: the selection and every host-switch target. */
  predicate Refers(config: Config, key: string) {
    || config.selected == Some(key)
    || exists k :: k in config.devices && key in config.devices[k].hostSwitchTargets
  }

  /** A reference to an entry that is not there. */
  predicate Dangles(config: Config, key: string) { Refers(config, key) && key !in config.devices }

  /** The entries whose link table holds a route. */
  function Owners(devices: Devices, route: string): set<string> {
    set k | k in devices && route in devices[k].links
  }

  /** No route is in two link tables. */
  predicate OneOwnerEach(devices: Devices) {
    forall j, k, route :: j in devices && k in devices && route in devices[j].links && route in devices[k].links
      ==> j == k
  }

  predicate Holds(devices: Devices, key: string) { key in devices && HoldsSettings(devices[key]) }

  /** Every key renamed by `rename`, which leaves the others alone. */
  function RenamedTargets(targets: seq<string>, rename: map<string, string>): (renamed: seq<string>)
    ensures |renamed| == |targets|
  {
    seq(|targets|, i requires 0 <= i < |targets| => Renamed(targets[i], rename))
  }

  function Renamed(key: string, rename: map<string, string>): string {
    if key in rename then rename[key] else key
  }

  function WithRenamedTargets(device: DeviceConfig, rename: map<string, string>): DeviceConfig {
    device.(hostSwitchTargets := RenamedTargets(device.hostSwitchTargets, rename))
  }

  /** Every reference rewritten by one renaming. */
  function RenamedReferences(config: Config, rename: map<string, string>): Config {
    Config(
      if config.selected.Some? then Some(Renamed(config.selected.value, rename)) else None,
      map k | k in config.devices :: WithRenamedTargets(config.devices[k], rename))
  }

  lemma RenamingKeepsSettings(device: DeviceConfig, rename: map<string, string>)
    ensures HoldsSettings(WithRenamedTargets(device, rename)) == HoldsSettings(device)
  {
    if device.hostSwitchTargets == [] {
      assert RenamedTargets(device.hostSwitchTargets, rename) == [];
    }
  }

  lemma NothingToRename(targets: seq<string>, rename: map<string, string>)
    requires forall t <- targets :: t !in rename
    ensures RenamedTargets(targets, rename) == targets
  {}
}
