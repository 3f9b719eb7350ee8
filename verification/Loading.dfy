/** The passes a loaded configuration goes through, by the schema version its file declares. */
module Loading {
  import opened Adoption
  import opened Configs
  import opened DeviceConfigs
  import opened Wrappers
  import GestureMigration
  import ThumbwheelMigration
  import TransportMigration

  const SCHEMA_VERSION: nat := 7

  function GesturesMigrated(devices: Devices): Devices {
    map k | k in devices :: GestureMigration.Migrated(devices[k])
  }

  function ThumbwheelsMigrated(devices: Devices): Devices {
    map k | k in devices :: ThumbwheelMigration.Migrated(devices[k])
  }

  function AfterGestures(config: Config, version: nat): Config {
    if version <= 3 then config.(devices := GesturesMigrated(config.devices)) else config
  }

  function AfterKeys(config: Config, version: nat): Config {
    if version <= 4 then TransportMigration.Migrated(config) else config
  }

  function AfterWheels(config: Config, version: nat): Config {
    if version <= 6 then config.(devices := ThumbwheelsMigrated(config.devices)) else config
  }

  function AfterRepair(config: Config): Config { config.(devices := Repaired(config.devices)) }

  /** A parsed file of `version` after every pass it needs. */
  function Loaded(config: Config, version: nat): Config {
    AfterRepair(AfterWheels(AfterKeys(AfterGestures(config, version), version), version))
  }

  /** Two configurations that mention the same keys in the same places. */
  predicate SameReferences(x: Config, y: Config) {
    && x.selected == y.selected
    && x.devices.Keys == y.devices.Keys
    && forall k <- x.devices :: x.devices[k].hostSwitchTargets == y.devices[k].hostSwitchTargets
  }

  lemma SameMentioned(x: Config, y: Config)
    requires SameReferences(x, y)
    ensures TransportMigration.Mentioned(x) == TransportMigration.Mentioned(y)
  {
    assert (set k, t | k in x.devices && t in x.devices[k].hostSwitchTargets :: t)
        == (set k, t | k in y.devices && t in y.devices[k].hostSwitchTargets :: t);
  }

  /** Only the key migration changes what is mentioned. */
  lemma OtherPassesKeepMentioned(config: Config, version: nat)
    ensures TransportMigration.Mentioned(AfterGestures(config, version)) == TransportMigration.Mentioned(config)
    ensures TransportMigration.Mentioned(AfterWheels(config, version)) == TransportMigration.Mentioned(config)
    ensures TransportMigration.Mentioned(AfterRepair(config)) == TransportMigration.Mentioned(config)
  {
    SameMentioned(AfterGestures(config, version), config);
    SameMentioned(AfterWheels(config, version), config);
    SameMentioned(AfterRepair(config), config);
  }

  /** Whatever its version, a loaded configuration indexes each route once. */
  lemma LoadedRoutesHaveOneOwner(config: Config, version: nat)
    ensures OneOwnerEach(Loaded(config, version).devices)
  {
    RepairedHasOneOwner(AfterWheels(AfterKeys(AfterGestures(config, version), version), version).devices);
  }

  /** A file with transport-scoped keys is loaded without any, but for what nested ones were unwrapped to. */
  lemma LoadedKeysAreFinal(config: Config, version: nat, key: string)
    requires version <= 4 && TransportMigration.Renameable(key)
    requires key in Loaded(config, version).devices || Refers(Loaded(config, version), key)
    ensures exists was :: TransportMigration.Unwrapped(config, key, was)
  {
    var gestures := AfterGestures(config, version);
    var keys := AfterKeys(gestures, version);
    OtherPassesKeepMentioned(config, version);
    OtherPassesKeepMentioned(keys, version);
    OtherPassesKeepMentioned(AfterWheels(keys, version), version);
    TransportMigration.MentionedExactly(Loaded(config, version), key);
    TransportMigration.OnlyUnwrappedKeysAreLeft(gestures, key);
    var was :| TransportMigration.Unwrapped(gestures, key, was);
    assert TransportMigration.Unwrapped(config, key, was);
  }

  /** Which passes a file goes through, in which order: repair always, the others by its version. */
  lemma PassesByVersion(config: Config, version: nat)
    ensures Loaded(config, version)
            == if version >= 7 then AfterRepair(config)
               else if version >= 5 then
                 AfterRepair(config.(devices := ThumbwheelsMigrated(config.devices)))
               else
                 var gestures :=
                   if version == 4 then config else config.(devices := GesturesMigrated(config.devices));
                 var keys := TransportMigration.Migrated(gestures);
                 AfterRepair(keys.(devices := ThumbwheelsMigrated(keys.devices)))
  {}

  /** A file of version 5 or newer keeps its keys and references, and one of 7 everything but duplicate routes. */
  lemma NewerFilesKeepTheirKeys(config: Config, version: nat, key: string)
    ensures version >= 5 ==>
              && Loaded(config, version).selected == config.selected
              && Loaded(config, version).devices.Keys == config.devices.Keys
              && (key in config.devices ==>
                    Loaded(config, version).devices[key].hostSwitchTargets == config.devices[key].hostSwitchTargets)
    ensures version >= 7 && key in config.devices ==>
              Loaded(config, version).devices[key].(links := map[]) == config.devices[key].(links := map[])
  {}

  /** Loading what was loaded, as the current version, changes nothing. */
  lemma LoadingAgainIsIdle(config: Config, version: nat)
    ensures Loaded(Loaded(config, version), SCHEMA_VERSION) == Loaded(config, version)
  {
    LoadedRoutesHaveOneOwner(config, version);
    RepairIsIdleExactly(Loaded(config, version).devices);
  }

  /** A file that is current already is loaded as it is exactly when no route is indexed twice. */
  lemma CurrentFilesLoadAsTheyAreExactly(config: Config)
    ensures Loaded(config, SCHEMA_VERSION) == config <==> OneOwnerEach(config.devices)
  {
    RepairIsIdleExactly(config.devices);
  }
}
