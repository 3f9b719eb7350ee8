/** The settings of one device, the links it was reached by, and what applies on each. */
module DeviceConfigs {
  import opened Bindings
  import opened Wrappers

  // Settings that are compared and moved but never looked into.
  type Dpi = nat
  type Setting = int
  type Capabilities = int

  datatype LinkOverrides = LinkOverrides(
    dpi: Option<Dpi>,
    invertScroll: Option<bool>,
    scrollResolution: Option<Setting>,
    lighting: Option<Setting>,
    smartshift: Option<Setting>)

  const NO_OVERRIDES: LinkOverrides := LinkOverrides(None, None, None, None, None)

  datatype LinkConfig = LinkConfig(capabilities: Option<Capabilities>, overrides: LinkOverrides)

  const DEFAULT_LINK: LinkConfig := LinkConfig(None, NO_OVERRIDES)

  datatype Identity = Identity(displayName: string, capabilities: Capabilities, model: Setting)

  datatype GestureOwner = Off | Button(id: ButtonId)

  datatype DeviceConfig = DeviceConfig(
    enabled: bool,
    customName: Option<string>,
    gestureOwner: Option<GestureOwner>,
    identity: Option<Identity>,
    links: map<string, LinkConfig>,
    bindings: map<ButtonId, Binding>,
    disabledGestures: map<ButtonId, GestureMap>,
    perAppBindings: map<string, map<ButtonId, Action>>,
    actionRing: Setting,
    dpiPresets: seq<Dpi>,
    dpi: Option<Dpi>,
    lighting: Option<Setting>,
    light: Option<Setting>,
    smartshift: Option<Setting>,
    cameraControls: Option<Setting>,
    cameraProfiles: map<string, Setting>,
    cameraProfile: Option<string>,
    thumbwheelSensitivity: Option<Setting>,
    invertScroll: bool,
    scrollResolution: Option<Setting>,
    hostSwitchTargets: seq<string>,
    fnLock: Option<bool>)

  /** The action ring that counts as never configured. */
  const DEFAULT_RING: Setting := 0

  const DEFAULT_DEVICE: DeviceConfig := DeviceConfig(
    enabled := true, customName := None, gestureOwner := None, identity := None,
    links := map[], bindings := map[], disabledGestures := map[], perAppBindings := map[],
    actionRing := DEFAULT_RING, dpiPresets := [], dpi := None, lighting := None, light := None,
    smartshift := None, cameraControls := None, cameraProfiles := map[], cameraProfile := None,
    thumbwheelSensitivity := None, invertScroll := false, scrollResolution := None,
    hostSwitchTargets := [], fnLock := None)

  function LinkOf(device: DeviceConfig, route: string): LinkConfig {
    if route in device.links then device.links[route] else DEFAULT_LINK
  }

  /** What applies to the device while it is reached by one route. */
  datatype Effective = Effective(
    dpi: Option<Dpi>,
    invertScroll: bool,
    scrollResolution: Option<Setting>,
    lighting: Option<Setting>,
    smartshift: Option<Setting>)

  function EffectiveDpi(device: DeviceConfig, route: string): Option<Dpi> {
    LinkOf(device, route).overrides.dpi.Or(device.dpi)
  }

  function EffectiveInvertScroll(device: DeviceConfig, route: string): bool {
    LinkOf(device, route).overrides.invertScroll.GetOr(device.invertScroll)
  }

  function EffectiveScrollResolution(device: DeviceConfig, route: string): Option<Setting> {
    LinkOf(device, route).overrides.scrollResolution.Or(device.scrollResolution)
  }

  function EffectiveLighting(device: DeviceConfig, route: string): Option<Setting> {
    LinkOf(device, route).overrides.lighting.Or(device.lighting)
  }

  function EffectiveSmartshift(device: DeviceConfig, route: string): Option<Setting> {
    LinkOf(device, route).overrides.smartshift.Or(device.smartshift)
  }

  function EffectiveOn(device: DeviceConfig, route: string): Effective {
    Effective(
      EffectiveDpi(device, route), EffectiveInvertScroll(device, route), EffectiveScrollResolution(device, route),
      EffectiveLighting(device, route), EffectiveSmartshift(device, route))
  }

  /** Anything at all beyond the probed identity and the route index. */
  predicate HoldsSettings(device: DeviceConfig) {
    device.(identity := None, links := map[]) != DEFAULT_DEVICE
  }

  /** The probed identity and the route index never count, and everything else does. */
  lemma MetadataIsNotSettings(device: DeviceConfig, identity: Option<Identity>, links: map<string, LinkConfig>)
    ensures HoldsSettings(device.(identity := identity, links := links)) == HoldsSettings(device)
    ensures HoldsSettings(device) <==> device != DEFAULT_DEVICE.(identity := device.identity, links := device.links)
  {}
}
