/** The separately settable parts of a device entry, and what a merge does to each. */
module DeviceParts {
  import opened Bindings
  import opened DeviceConfigs
  import opened Fold
  import opened Wrappers

  /** Everything a merge decides on its own; inversion and links have rules of their own. */
  datatype Part =
    | Disabling | CustomName | Identified
    | Press(button: ButtonId) | Stash(button: ButtonId) | Overlay(app: string) | CameraProfile(name: string)
    | Ring | DpiPresets | DpiValue | Lighting | Light | SmartShift | CameraControls | CurrentProfile
    | WheelSensitivity | ScrollResolution | HostTargets | FnLock

  /** The entry sets the part. */
  predicate Has(d: DeviceConfig, part: Part) {
    match part
    case Disabling => !d.enabled
    case CustomName => d.customName.Some?
    case Identified => d.identity.Some?
    case Press(b) => b in d.bindings
    case Stash(b) => b in d.disabledGestures
    case Overlay(app) => app in d.perAppBindings
    case CameraProfile(name) => name in d.cameraProfiles
    case Ring => d.actionRing != DEFAULT_RING
    case DpiPresets => d.dpiPresets != []
    case DpiValue => d.dpi.Some?
    case Lighting => d.lighting.Some?
    case Light => d.light.Some?
    case SmartShift => d.smartshift.Some?
    case CameraControls => d.cameraControls.Some?
    case CurrentProfile => d.cameraProfile.Some?
    case WheelSensitivity => d.thumbwheelSensitivity.Some?
    case ScrollResolution => d.scrollResolution.Some?
    case HostTargets => d.hostSwitchTargets != []
    case FnLock => d.fnLock.Some?
  }

  /** Two maps agree on a key, or both lack it. */
  predicate SameAt<K, V(==)>(x: map<K, V>, y: map<K, V>, key: K) {
    if key in x then key in y && x[key] == y[key] else key !in y
  }

  /** The two entries agree on the part. */
  predicate Same(x: DeviceConfig, y: DeviceConfig, part: Part) {
    match part
    case Disabling => x.enabled == y.enabled
    case CustomName => x.customName == y.customName
    case Identified => x.identity == y.identity
    case Press(b) => SameAt(x.bindings, y.bindings, b)
    case Stash(b) => SameAt(x.disabledGestures, y.disabledGestures, b)
    case Overlay(app) => SameAt(x.perAppBindings, y.perAppBindings, app)
    case CameraProfile(name) => SameAt(x.cameraProfiles, y.cameraProfiles, name)
    case Ring => x.actionRing == y.actionRing
    case DpiPresets => x.dpiPresets == y.dpiPresets
    case DpiValue => x.dpi == y.dpi
    case Lighting => x.lighting == y.lighting
    case Light => x.light == y.light
    case SmartShift => x.smartshift == y.smartshift
    case CameraControls => x.cameraControls == y.cameraControls
    case CurrentProfile => x.cameraProfile == y.cameraProfile
    case WheelSensitivity => x.thumbwheelSensitivity == y.thumbwheelSensitivity
    case ScrollResolution => x.scrollResolution == y.scrollResolution
    case HostTargets => x.hostSwitchTargets == y.hostSwitchTargets
    case FnLock => x.fnLock == y.fnLock
  }

  /** Every part is the canonical entry's where it sets it, and the legacy entry's otherwise. */
  lemma CanonicalPartWins(device: DeviceConfig, legacy: DeviceConfig, route: string, part: Part)
    ensures var folded := Folded(device, legacy, route);
            && Same(folded, if Has(device, part) then device else legacy, part)
            && (Has(folded, part) <==> Has(device, part) || Has(legacy, part))
  {}

  lemma SameIsTransitive(x: DeviceConfig, y: DeviceConfig, z: DeviceConfig, part: Part)
    requires Same(x, y, part) && Same(y, z, part)
    ensures Same(x, z, part)
  {}

  lemma SameHas(x: DeviceConfig, y: DeviceConfig, part: Part)
    requires Same(x, y, part)
    ensures Has(x, part) == Has(y, part)
  {}
}
