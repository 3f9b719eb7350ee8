/** The strings a device is keyed by at run time, by route and in the configuration. */
module DeviceKeys {
  import opened Machine
  import opened Text
  import opened Wrappers

  datatype UnitId = UnitId(b0: U8, b1: U8, b2: U8, b3: U8)

  const ZERO_UNIT: UnitId := UnitId(0, 0, 0, 0)

  /** A device's own identity. */
  datatype DeviceIdentity = Serial(serial: string) | Unit(unit: UnitId)

  datatype StableId =
    | Bolt(receiverUid: string, slot: U8)
    | Direct(vendor: U16, product: U16, identity: DeviceIdentity)
    | RawHid(vendor: U16, product: U16, usagePage: U16, usageId: U16, node: string)
    | Unknown(slot: U8, identity: DeviceIdentity)

  function HexUnit(unit: UnitId): string { Hex2(unit.b0) + Hex2(unit.b1) + Hex2(unit.b2) + Hex2(unit.b3) }

  predicate IsPhysical(identity: DeviceIdentity) {
    match identity
    case Serial(serial) => serial != ""
    case Unit(unit) => unit != ZERO_UNIT
  }

  /** The bare fragment of an identity. */
  function IdentityKey(identity: DeviceIdentity): string {
    match identity
    case Serial(serial) => "serial:" + serial
    case Unit(unit) => "unit:" + HexUnit(unit)
  }

  function RuntimeKey(id: StableId): string {
    match id
    case Bolt(uid, slot) => "receiver:" + (uid + ":slot:" + Decimal(slot))
    case Direct(vendor, product, identity) =>
      "direct:" + (Hex4(vendor) + [':'] + (Hex4(product) + [':'] + IdentityKey(identity)))
    case RawHid(vendor, product, page, usage, node) =>
      "raw:" + (Hex4(vendor) + [':'] + (Hex4(product) + [':'] + (Hex4(page) + [':'] + (Hex4(usage) + [':'] + node))))
    case Unknown(slot, identity) => "unknown:slot:" + (Decimal(slot) + [':'] + IdentityKey(identity))
  }

  /** The key of the path alone: a direct device's identity moves to the entry key. */
  function RouteKey(id: StableId): string {
    if id.Direct? then "direct:" + (Hex4(id.vendor) + [':'] + Hex4(id.product)) else RuntimeKey(id)
  }

  predicate RawIdentityIsPhysical(value: string) {
    || (StartsWith(value, "serial:") && value[7..] != "")
    || (StartsWith(value, "stable:") && value[7..] != "")
  }

  function PhysicalKey(id: StableId): Option<string> {
    match id
    case Bolt(_, _) => Some(RuntimeKey(id))
    case Direct(_, _, identity) => if IsPhysical(identity) then Some(RuntimeKey(id)) else None
    case Unknown(_, identity) => if IsPhysical(identity) then Some(RuntimeKey(id)) else None
    case RawHid(_, _, _, _, node) => if RawIdentityIsPhysical(node) then Some(RuntimeKey(id)) else None
  }

  // ---------------------------------------------------------------------
  // Reading keys back
  // ---------------------------------------------------------------------

  predicate IsHexWord(s: string) { |s| == 4 && AllHex(s) }

  predicate ReceiverKeyIsValid(value: string) {
    match StripPrefix(value, "receiver:")
    case None => false
    case Some(rest) =>
      match RSplitOnce(rest, ":slot:")
      case None => false
      case Some((uid, slot)) => uid != "" && ParseU8(slot).Some?
  }

  function DirectIdentityFragment(value: string): Option<string> {
    match StripPrefix(value, "direct:")
    case None => None
    case Some(rest) =>
      match SplitOnce(rest, ':')
      case None => None
      case Some((vendor, rest)) =>
        match SplitOnce(rest, ':')
        case None => None
        case Some((product, identity)) =>
          if IsHexWord(vendor) && IsHexWord(product) then Some(identity) else None
  }

  function RawIdentityFragment(value: string): Option<string> {
    match StripPrefix(value, "raw:")
    case None => None
    case Some(rest) =>
      match SplitOnce(rest, ':')
      case None => None
      case Some((vendor, rest)) =>
        match SplitOnce(rest, ':')
        case None => None
        case Some((product, rest)) =>
          match SplitOnce(rest, ':')
          case None => None
          case Some((page, rest)) =>
            match SplitOnce(rest, ':')
            case None => None
            case Some((usage, node)) =>
              if IsHexWord(vendor) && IsHexWord(product) && IsHexWord(page) && IsHexWord(usage) && node != ""
              then Some(node) else None
  }

  function UnknownIdentityFragment(value: string): Option<string> {
    match StripPrefix(value, "unknown:slot:")
    case None => None
    case Some(rest) =>
      match SplitOnce(rest, ':')
      case None => None
      case Some((slot, identity)) => if ParseU8(slot).Some? then Some(identity) else None
  }

  predicate IdentityFragmentIsPhysical(value: string) {
    || (StartsWith(value, "serial:") && value[7..] != "")
    || (StartsWith(value, "unit:")
        && |value[5..]| == 8 && AllHex(value[5..]) && value[5..] != "00000000")
  }

  predicate FragmentIs(fragment: Option<string>, p: string -> bool) { fragment.Some? && p(fragment.value) }

  /** `PhysicalDeviceKey::parse` succeeds. */
  predicate Parses(value: string) {
    || ReceiverKeyIsValid(value)
    || FragmentIs(DirectIdentityFragment(value), IdentityFragmentIsPhysical)
    || FragmentIs(RawIdentityFragment(value), RawIdentityIsPhysical)
    || FragmentIs(UnknownIdentityFragment(value), IdentityFragmentIsPhysical)
    || IdentityFragmentIsPhysical(value)
  }

  predicate IsTransient(value: string) {
    || DirectIdentityFragment(value).Or(UnknownIdentityFragment(value)) == Some("unit:00000000")
    || (RawIdentityFragment(value).Some?
        && (StartsWith(RawIdentityFragment(value).value, "id:") || RawIdentityFragment(value).value == ""))
  }

  // ---------------------------------------------------------------------
  // Which strings are read as device keys
  // ---------------------------------------------------------------------

  /** `serial:` and anything, or `unit:` and eight hexadecimal digits that are not all zero. */
  ghost predicate IsIdentity(value: string) {
    || (exists text :: text != "" && value == "serial:" + text)
    || (exists digits :: |digits| == 8 && AllHex(digits) && digits != "00000000" && value == "unit:" + digits)
  }

  predicate IsReceiverKey(value: string, uid: string, slot: string) {
    uid != "" && ParseU8(slot).Some? && value == "receiver:" + (uid + ":slot:" + slot)
  }

  ghost predicate IsDirect(value: string, vendor: string, product: string, identity: string) {
    && IsHexWord(vendor) && IsHexWord(product) && IsIdentity(identity)
    && value == "direct:" + (vendor + [':'] + (product + [':'] + identity))
  }

  ghost predicate IsUnknown(value: string, slot: string, identity: string) {
    ParseU8(slot).Some? && IsIdentity(identity) && value == "unknown:slot:" + (slot + [':'] + identity)
  }

  ghost predicate IsRaw(value: string, vendor: string, product: string, page: string, usage: string, node: string) {
    && IsHexWord(vendor) && IsHexWord(product) && IsHexWord(page) && IsHexWord(usage)
    && (exists text :: text != "" && (node == "serial:" + text || node == "stable:" + text))
    && value == "raw:" + (vendor + [':'] + (product + [':'] + (page + [':'] + (usage + [':'] + node))))
  }

  lemma IdentityExactly(value: string)
    ensures IdentityFragmentIsPhysical(value) <==> IsIdentity(value)
  {
    if StartsWith(value, "serial:") {
      assert value == "serial:" + value[7..];
    }
    if StartsWith(value, "unit:") {
      assert value == "unit:" + value[5..];
    }
    forall text ensures ("serial:" + text)[7..] == text && ("unit:" + text)[5..] == text {}
  }

  lemma RawNodeExactly(node: string)
    ensures RawIdentityIsPhysical(node)
            <==> exists text :: text != "" && (node == "serial:" + text || node == "stable:" + text)
  {
    if StartsWith(node, "serial:") {
      assert node == "serial:" + node[7..];
    }
    if StartsWith(node, "stable:") {
      assert node == "stable:" + node[7..];
    }
    forall text ensures ("serial:" + text)[7..] == text && ("stable:" + text)[7..] == text {}
  }

  lemma WordsHaveNoColon(s: string)
    ensures IsHexWord(s) ==> ':' !in s
    ensures ParseU8(s).Some? ==> ':' !in s
  {
    if ParseU8(s).Some? {
      var digits := if StartsWith(s, "+") then s[1..] else s;
      assert AllDigits(digits) && ':' !in digits;
      if StartsWith(s, "+") {
        assert s[0] == '+' && s == [s[0]] + digits;
      }
    }
  }

  lemma AfterPrefix(prefix: string, rest: string)
    ensures StripPrefix(prefix + rest, prefix) == Some(rest)
  {
    assert (prefix + rest)[|prefix|..] == rest;
  }

  lemma ReceiverExactly(value: string)
    ensures ReceiverKeyIsValid(value) <==> exists uid, slot :: IsReceiverKey(value, uid, slot)
  {
    if ReceiverKeyIsValid(value) {
      var rest := value[9..];
      assert value == "receiver:" + rest;
      var (uid, slot) := RSplitOnce(rest, ":slot:").value;
      RSplitFromRejoins(rest, ":slot:", |rest| - 6);
      assert IsReceiverKey(value, uid, slot);
    }
    if uid, slot :| IsReceiverKey(value, uid, slot) {
      WordsHaveNoColon(slot);
      AfterPrefix("receiver:", uid + ":slot:" + slot);
      RSplitsAtLast(uid, ":slot:", slot);
    }
  }

  lemma DirectExactly(value: string)
    ensures FragmentIs(DirectIdentityFragment(value), IdentityFragmentIsPhysical)
            <==> exists vendor, product, identity :: IsDirect(value, vendor, product, identity)
  {
    if FragmentIs(DirectIdentityFragment(value), IdentityFragmentIsPhysical) {
      var rest := value[7..];
      assert value == "direct:" + rest;
      var (vendor, tail) := SplitOnce(rest, ':').value;
      var (product, identity) := SplitOnce(tail, ':').value;
      SplitRejoins(rest, ':');
      SplitRejoins(tail, ':');
      IdentityExactly(identity);
      assert IsDirect(value, vendor, product, identity);
    }
    if vendor, product, identity :| IsDirect(value, vendor, product, identity) {
      WordsHaveNoColon(vendor);
      WordsHaveNoColon(product);
      AfterPrefix("direct:", vendor + [':'] + (product + [':'] + identity));
      SplitsAtFirst(vendor, ':', product + [':'] + identity);
      SplitsAtFirst(product, ':', identity);
      IdentityExactly(identity);
    }
  }

  lemma UnknownExactly(value: string)
    ensures FragmentIs(UnknownIdentityFragment(value), IdentityFragmentIsPhysical)
            <==> exists slot, identity :: IsUnknown(value, slot, identity)
  {
    if FragmentIs(UnknownIdentityFragment(value), IdentityFragmentIsPhysical) {
      var rest := value[13..];
      assert value == "unknown:slot:" + rest;
      var (slot, identity) := SplitOnce(rest, ':').value;
      SplitRejoins(rest, ':');
      IdentityExactly(identity);
      assert IsUnknown(value, slot, identity);
    }
    if slot, identity :| IsUnknown(value, slot, identity) {
      WordsHaveNoColon(slot);
      AfterPrefix("unknown:slot:", slot + [':'] + identity);
      SplitsAtFirst(slot, ':', identity);
      IdentityExactly(identity);
    }
  }

  lemma RawIsCut(value: string)
    requires FragmentIs(RawIdentityFragment(value), RawIdentityIsPhysical)
    ensures exists vendor, product, page, usage, node :: IsRaw(value, vendor, product, page, usage, node)
  {
    var rest := value[4..];
    assert value == "raw:" + rest;
    var (vendor, tail1) := SplitOnce(rest, ':').value;
    var (product, tail2) := SplitOnce(tail1, ':').value;
    var (page, tail3) := SplitOnce(tail2, ':').value;
    var (usage, node) := SplitOnce(tail3, ':').value;
    SplitRejoins(rest, ':');
    SplitRejoins(tail1, ':');
    SplitRejoins(tail2, ':');
    SplitRejoins(tail3, ':');
    RawNodeExactly(node);
    assert IsRaw(value, vendor, product, page, usage, node);
  }

  lemma RawIsRead(value: string, vendor: string, product: string, page: string, usage: string, node: string)
    requires IsRaw(value, vendor, product, page, usage, node)
    ensures FragmentIs(RawIdentityFragment(value), RawIdentityIsPhysical)
  {
    WordsHaveNoColon(vendor);
    WordsHaveNoColon(product);
    WordsHaveNoColon(page);
    WordsHaveNoColon(usage);
    var tail3 := usage + [':'] + node;
    var tail2 := page + [':'] + tail3;
    var tail1 := product + [':'] + tail2;
    AfterPrefix("raw:", vendor + [':'] + tail1);
    SplitsAtFirst(vendor, ':', tail1);
    SplitsAtFirst(product, ':', tail2);
    SplitsAtFirst(page, ':', tail3);
    SplitsAtFirst(usage, ':', node);
    RawNodeExactly(node);
  }

  lemma RawExactly(value: string)
    ensures FragmentIs(RawIdentityFragment(value), RawIdentityIsPhysical)
            <==> exists vendor, product, page, usage, node :: IsRaw(value, vendor, product, page, usage, node)
  {
    if FragmentIs(RawIdentityFragment(value), RawIdentityIsPhysical) {
      RawIsCut(value);
    }
    if vendor, product, page, usage, node :| IsRaw(value, vendor, product, page, usage, node) {
      RawIsRead(value, vendor, product, page, usage, node);
    }
  }

  /** A string is read as a device key exactly when it is one of the five kinds of key, part by part. */
  lemma ParsesExactly(value: string)
    ensures Parses(value)
            <==> || (exists uid, slot :: IsReceiverKey(value, uid, slot))
                 || (exists vendor, product, identity :: IsDirect(value, vendor, product, identity))
                 || (exists vendor, product, page, usage, node :: IsRaw(value, vendor, product, page, usage, node))
                 || (exists slot, identity :: IsUnknown(value, slot, identity))
                 || IsIdentity(value)
  {
    ReceiverExactly(value);
    DirectExactly(value);
    RawExactly(value);
    UnknownExactly(value);
    IdentityExactly(value);
  }

  // ---------------------------------------------------------------------
  // Writing and reading agree
  // ---------------------------------------------------------------------

  lemma HexWordsHaveNoColon(n: U16)
    ensures IsHexWord(Hex4(n)) && ':' !in Hex4(n)
  {}

  lemma HexUnitIsHex(unit: UnitId)
    ensures |HexUnit(unit)| == 8 && AllHex(HexUnit(unit))
    ensures HexUnit(unit) == "00000000" <==> unit == ZERO_UNIT
  {
    assert HexUnit(ZERO_UNIT) == "00000000";
    if HexUnit(unit) == "00000000" {
      HexUnitInjective(unit, ZERO_UNIT);
    }
  }

  lemma HexUnitInjective(x: UnitId, y: UnitId)
    requires HexUnit(x) == HexUnit(y)
    ensures x == y
  {
    assert Hex2(x.b0) == HexUnit(x)[..2] && Hex2(y.b0) == HexUnit(y)[..2];
    assert Hex2(x.b1) == HexUnit(x)[2..4] && Hex2(y.b1) == HexUnit(y)[2..4];
    assert Hex2(x.b2) == HexUnit(x)[4..6] && Hex2(y.b2) == HexUnit(y)[4..6];
    assert Hex2(x.b3) == HexUnit(x)[6..] && Hex2(y.b3) == HexUnit(y)[6..];
    Hex2Injective(x.b0, y.b0);
    Hex2Injective(x.b1, y.b1);
    Hex2Injective(x.b2, y.b2);
    Hex2Injective(x.b3, y.b3);
  }

  lemma IdentityKeyInjective(x: DeviceIdentity, y: DeviceIdentity)
    requires IdentityKey(x) == IdentityKey(y)
    ensures x == y
  {
    assert x.Serial? <==> IdentityKey(x)[0] == 's';
    assert y.Serial? <==> IdentityKey(y)[0] == 's';
    if x.Serial? {
      assert x.serial == IdentityKey(x)[7..] && y.serial == IdentityKey(y)[7..];
    } else {
      assert HexUnit(x.unit) == IdentityKey(x)[5..] && HexUnit(y.unit) == IdentityKey(y)[5..];
      HexUnitInjective(x.unit, y.unit);
    }
  }

  /** An identity's fragment reads as physical exactly when the identity is. */
  lemma IdentityKeyReads(identity: DeviceIdentity)
    ensures IdentityFragmentIsPhysical(IdentityKey(identity)) <==> IsPhysical(identity)
  {
    var key := IdentityKey(identity);
    if identity.Serial? {
      assert key[7..] == identity.serial;
      assert key[0] == 's';
    } else {
      HexUnitIsHex(identity.unit);
      assert key[5..] == HexUnit(identity.unit);
      assert key[0] == 'u';
    }
  }

  lemma DirectKeyReads(id: StableId)
    requires id.Direct?
    ensures DirectIdentityFragment(RuntimeKey(id)) == Some(IdentityKey(id.identity))
  {
    HexWordsHaveNoColon(id.vendor);
    HexWordsHaveNoColon(id.product);
    var tail := Hex4(id.product) + [':'] + IdentityKey(id.identity);
    SplitsAtFirst(Hex4(id.vendor), ':', tail);
    SplitsAtFirst(Hex4(id.product), ':', IdentityKey(id.identity));
    assert RuntimeKey(id)[7..] == Hex4(id.vendor) + [':'] + tail;
  }

  lemma RawKeyReads(id: StableId)
    requires id.RawHid? && id.node != ""
    ensures RawIdentityFragment(RuntimeKey(id)) == Some(id.node)
  {
    HexWordsHaveNoColon(id.vendor);
    HexWordsHaveNoColon(id.product);
    HexWordsHaveNoColon(id.usagePage);
    HexWordsHaveNoColon(id.usageId);
    var tail3 := Hex4(id.usageId) + [':'] + id.node;
    var tail2 := Hex4(id.usagePage) + [':'] + tail3;
    var tail1 := Hex4(id.product) + [':'] + tail2;
    SplitsAtFirst(Hex4(id.vendor), ':', tail1);
    SplitsAtFirst(Hex4(id.product), ':', tail2);
    SplitsAtFirst(Hex4(id.usagePage), ':', tail3);
    SplitsAtFirst(Hex4(id.usageId), ':', id.node);
    assert RuntimeKey(id)[4..] == Hex4(id.vendor) + [':'] + tail1;
  }

  lemma UnknownKeyReads(id: StableId)
    requires id.Unknown?
    ensures UnknownIdentityFragment(RuntimeKey(id)) == Some(IdentityKey(id.identity))
    ensures SplitOnce(RuntimeKey(id)[13..], ':') == Some((Decimal(id.slot), IdentityKey(id.identity)))
  {
    DecimalRoundTrip(id.slot);
    SplitsAtFirst(Decimal(id.slot), ':', IdentityKey(id.identity));
    assert RuntimeKey(id)[13..] == Decimal(id.slot) + [':'] + IdentityKey(id.identity);
  }

  lemma BoltKeyReads(id: StableId)
    requires id.Bolt?
    ensures RSplitOnce(RuntimeKey(id)[9..], ":slot:") == Some((id.receiverUid, Decimal(id.slot)))
    ensures ReceiverKeyIsValid(RuntimeKey(id)) <==> id.receiverUid != ""
  {
    DecimalRoundTrip(id.slot);
    RSplitsAtLast(id.receiverUid, ":slot:", Decimal(id.slot));
    assert RuntimeKey(id)[9..] == id.receiverUid + ":slot:" + Decimal(id.slot);
  }

  /** The three characters every key of a format starts with. */
  function Lead(id: StableId): string {
    match id
    case Bolt(_, _) => "rec"
    case Direct(_, _, _) => "dir"
    case RawHid(_, _, _, _, _) => "raw"
    case Unknown(_, _) => "unk"
  }

  lemma LeadOf(head: string, tail: string)
    requires |head| >= 3
    ensures (head + tail)[..3] == head[..3]
  {}

  lemma LeadsTheKey(id: StableId)
    ensures |RuntimeKey(id)| >= 3 && RuntimeKey(id)[..3] == Lead(id)
    ensures |RouteKey(id)| >= 3 && RouteKey(id)[..3] == Lead(id)
  {
    match id {
      case Bolt(uid, slot) =>
        LeadOf("receiver:", uid + ":slot:" + Decimal(slot));
      case Direct(vendor, product, identity) =>
        LeadOf("direct:", Hex4(vendor) + [':'] + (Hex4(product) + [':'] + IdentityKey(identity)));
        LeadOf("direct:", Hex4(vendor) + [':'] + Hex4(product));
      case RawHid(vendor, product, page, usage, node) =>
        var tail := Hex4(page) + [':'] + (Hex4(usage) + [':'] + node);
        LeadOf("raw:", Hex4(vendor) + [':'] + (Hex4(product) + [':'] + tail));
      case Unknown(slot, identity) =>
        LeadOf("unknown:slot:", Decimal(slot) + [':'] + IdentityKey(identity));
    }
  }

  /** The leading characters tell the formats apart. */
  lemma LeadsDiffer(x: StableId, y: StableId)
    requires Lead(x) == Lead(y)
    ensures x.Bolt? <==> y.Bolt?
    ensures x.Direct? <==> y.Direct?
    ensures x.RawHid? <==> y.RawHid?
    ensures x.Unknown? <==> y.Unknown?
  {
    assert "rec"[1] == 'e' && "dir"[1] == 'i' && "raw"[1] == 'a' && "unk"[1] == 'n';
  }

  lemma DirectKeyInjective(x: StableId, y: StableId)
    requires x.Direct? && y.Direct? && RuntimeKey(x) == RuntimeKey(y)
    ensures x == y
  {
    var xs, ys := Hex4(x.product) + [':'] + IdentityKey(x.identity), Hex4(y.product) + [':'] + IdentityKey(y.identity);
    SameHead("direct:", Hex4(x.vendor) + [':'] + xs, Hex4(y.vendor) + [':'] + ys);
    SameWord(x.vendor, xs, y.vendor, ys);
    SameWord(x.product, IdentityKey(x.identity), y.product, IdentityKey(y.identity));
    IdentityKeyInjective(x.identity, y.identity);
  }

  lemma SameHead(head: string, x: string, y: string)
    requires head + x == head + y
    ensures x == y
  {
    assert x == (head + x)[|head|..];
    assert y == (head + y)[|head|..];
  }

  lemma SameWord(m: U16, x: string, n: U16, y: string)
    requires Hex4(m) + [':'] + x == Hex4(n) + [':'] + y
    ensures m == n && x == y
  {
    var s := Hex4(m) + [':'] + x;
    assert s[..4] == Hex4(m) && s[5..] == x;
    assert s == Hex4(n) + [':'] + y;
    assert s[..4] == Hex4(n) && s[5..] == y;
    Hex4Injective(m, n);
  }

  lemma RawKeyInjective(x: StableId, y: StableId)
    requires x.RawHid? && y.RawHid? && RuntimeKey(x) == RuntimeKey(y)
    ensures x == y
  {
    var x3, y3 := Hex4(x.usageId) + [':'] + x.node, Hex4(y.usageId) + [':'] + y.node;
    var x2, y2 := Hex4(x.usagePage) + [':'] + x3, Hex4(y.usagePage) + [':'] + y3;
    var x1, y1 := Hex4(x.product) + [':'] + x2, Hex4(y.product) + [':'] + y2;
    SameHead("raw:", Hex4(x.vendor) + [':'] + x1, Hex4(y.vendor) + [':'] + y1);
    SameWord(x.vendor, x1, y.vendor, y1);
    SameWord(x.product, x2, y.product, y2);
    SameWord(x.usagePage, x3, y.usagePage, y3);
    SameWord(x.usageId, x.node, y.usageId, y.node);
  }

  /** No two stable ids share a runtime key, whatever their strings hold. */
  lemma RuntimeKeyInjective(x: StableId, y: StableId)
    ensures RuntimeKey(x) == RuntimeKey(y) <==> x == y
  {
    if RuntimeKey(x) == RuntimeKey(y) {
      SameKeySameId(x, y);
    }
  }

  lemma SameKeySameId(x: StableId, y: StableId)
    requires RuntimeKey(x) == RuntimeKey(y)
    ensures x == y
  {
    LeadsTheKey(x);
    LeadsTheKey(y);
    LeadsDiffer(x, y);
    match x {
      case Bolt(_, _) =>
        BoltKeyReads(x);
        BoltKeyReads(y);
        DecimalRoundTrip(x.slot);
        DecimalRoundTrip(y.slot);
      case Direct(_, _, _) => DirectKeyInjective(x, y);
      case RawHid(_, _, _, _, _) => RawKeyInjective(x, y);
      case Unknown(_, _) =>
        UnknownKeyReads(x);
        UnknownKeyReads(y);
        IdentityKeyInjective(x.identity, y.identity);
        DecimalRoundTrip(x.slot);
        DecimalRoundTrip(y.slot);
    }
  }

  lemma LeadOfPrefix(value: string, head: string)
    requires |head| >= 3 && head <= value
    ensures value[..3] == head[..3]
  {}

  /** The readers that look at a value at all, by its first three characters. */
  lemma ReadersByLead(value: string)
    ensures ReceiverKeyIsValid(value) ==> |value| >= 3 && value[..3] == "rec"
    ensures DirectIdentityFragment(value).Some? ==> |value| >= 3 && value[..3] == "dir"
    ensures RawIdentityFragment(value).Some? ==> |value| >= 3 && value[..3] == "raw"
    ensures UnknownIdentityFragment(value).Some? ==> |value| >= 3 && value[..3] == "unk"
    ensures IdentityFragmentIsPhysical(value) ==> |value| >= 3 && (value[..3] == "ser" || value[..3] == "uni")
    ensures "rec"[1] == 'e' && "dir"[1] == 'i' && "raw"[1] == 'a'
    ensures "unk"[2] == 'k' && "ser"[0] == 's' && "uni"[2] == 'i'
  {
    assert "receiver:"[..3] == "rec" && "direct:"[..3] == "dir" && "raw:"[..3] == "raw";
    assert "unknown:slot:"[..3] == "unk" && "serial:"[..3] == "ser" && "unit:"[..3] == "uni";
    if "receiver:" <= value { LeadOfPrefix(value, "receiver:"); }
    if "direct:" <= value { LeadOfPrefix(value, "direct:"); }
    if "raw:" <= value { LeadOfPrefix(value, "raw:"); }
    if "unknown:slot:" <= value { LeadOfPrefix(value, "unknown:slot:"); }
    if "serial:" <= value { LeadOfPrefix(value, "serial:"); }
    if "unit:" <= value { LeadOfPrefix(value, "unit:"); }
  }

  /**
   Which devices have a persistent key: receivers' always, and the others when
   their serial or unit number is not blank or their node is named for good.
   */
  lemma KeyedExactly(id: StableId, text: string, unit: UnitId)
    ensures id.Bolt? ==> PhysicalKey(id).Some?
    ensures (id.Direct? || id.Unknown?) && id.identity == Serial(text) ==> (PhysicalKey(id).Some? <==> text != "")
    ensures (id.Direct? || id.Unknown?) && id.identity == Unit(unit) ==>
              (PhysicalKey(id).Some? <==> unit != UnitId(0, 0, 0, 0))
    ensures id.RawHid? && (id.node == "serial:" + text || id.node == "stable:" + text) ==>
              (PhysicalKey(id).Some? <==> text != "")
    ensures id.RawHid? && id.node == "id:" + text ==> PhysicalKey(id).None?
    ensures PhysicalKey(id).Some? ==> PhysicalKey(id).value == RuntimeKey(id)
  {
    assert "serial:"[1] == 'e' && "stable:"[1] == 't' && "id:"[0] == 'i';
    if id.RawHid? {
      NodeNames(text);
    }
  }

  lemma NodeNames(text: string)
    ensures RawIdentityIsPhysical("serial:" + text) <==> text != ""
    ensures RawIdentityIsPhysical("stable:" + text) <==> text != ""
    ensures !RawIdentityIsPhysical("id:" + text)
  {
    assert ("serial:" + text)[7..] == text && ("serial:" + text)[1] == 'e';
    assert ("stable:" + text)[7..] == text && ("stable:" + text)[1] == 't';
    assert ("id:" + text)[0] == 'i';
    assert "serial:"[1] == 'e' && "stable:"[1] == 't' && "serial:"[0] == 's' && "stable:"[0] == 's';
  }

  /** A persistent key is accepted back unless it is a receiver key without a receiver. */
  lemma PhysicalKeyParsesExactly(id: StableId)
    requires PhysicalKey(id).Some?
    ensures Parses(PhysicalKey(id).value) <==> !(id.Bolt? && id.receiverUid == "")
  {
    var key := RuntimeKey(id);
    LeadsTheKey(id);
    ReadersByLead(key);
    match id {
      case Bolt(_, _) => BoltKeyReads(id);
      case Direct(_, _, identity) =>
        DirectKeyReads(id);
        IdentityKeyReads(identity);
      case RawHid(_, _, _, _, _) => RawKeyReads(id);
      case Unknown(_, identity) =>
        UnknownKeyReads(id);
        IdentityKeyReads(identity);
    }
  }

  /** The persistent key of a receiver without a uid is refused. */
  lemma EmptyReceiverKeyIsRefused()
    ensures PhysicalKey(Bolt("", 1)).Some? && !Parses(PhysicalKey(Bolt("", 1)).value)
  {
    PhysicalKeyParsesExactly(Bolt("", 1));
  }

  /** A device without a persistent key is never taken for one that has it. */
  lemma UnkeyedNeverParses(id: StableId)
    requires PhysicalKey(id).None?
    ensures !Parses(RuntimeKey(id))
  {
    var key := RuntimeKey(id);
    LeadsTheKey(id);
    ReadersByLead(key);
    match id {
      case Direct(_, _, identity) =>
        DirectKeyReads(id);
        IdentityKeyReads(identity);
      case RawHid(_, _, _, _, node) =>
        if node != "" {
          RawKeyReads(id);
        } else {
          RawWithoutNode(id);
        }
      case Unknown(_, identity) =>
        UnknownKeyReads(id);
        IdentityKeyReads(identity);
    }
  }

  lemma RawWithoutNode(id: StableId)
    requires id.RawHid? && id.node == ""
    ensures RawIdentityFragment(RuntimeKey(id)).None?
  {
    HexWordsHaveNoColon(id.vendor);
    HexWordsHaveNoColon(id.product);
    HexWordsHaveNoColon(id.usagePage);
    HexWordsHaveNoColon(id.usageId);
    var tail3 := Hex4(id.usageId) + [':'] + id.node;
    var tail2 := Hex4(id.usagePage) + [':'] + tail3;
    var tail1 := Hex4(id.product) + [':'] + tail2;
    SplitsAtFirst(Hex4(id.vendor), ':', tail1);
    SplitsAtFirst(Hex4(id.product), ':', tail2);
    SplitsAtFirst(Hex4(id.usagePage), ':', tail3);
    SplitsAtFirst(Hex4(id.usageId), ':', id.node);
    assert RuntimeKey(id)[4..] == Hex4(id.vendor) + [':'] + tail1;
  }

  lemma Flat(head: string, x: string, rest: string)
    ensures head + (x + [':'] + rest) == head + x + ":" + rest
  {}

  /** A key made of two words and an identity, as it is written. */
  lemma DirectFormat(vendor: U16, product: U16, identity: DeviceIdentity)
    ensures RuntimeKey(Direct(vendor, product, identity))
            == RouteKey(Direct(vendor, product, identity)) + ":" + IdentityKey(identity)
    ensures RouteKey(Direct(vendor, product, identity)) == "direct:" + Hex4(vendor) + ":" + Hex4(product)
  {
    var v, p := Hex4(vendor), Hex4(product);
    Flat("direct:", v, p + [':'] + IdentityKey(identity));
    Flat("direct:" + v + ":", p, IdentityKey(identity));
    Flat("direct:", v, p);
  }

  /** And the other kinds of key. */
  lemma OtherFormats(vendor: U16, product: U16, page: U16, usage: U16, slot: U8, text: string, identity: DeviceIdentity)
    ensures RuntimeKey(Bolt(text, slot)) == "receiver:" + text + ":slot:" + Decimal(slot)
    ensures RuntimeKey(RawHid(vendor, product, page, usage, text))
            == "raw:" + Hex4(vendor) + ":" + Hex4(product) + ":" + Hex4(page) + ":" + Hex4(usage) + ":" + text
    ensures RuntimeKey(Unknown(slot, identity)) == "unknown:slot:" + Decimal(slot) + ":" + IdentityKey(identity)
  {
    RawFormat(Hex4(vendor), Hex4(product), Hex4(page), Hex4(usage), text);
    Flat("unknown:slot:", Decimal(slot), IdentityKey(identity));
    Associate("receiver:", text, ":slot:", Decimal(slot));
  }

  lemma Associate(a: string, b: string, c: string, d: string)
    ensures a + (b + c + d) == a + b + c + d
  {}

  lemma RawFormat(v: string, p: string, page: string, usage: string, text: string)
    ensures "raw:" + (v + [':'] + (p + [':'] + (page + [':'] + (usage + [':'] + text))))
            == "raw:" + v + ":" + p + ":" + page + ":" + usage + ":" + text
  {
    Flat("raw:", v, p + [':'] + (page + [':'] + (usage + [':'] + text)));
    Flat("raw:" + v + ":", p, page + [':'] + (usage + [':'] + text));
    Flat("raw:" + v + ":" + p + ":", page, usage + [':'] + text);
    Flat("raw:" + v + ":" + p + ":" + page + ":", usage, text);
  }

  /** Numbers as they are written: hexadecimal in lower case and padded, slots in decimal. */
  lemma HexExactly()
    ensures HexUnit(UnitId(0x6b, 0xe9, 0xd3, 0x00)) == "6be9d300" && Hex4(0x046d) == "046d"
  {}

  lemma SlotsExactly()
    ensures Decimal(0) == "0" && Decimal(47) == "47" && Decimal(255) == "255"
  {}

  /** The identity in a key that names no device for good: an all-zero unit, or an OS node. */
  predicate IsPassing(id: StableId) {
    match id
    case Bolt(_, _) => false
    case Direct(_, _, identity) => identity == Unit(ZERO_UNIT)
    case Unknown(_, identity) => identity == Unit(ZERO_UNIT)
    case RawHid(_, _, _, _, node) => StartsWith(node, "id:")
  }

  lemma ZeroUnitKey(identity: DeviceIdentity)
    ensures IdentityKey(identity) == "unit:00000000" <==> identity == Unit(ZERO_UNIT)
  {
    assert IdentityKey(Unit(ZERO_UNIT)) == "unit:00000000";
    if IdentityKey(identity) == "unit:00000000" {
      IdentityKeyInjective(identity, Unit(ZERO_UNIT));
    }
  }

  /** A runtime key reports as transient exactly when its identity is a passing one. */
  lemma TransientExactly(id: StableId)
    ensures IsTransient(RuntimeKey(id)) <==> IsPassing(id)
  {
    LeadsTheKey(id);
    ReadersByLead(RuntimeKey(id));
    match id {
      case Bolt(_, _) =>
      case Direct(_, _, identity) =>
        DirectKeyReads(id);
        ZeroUnitKey(identity);
      case RawHid(_, _, _, _, node) =>
        if node == "" {
          RawWithoutNode(id);
        } else {
          RawKeyReads(id);
        }
      case Unknown(_, identity) =>
        UnknownKeyReads(id);
        ZeroUnitKey(identity);
    }
  }

  /** No string is both a persistent key and a transient one. */
  lemma ParsedIsNotTransient(value: string)
    ensures !(Parses(value) && IsTransient(value))
  {
    ReadersByLead(value);
    var zero := "unit:00000000";
    assert zero[5..] == "00000000" && zero[0] == 'u';
    assert !IdentityFragmentIsPhysical(zero);
    if RawIdentityFragment(value).Some? {
      var fragment := RawIdentityFragment(value).value;
      if StartsWith(fragment, "id:") {
        assert fragment[0] == 'i';
        assert !RawIdentityIsPhysical(fragment);
      }
    }
  }

  /** The key of a device's own identity, when it has one worth keying on. */
  function ConfigKey(identity: DeviceIdentity): Option<string> {
    if IsPhysical(identity) then Some(IdentityKey(identity)) else None
  }

  lemma ConfigKeyParses(identity: DeviceIdentity)
    requires ConfigKey(identity).Some?
    ensures Parses(ConfigKey(identity).value)
  {
    IdentityKeyReads(identity);
  }

  /** No route key and no runtime key is also the bare key of an identity. */
  lemma RoutesAreNotIdentities(id: StableId, identity: DeviceIdentity)
    ensures RouteKey(id) != IdentityKey(identity)
    ensures RuntimeKey(id) != IdentityKey(identity)
  {
    LeadsTheKey(id);
    var key := IdentityKey(identity);
    if identity.Serial? {
      assert key[0] == 's';
    } else {
      assert key[2] == 'i';
    }
    assert Lead(id)[0] == RuntimeKey(id)[0] == RouteKey(id)[0];
    assert Lead(id)[2] == RuntimeKey(id)[2] == RouteKey(id)[2];
  }
}
