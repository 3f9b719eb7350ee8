/** One pairing session with a receiver, from opening the search to its single terminal event. */
module Pairing {
  import opened Machine
  import opened Wrappers
  import Arithmetic

  datatype Family = BoltFamily | UnifyingFamily

  datatype Phase = BoltDiscovery | BoltPairing | UnifyingPairing

  /** Register addresses and the fixed payload bytes. */
  const NOTIFICATIONS: U8 := 0x00
  const UNIFYING_PAIRING: U8 := 0xb2
  const BOLT_DISCOVERY: U8 := 0xc0
  const BOLT_PAIRING: U8 := 0xc1
  const DISCOVERY_TIMEOUT: U8 := 30

  datatype Register = Register(address: U8, payload: seq<U8>)

  const KEYBOARD: U8 := 1

  /** The device kinds with a meaning; any other number counts as the unknown kind 0. */
  const KNOWN_KINDS: set<U8> := {1, 2, 3, 4, 7, 8, 9, 0x0a, 0x0b, 0x0c, 0x0d}

  /** The kind in the low four bits. */
  function KindOf(reported: U8): U8 { if reported % 16 in KNOWN_KINDS then reported % 16 else 0 }

  type Address = a: seq<U8> | |a| == 6 witness [0, 0, 0, 0, 0, 0]

  datatype DiscoveredDevice = DiscoveredDevice(address: Address, authentication: U8, kind: U8, name: string)

  datatype Click = LeftClick | RightClick

  datatype PasskeyMethod = OnKeyboard(digits: string) | WithPointer(passkey: string, clicks: seq<Click>)

  datatype PairingError =
    | ReceiverNotFound | RegisterFailed | HidClosed | Timeout | Cancelled | UnsupportedCommand
    | MalformedNotification | Device(code: U8)

  datatype Event = Searching | DeviceFound(device: DiscoveredDevice) | Passkey(how: PasskeyMethod)
    | Paired(slot: U8) | FailedWith(error: PairingError)

  datatype Notification =
    | DiscoveryInfo(counter: U16, kind: U8, address: Address, authentication: U8)
    | DiscoveryName(counter: U16, name: string)
    | PairingSucceeded(slot: U8)
    | PairingFailed(code: U8)
    | PasskeyShown(digits: string, value: nat)
    | MalformedPasskey
    | Connected(slot: U8, established: bool)
    | UnifyingLock(open: bool, error: U8)

  /** What the session wakes up for next; a pair command carries whether its register write succeeds. */
  datatype Input =
    | Deadline
    | Pair(device: DiscoveredDevice, written: bool)
    | Cancel
    | CommandsClosed
    | Notified(note: Notification)
    | Unparsed
    | NotificationsClosed

  // ---------------------------------------------------------------------
  // Passkeys
  // ---------------------------------------------------------------------

  predicate BitOf(value: nat, bit: nat) {
    if bit == 0 then value % 2 == 1 else BitOf(value / 2, bit - 1)
  }

  function ClickFor(right: bool): Click { if right then RightClick else LeftClick }

  /** The ten low bits, the highest first. */
  function PasskeyToClicks(value: nat): seq<Click> {
    seq(10, i requires 0 <= i < 10 => ClickFor(BitOf(value, 9 - i)))
  }

  /** The number a click sequence spells. */
  function ClicksValue(clicks: seq<Click>): nat {
    if clicks == [] then 0
    else 2 * ClicksValue(clicks[..|clicks| - 1]) + if clicks[|clicks| - 1].RightClick? then 1 else 0
  }

  function LowBits(value: nat, n: nat): nat {
    if n == 0 then 0 else 2 * LowBits(value / 2, n - 1) + value % 2
  }

  lemma {:induction false} ClicksSpellLowBits(value: nat, clicks: seq<Click>)
    requires forall i :: 0 <= i < |clicks| ==> clicks[i] == ClickFor(BitOf(value, |clicks| - 1 - i))
    ensures ClicksValue(clicks) == LowBits(value, |clicks|)
    decreases |clicks|
  {
    if clicks != [] {
      var front := clicks[..|clicks| - 1];
      forall i | 0 <= i < |front| ensures front[i] == ClickFor(BitOf(value / 2, |front| - 1 - i)) {
        assert clicks[i] == ClickFor(BitOf(value, |clicks| - 1 - i));
      }
      ClicksSpellLowBits(value / 2, front);
      assert clicks[|clicks| - 1] == ClickFor(BitOf(value, 0));
    }
  }

  /** The click sequence spells the passkey's ten low bits, so passkeys below 1024 have distinct sequences. */
  lemma ClicksSpellThePasskey(value: nat)
    ensures |PasskeyToClicks(value)| == 10
    ensures ClicksValue(PasskeyToClicks(value)) == value % 1024
  {
    ClicksSpellLowBits(value, PasskeyToClicks(value));
    LowBitsAreARemainder(value, 10);
    assert Pow2(10) == 1024 by {
      assert Pow2(5) == 32;
    }
  }

  function Pow2(n: nat): (p: nat)
    ensures p > 0
  {
    if n == 0 then 1 else 2 * Pow2(n - 1)
  }

  lemma {:induction false} LowBitsAreARemainder(value: nat, n: nat)
    ensures LowBits(value, n) == value % Pow2(n)
  {
    if n > 0 {
      LowBitsAreARemainder(value / 2, n - 1);
      HalfOf(value, Pow2(n - 1));
    }
  }

  lemma HalfOf(value: nat, half: nat)
    requires half > 0
    ensures value % (2 * half) == 2 * (value / 2 % half) + value % 2
  {
    var q, r := value / 2 / half, value / 2 % half;
    assert value / 2 == q * half + r;
    assert value == q * (2 * half) + (2 * r + value % 2);
    Arithmetic.QuotientIs(value, 2 * half, q);
  }

  // ---------------------------------------------------------------------
  // Devices half discovered
  // ---------------------------------------------------------------------

  datatype PartialDevice = PartialDevice(
    kind: Option<U8>, address: Option<Address>, authentication: Option<U8>, name: Option<string>, emitted: bool)

  const NOTHING_YET: PartialDevice := PartialDevice(None, None, None, None, false)

  /** `build`: the device once both frames have arrived, exactly once. */
  function Build(entry: PartialDevice): (PartialDevice, Option<DiscoveredDevice>) {
    if entry.emitted || entry.kind.None? || entry.address.None? || entry.authentication.None? || entry.name.None?
    then (entry, None)
    else (
      entry.(emitted := true),
      Some(DiscoveredDevice(
        entry.address.value, entry.authentication.value, KindOf(entry.kind.value), entry.name.value)))
  }

  /** The high bits of a reported kind say something else; a known kind is itself, and any other the unknown one. */
  lemma KindExactly(reported: U8)
    ensures KindOf(reported) == KindOf(reported % 16)
    ensures reported < 16 ==>
              KindOf(reported) == if reported in {1, 2, 3, 4, 7, 8, 9, 10, 11, 12, 13} then reported else 0
  {}

  // ---------------------------------------------------------------------
  // The session
  // ---------------------------------------------------------------------

  datatype Progress = Running | Ended(result: Result<U8, PairingError>)

  datatype Session = Session(
    phase: Phase,
    partials: map<U16, PartialDevice>,
    pairingAuth: Option<U8>,
    events: seq<Event>,
    writes: seq<Register>,
    progress: Progress)

  function FirstPhase(family: Family): Phase { if family.BoltFamily? then BoltDiscovery else UnifyingPairing }

  function Entropy(device: DiscoveredDevice): U8 { if device.kind == KEYBOARD then 20 else 10 }

  function PairRegister(device: DiscoveredDevice): Register {
    Register(
      BOLT_PAIRING,
      [0x01, 0x00] + device.address + [device.authentication, Entropy(device)] + [0, 0, 0, 0, 0, 0])
  }

  /** A pair command is one long register that names the device: its address, its authentication, its entropy. */
  lemma PairCommandNamesTheDevice(x: DiscoveredDevice, y: DiscoveredDevice)
    ensures var payload := PairRegister(x).payload;
            && PairRegister(x).address == BOLT_PAIRING && |payload| == 16
            && payload[..2] == [0x01, 0x00] && payload[2..8] == x.address && payload[8] == x.authentication
            && payload[9] == (if x.kind == KEYBOARD then 20 else 10) && payload[10..] == [0, 0, 0, 0, 0, 0]
    ensures PairRegister(x) == PairRegister(y)
            <==> && x.address == y.address && x.authentication == y.authentication
                 && (x.kind == KEYBOARD <==> y.kind == KEYBOARD)
  {
    var xs, ys := PairRegister(x).payload, PairRegister(y).payload;
    assert xs[2..8] == x.address && ys[2..8] == y.address;
    assert xs[8] == x.authentication && ys[8] == y.authentication;
    assert xs[9] == Entropy(x) && ys[9] == Entropy(y);
  }

  function CancelRegister(phase: Phase): Register {
    match phase
    case BoltDiscovery => Register(BOLT_DISCOVERY, [DISCOVERY_TIMEOUT, 0x02, 0x00])
    case BoltPairing => Register(BOLT_PAIRING, [0x02, 0, 0, 0, 0, 0, 0, 0, 0, 0, 0, 0, 0, 0, 0, 0])
    case UnifyingPairing => Register(UNIFYING_PAIRING, [0x02, 0x00, 0x00])
  }

  function OpenRegister(family: Family): Register {
    if family.BoltFamily? then Register(BOLT_DISCOVERY, [DISCOVERY_TIMEOUT, 0x01, 0x00])
    else Register(UNIFYING_PAIRING, [0x01, 0x00, DISCOVERY_TIMEOUT])
  }

  const NOTIFY_ON: Register := Register(NOTIFICATIONS, [0x00, 0x09, 0x00])
  const NOTIFY_OFF: Register := Register(NOTIFICATIONS, [0x00, 0x00, 0x00])

  /** The session after the two opening writes, each of which may fail. */
  function Opened(family: Family, notifyOk: bool, openOk: bool): Session {
    var begun := Session(FirstPhase(family), map[], None, [], [NOTIFY_ON], Running);
    if !notifyOk then begun.(progress := Ended(Err(RegisterFailed)))
    else
      var searching := begun.(writes := [NOTIFY_ON, OpenRegister(family)]);
      if !openOk then searching.(progress := Ended(Err(RegisterFailed)))
      else searching.(events := [Searching])
  }

  function EntryOf(s: Session, counter: U16): PartialDevice {
    if counter in s.partials then s.partials[counter] else NOTHING_YET
  }

  /** Store one more frame and announce the device if that completed it. */
  function Discovered(s: Session, counter: U16, entry: PartialDevice): Session {
    var (built, device) := Build(entry);
    s.(partials := s.partials[counter := built],
       events := s.events + if device.Some? then [DeviceFound(device.value)] else [])
  }

  function Failing(s: Session, error: PairingError): Session { s.(progress := Ended(Err(error))) }

  function Succeeding(s: Session, slot: U8): Session {
    s.(events := s.events + [Paired(slot)], progress := Ended(Ok(slot)))
  }

  function MethodFor(auth: Option<U8>, digits: string, value: nat): PasskeyMethod {
    if auth.Some? && auth.value % 2 == 1 then OnKeyboard(digits) else WithPointer(digits, PasskeyToClicks(value))
  }

  function Handled(family: Family, s: Session, note: Notification): Session {
    match note
    case DiscoveryInfo(counter, kind, address, authentication) =>
      Discovered(s, counter, EntryOf(s, counter).(
        kind := Some(kind), address := Some(address), authentication := Some(authentication)))
    case DiscoveryName(counter, name) => Discovered(s, counter, EntryOf(s, counter).(name := Some(name)))
    case PasskeyShown(digits, value) =>
      s.(events := s.events + [Passkey(MethodFor(s.pairingAuth, digits, value))])
    case MalformedPasskey => Failing(s, MalformedNotification)
    case PairingSucceeded(slot) => Succeeding(s, slot)
    case PairingFailed(code) => Failing(s, Device(code))
    case Connected(slot, established) =>
      if family.UnifyingFamily? && established then Succeeding(s, slot) else s
    case UnifyingLock(open, error) =>
      if error != 0 then Failing(s, Device(error))
      else if !open then Failing(s, Timeout)
      else s
  }

  function Stepped(family: Family, s: Session, input: Input): Session {
    match input
    case Deadline => Failing(s, Timeout)
    case Pair(device, written) =>
      if !family.BoltFamily? then Failing(s, UnsupportedCommand)
      else
        var paired := s.(
          pairingAuth := Some(device.authentication),
          phase := if s.phase.BoltDiscovery? then BoltPairing else s.phase,
          writes := s.writes + [PairRegister(device)]);
        if written then paired else Failing(paired, RegisterFailed)
    case Cancel => Failing(s, Cancelled)
    case CommandsClosed => Failing(s, Cancelled)
    case NotificationsClosed => Failing(s, HidClosed)
    case Unparsed => s
    case Notified(note) => Handled(family, s, note)
  }

  /** The session after the first inputs; once ended it takes no more. */
  function After(family: Family, start: Session, inputs: seq<Input>): Session {
    if inputs == [] then start
    else
      var before := After(family, start, inputs[..|inputs| - 1]);
      if before.progress.Running? then Stepped(family, before, inputs[|inputs| - 1]) else before
  }

  /** `drive`: when nothing more happens the deadline passes. */
  function Driven(family: Family, start: Session, inputs: seq<Input>): Session {
    var last := After(family, start, inputs);
    if last.progress.Running? then Failing(last, Timeout) else last
  }

  datatype Transcript = Transcript(events: seq<Event>, writes: seq<Register>, result: Result<U8, PairingError>)

  /** `run_pairing` on an opened receiver: drive, cancel on failure, restore the flags, report a failure last. */
  function Ran(family: Family, notifyOk: bool, openOk: bool, inputs: seq<Input>): Transcript {
    var driven := Driven(family, Opened(family, notifyOk, openOk), inputs);
    var result := driven.progress.result;
    Transcript(
      driven.events + (if result.Err? then [FailedWith(result.error)] else []),
      driven.writes + (if result.Err? then [CancelRegister(driven.phase)] else []) + [NOTIFY_OFF],
      result)
  }

  /** `run_pairing` with the receiver the search opened, if any: a search that fails touches no register. */
  function RanOn(found: Result<Family, PairingError>, notifyOk: bool, openOk: bool, inputs: seq<Input>): Transcript {
    match found
    case Ok(family) => Ran(family, notifyOk, openOk, inputs)
    case Err(error) => Transcript([FailedWith(error)], [], Err(error))
  }

  // ---------------------------------------------------------------------
  // The session in place
  // ---------------------------------------------------------------------

  class PairingSession {
    const family: Family
    var phase: Phase
    var partials: map<U16, PartialDevice>
    var pairingAuth: Option<U8>
    var events: seq<Event>
    var writes: seq<Register>

    ghost function View(progress: Progress): Session
      reads this
    {
      Session(phase, partials, pairingAuth, events, writes, progress)
    }

    constructor (family: Family)
      ensures this.family == family
      ensures View(Running) == Session(FirstPhase(family), map[], None, [], [], Running)
    {
      this.family := family;
      phase := if family.BoltFamily? then BoltDiscovery else UnifyingPairing;
      partials, pairingAuth, events, writes := map[], None, [], [];
    }

    /** Complete a counter's entry and announce the device, once. */
    method Discover(counter: U16, entry: PartialDevice)
      modifies this`partials, this`events
      ensures View(Running) == Discovered(old(View(Running)), counter, entry)
    {
      var (built, device) := Build(entry);
      partials := partials[counter := built];
      if device.Some? {
        events := events + [DeviceFound(device.value)];
      }
    }

    method Handle(note: Notification) returns (progress: Progress)
      modifies this`partials, this`events
      ensures View(progress) == Handled(family, old(View(Running)), note)
    {
      progress := Running;
      match note
      case DiscoveryInfo(counter, kind, address, authentication) =>
        var entry := if counter in partials then partials[counter] else NOTHING_YET;
        Discover(counter, entry.(
          kind := Some(kind), address := Some(address), authentication := Some(authentication)));
      case DiscoveryName(counter, name) =>
        var entry := if counter in partials then partials[counter] else NOTHING_YET;
        Discover(counter, entry.(name := Some(name)));
      case PasskeyShown(digits, value) =>
        events := events + [Passkey(MethodFor(pairingAuth, digits, value))];
      case MalformedPasskey => progress := Ended(Err(MalformedNotification));
      case PairingSucceeded(slot) =>
        events := events + [Paired(slot)];
        progress := Ended(Ok(slot));
      case PairingFailed(code) => progress := Ended(Err(Device(code)));
      case Connected(slot, established) =>
        if family.UnifyingFamily? && established {
          events := events + [Paired(slot)];
          progress := Ended(Ok(slot));
        }
      case UnifyingLock(open, error) =>
        if error != 0 {
          progress := Ended(Err(Device(error)));
        } else if !open {
          progress := Ended(Err(Timeout));
        }
    }

    method Take(input: Input) returns (progress: Progress)
      modifies this
      ensures View(progress) == Stepped(family, old(View(Running)), input)
    {
      progress := Running;
      match input
      case Deadline => progress := Ended(Err(Timeout));
      case Pair(device, written) =>
        if !family.BoltFamily? {
          return Ended(Err(UnsupportedCommand));
        }
        pairingAuth := Some(device.authentication);
        if phase.BoltDiscovery? {
          phase := BoltPairing;
        }
        writes := writes + [PairRegister(device)];
        if !written {
          progress := Ended(Err(RegisterFailed));
        }
      case Cancel => progress := Ended(Err(Cancelled));
      case CommandsClosed => progress := Ended(Err(Cancelled));
      case NotificationsClosed => progress := Ended(Err(HidClosed));
      case Unparsed =>
      case Notified(note) => progress := Handle(note);
    }

    /** Open the search, then wake up for one input after another until the session ends. */
    method Drive(notifyOk: bool, openOk: bool, inputs: seq<Input>) returns (result: Result<U8, PairingError>)
      requires View(Running) == Session(FirstPhase(family), map[], None, [], [], Running)
      modifies this
      ensures View(Ended(result)) == Driven(family, Opened(family, notifyOk, openOk), inputs)
    {
      ghost var start := Opened(family, notifyOk, openOk);
      writes := [NOTIFY_ON];
      if !notifyOk {
        EndedStays(family, start, inputs, 0);
        return Err(RegisterFailed);
      }
      writes := writes + [OpenRegister(family)];
      if !openOk {
        EndedStays(family, start, inputs, 0);
        return Err(RegisterFailed);
      }
      events := [Searching];
      for i := 0 to |inputs|
        invariant View(Running) == After(family, start, inputs[..i])
      {
        var progress := Take(inputs[i]);
        StepTo(family, start, inputs, i + 1);
        if progress.Ended? {
          EndedStays(family, start, inputs, i + 1);
          return progress.result;
        }
      }
      assert inputs[..|inputs|] == inputs;
      result := Err(Timeout);
    }

    /** `run_pairing` once the receiver is open. */
    method Run(notifyOk: bool, openOk: bool, inputs: seq<Input>) returns (result: Result<U8, PairingError>)
      requires View(Running) == Session(FirstPhase(family), map[], None, [], [], Running)
      modifies this
      ensures Transcript(events, writes, result) == Ran(family, notifyOk, openOk, inputs)
    {
      result := Drive(notifyOk, openOk, inputs);
      if result.Err? {
        writes := writes + [CancelRegister(phase)];
      }
      writes := writes + [NOTIFY_OFF];
      if result.Err? {
        events := events + [FailedWith(result.error)];
      }
    }
  }

  /** `run_pairing`. */
  method RunPairing(found: Result<Family, PairingError>, notifyOk: bool, openOk: bool, inputs: seq<Input>)
    returns (transcript: Transcript)
    ensures transcript == RanOn(found, notifyOk, openOk, inputs)
  {
    match found
    case Err(error) => transcript := Transcript([FailedWith(error)], [], Err(error));
    case Ok(family) =>
      var session := new PairingSession(family);
      var result := session.Run(notifyOk, openOk, inputs);
      transcript := Transcript(session.events, session.writes, result);
  }

  lemma StepTo(family: Family, start: Session, inputs: seq<Input>, n: nat)
    requires 0 < n <= |inputs|
    ensures var before := After(family, start, inputs[..n - 1]);
            After(family, start, inputs[..n])
            == if before.progress.Running? then Stepped(family, before, inputs[n - 1]) else before
  {
    assert inputs[..n][..n - 1] == inputs[..n - 1];
  }

  /** An ended session is where it stays. */
  lemma {:induction false} EndedStays(family: Family, start: Session, inputs: seq<Input>, n: nat)
    requires n <= |inputs| && After(family, start, inputs[..n]).progress.Ended?
    ensures Driven(family, start, inputs) == After(family, start, inputs[..n])
    ensures After(family, start, inputs) == After(family, start, inputs[..n])
    decreases |inputs| - n
  {
    if n < |inputs| {
      StepTo(family, start, inputs, n + 1);
      EndedStays(family, start, inputs, n + 1);
    } else {
      assert inputs[..n] == inputs;
    }
  }

  // ---------------------------------------------------------------------
  // One terminal event, and it is last
  // ---------------------------------------------------------------------

  predicate IsTerminal(event: Event) { event.Paired? || event.FailedWith? }

  predicate NoneTerminal(events: seq<Event>) { forall e <- events :: !IsTerminal(e) }

  /** Nothing terminal was sent unless the session succeeded, and then only at the very end. */
  predicate TerminalOnlyAtSuccess(s: Session) {
    if s.progress.Ended? && s.progress.result.Ok? then
      && s.events != []
      && s.events[|s.events| - 1] == Paired(s.progress.result.value)
      && NoneTerminal(s.events[..|s.events| - 1])
    else NoneTerminal(s.events)
  }

  lemma StepTerminates(family: Family, s: Session, input: Input)
    requires s.progress.Running? && NoneTerminal(s.events)
    ensures TerminalOnlyAtSuccess(Stepped(family, s, input))
  {
    var t := Stepped(family, s, input);
    if t.progress.Ended? && t.progress.result.Ok? {
      assert t.events[..|t.events| - 1] == s.events;
    }
  }

  lemma {:induction false} TerminalSoFar(family: Family, notifyOk: bool, openOk: bool, inputs: seq<Input>)
    ensures TerminalOnlyAtSuccess(After(family, Opened(family, notifyOk, openOk), inputs))
    decreases |inputs|
  {
    if inputs != [] {
      var front := inputs[..|inputs| - 1];
      TerminalSoFar(family, notifyOk, openOk, front);
      var before := After(family, Opened(family, notifyOk, openOk), front);
      if before.progress.Running? {
        StepTerminates(family, before, inputs[|inputs| - 1]);
      }
    }
  }

  /** The run ends in one terminal event that says its result, and sends no other. */
  predicate EndsInOneTerminal(run: Transcript) {
    && run.events != []
    && NoneTerminal(run.events[..|run.events| - 1])
    && run.events[|run.events| - 1] == match run.result case Ok(slot) => Paired(slot) case Err(e) => FailedWith(e)
  }

  lemma OpenedRunEnds(family: Family, notifyOk: bool, openOk: bool, inputs: seq<Input>)
    ensures EndsInOneTerminal(Ran(family, notifyOk, openOk, inputs))
  {
    TerminalSoFar(family, notifyOk, openOk, inputs);
    var driven := Driven(family, Opened(family, notifyOk, openOk), inputs);
    var run := Ran(family, notifyOk, openOk, inputs);
    if run.result.Err? {
      assert run.events[..|run.events| - 1] == driven.events;
    } else {
      assert run.events == driven.events;
    }
  }

  /** Every run sends exactly one terminal event, as its last, and it is `Paired` exactly when the run succeeds. */
  lemma OneTerminalEventLast(
      found: Result<Family, PairingError>, notifyOk: bool, openOk: bool, inputs: seq<Input>)
    ensures EndsInOneTerminal(RanOn(found, notifyOk, openOk, inputs))
  {
    if found.Ok? {
      OpenedRunEnds(found.value, notifyOk, openOk, inputs);
    }
  }

  // ---------------------------------------------------------------------
  // Cancelling
  // ---------------------------------------------------------------------

  predicate IsCancel(register: Register) { exists phase :: register == CancelRegister(phase) }

  /** The pair command at `i` was taken by a running session. */
  predicate TakenPair(family: Family, start: Session, inputs: seq<Input>, i: nat) {
    i < |inputs| && inputs[i].Pair? && After(family, start, inputs[..i]).progress.Running?
  }

  predicate AnyTakenPair(family: Family, start: Session, inputs: seq<Input>, n: nat) {
    exists i: nat :: i < n && TakenPair(family, start, inputs, i)
  }

  /** The phase the commands taken so far lead to. */
  function PhaseReached(family: Family, start: Session, inputs: seq<Input>, n: nat): Phase {
    if family.BoltFamily? && AnyTakenPair(family, start, inputs, n) then BoltPairing else FirstPhase(family)
  }

  lemma {:induction false} PhaseSoFar(family: Family, notifyOk: bool, openOk: bool, inputs: seq<Input>, n: nat)
    requires n <= |inputs|
    ensures var start := Opened(family, notifyOk, openOk);
            After(family, start, inputs[..n]).phase == PhaseReached(family, start, inputs, n)
    decreases n
  {
    var start := Opened(family, notifyOk, openOk);
    if n > 0 {
      PhaseSoFar(family, notifyOk, openOk, inputs, n - 1);
      StepTo(family, start, inputs, n);
      OneMoreTaken(family, start, inputs, n);
      if After(family, start, inputs[..n - 1]).progress.Running? {
        StepMovesPhase(family, After(family, start, inputs[..n - 1]), inputs[n - 1]);
      }
    }
  }

  lemma OneMoreTaken(family: Family, start: Session, inputs: seq<Input>, n: nat)
    requires 0 < n <= |inputs|
    ensures AnyTakenPair(family, start, inputs, n)
            <==> AnyTakenPair(family, start, inputs, n - 1) || TakenPair(family, start, inputs, n - 1)
  {
    if TakenPair(family, start, inputs, n - 1) {
      assert AnyTakenPair(family, start, inputs, n);
    }
  }

  /** Only a pair command on a Bolt receiver moves the phase. */
  lemma StepMovesPhase(family: Family, s: Session, input: Input)
    requires s.progress.Running?
    ensures Stepped(family, s, input).phase
            == if family.BoltFamily? && input.Pair? && s.phase.BoltDiscovery? then BoltPairing else s.phase
  {}

  lemma CancelsStandOut(family: Family, device: DiscoveredDevice)
    ensures !IsCancel(NOTIFY_ON) && !IsCancel(NOTIFY_OFF)
    ensures !IsCancel(OpenRegister(family)) && !IsCancel(PairRegister(device))
  {
    assert forall phase :: CancelRegister(phase).address != NOTIFICATIONS;
    assert PairRegister(device).payload[0] == 0x01;
    assert CancelRegister(BoltPairing).payload[0] == 0x02;
    assert CancelRegister(BoltDiscovery).payload[1] == 0x02 && OpenRegister(BoltFamily).payload[1] == 0x01;
    assert CancelRegister(UnifyingPairing).payload[0] == 0x02 && OpenRegister(UnifyingFamily).payload[0] == 0x01;
  }

  lemma {:induction false} DrivingNeverCancels(family: Family, notifyOk: bool, openOk: bool, inputs: seq<Input>)
    ensures forall w <- After(family, Opened(family, notifyOk, openOk), inputs).writes :: !IsCancel(w)
    decreases |inputs|
  {
    var none := DiscoveredDevice([0, 0, 0, 0, 0, 0], 0, 0, "");
    CancelsStandOut(family, none);
    if inputs != [] {
      var last := inputs[|inputs| - 1];
      DrivingNeverCancels(family, notifyOk, openOk, inputs[..|inputs| - 1]);
      if last.Pair? {
        CancelsStandOut(family, last.device);
      }
    }
  }

  /**
   A run writes a cancel exactly when it fails, once, just before it restores
   the flags, and to the register of the phase reached: Bolt pairing exactly
   when a Bolt session had taken a pair command.
   */
  lemma CancelledExactlyOnFailure(family: Family, notifyOk: bool, openOk: bool, inputs: seq<Input>)
    ensures var run := Ran(family, notifyOk, openOk, inputs);
            var start := Opened(family, notifyOk, openOk);
            var before := if run.result.Err? then |run.writes| - 2 else |run.writes| - 1;
            && before >= 0
            && run.writes[|run.writes| - 1] == NOTIFY_OFF
            && (forall w <- run.writes[..before] :: !IsCancel(w))
            && (run.result.Err? ==>
                  run.writes[before] == CancelRegister(PhaseReached(family, start, inputs, |inputs|)))
  {
    var start := Opened(family, notifyOk, openOk);
    var run := Ran(family, notifyOk, openOk, inputs);
    var driven := Driven(family, start, inputs);
    DrivingNeverCancels(family, notifyOk, openOk, inputs);
    PhaseSoFar(family, notifyOk, openOk, inputs, |inputs|);
    assert inputs[..|inputs|] == inputs;
    var before := if run.result.Err? then |run.writes| - 2 else |run.writes| - 1;
    assert run.writes[..before] == driven.writes;
  }

  // ---------------------------------------------------------------------
  // Discovery
  // ---------------------------------------------------------------------

  datatype Info = Info(kind: U8, address: Address, authentication: U8)

  /** The last address frame of a counter among the first `n` inputs, and its last name frame. */
  function LastInfo(inputs: seq<Input>, n: nat, counter: U16): Option<Info>
    requires n <= |inputs|
  {
    if n == 0 then None
    else match inputs[n - 1]
      case Notified(DiscoveryInfo(c, kind, address, authentication)) =>
        if c == counter then Some(Info(kind, address, authentication)) else LastInfo(inputs, n - 1, counter)
      case _ => LastInfo(inputs, n - 1, counter)
  }

  function LastName(inputs: seq<Input>, n: nat, counter: U16): Option<string>
    requires n <= |inputs|
  {
    if n == 0 then None
    else match inputs[n - 1]
      case Notified(DiscoveryName(c, name)) =>
        if c == counter then Some(name) else LastName(inputs, n - 1, counter)
      case _ => LastName(inputs, n - 1, counter)
  }

  /** Both frames of a counter have arrived. */
  predicate Complete(inputs: seq<Input>, n: nat, counter: U16)
    requires n <= |inputs|
  {
    LastInfo(inputs, n, counter).Some? && LastName(inputs, n, counter).Some?
  }

  /** The entry a running session keeps for a counter. */
  function ExpectedEntry(inputs: seq<Input>, n: nat, counter: U16): PartialDevice
    requires n <= |inputs|
  {
    var info, name := LastInfo(inputs, n, counter), LastName(inputs, n, counter);
    PartialDevice(
      if info.Some? then Some(info.value.kind) else None,
      if info.Some? then Some(info.value.address) else None,
      if info.Some? then Some(info.value.authentication) else None,
      name,
      Complete(inputs, n, counter))
  }

  lemma RunningAllAlong(family: Family, start: Session, inputs: seq<Input>, n: nat)
    requires 0 < n <= |inputs| && After(family, start, inputs[..n]).progress.Running?
    ensures After(family, start, inputs[..n - 1]).progress.Running?
    ensures After(family, start, inputs[..n]) == Stepped(family, After(family, start, inputs[..n - 1]), inputs[n - 1])
  {
    StepTo(family, start, inputs, n);
  }

  function FrameCounter(input: Input): Option<U16> {
    match input
    case Notified(DiscoveryInfo(counter, _, _, _)) => Some(counter)
    case Notified(DiscoveryName(counter, _)) => Some(counter)
    case _ => None
  }

  /** An entry with the frame an input carries stored in it. */
  function WithFrame(entry: PartialDevice, input: Input): PartialDevice {
    match input
    case Notified(DiscoveryInfo(_, kind, address, authentication)) =>
      entry.(kind := Some(kind), address := Some(address), authentication := Some(authentication))
    case Notified(DiscoveryName(_, name)) => entry.(name := Some(name))
    case _ => entry
  }

  /** A step stores a frame under its own counter and touches no other, and announces what that built. */
  lemma StepDiscovers(family: Family, s: Session, input: Input, counter: U16)
    requires s.progress.Running?
    ensures var t := Stepped(family, s, input);
            if FrameCounter(input) == Some(counter) then
              && EntryOf(t, counter) == Build(WithFrame(EntryOf(s, counter), input)).0
              && t == Discovered(s, counter, WithFrame(EntryOf(s, counter), input))
            else EntryOf(t, counter) == EntryOf(s, counter)
  {}

  /** Any other step sends at most one event, and not a discovery. */
  lemma StepWithoutFrame(family: Family, s: Session, input: Input)
    requires s.progress.Running? && FrameCounter(input).None?
    ensures var t := Stepped(family, s, input);
            || t.events == s.events
            || (t.events != [] && t.events == s.events + [t.events[|s.events|]] && !t.events[|s.events|].DeviceFound?)
  {}

  lemma ExpectedStep(inputs: seq<Input>, n: nat, counter: U16)
    requires 0 < n <= |inputs|
    ensures ExpectedEntry(inputs, n, counter)
            == if FrameCounter(inputs[n - 1]) == Some(counter)
               then Build(WithFrame(ExpectedEntry(inputs, n - 1, counter), inputs[n - 1])).0
               else ExpectedEntry(inputs, n - 1, counter)
  {}

  lemma {:induction false} EntrySoFar(
      family: Family, notifyOk: bool, openOk: bool, inputs: seq<Input>, n: nat, counter: U16)
    requires n <= |inputs|
    requires After(family, Opened(family, notifyOk, openOk), inputs[..n]).progress.Running?
    ensures EntryOf(After(family, Opened(family, notifyOk, openOk), inputs[..n]), counter)
            == ExpectedEntry(inputs, n, counter)
    decreases n
  {
    var start := Opened(family, notifyOk, openOk);
    if n > 0 {
      RunningAllAlong(family, start, inputs, n);
      EntrySoFar(family, notifyOk, openOk, inputs, n - 1, counter);
      StepDiscovers(family, After(family, start, inputs[..n - 1]), inputs[n - 1], counter);
      ExpectedStep(inputs, n, counter);
    }
  }

  function DeviceOf(info: Info, name: string): DiscoveredDevice {
    DiscoveredDevice(info.address, info.authentication, KindOf(info.kind), name)
  }

  /** What the input at `i` has a running session announce: the device it completes, from the latest frames. */
  function Announced(inputs: seq<Input>, i: nat): seq<Event>
    requires i < |inputs|
  {
    var counter := FrameCounter(inputs[i]);
    if counter.Some? && Complete(inputs, i + 1, counter.value) && !Complete(inputs, i, counter.value) then
      var info, name := LastInfo(inputs, i + 1, counter.value).value, LastName(inputs, i + 1, counter.value).value;
      [DeviceFound(DeviceOf(info, name))]
    else []
  }

  function Discoveries(events: seq<Event>): seq<Event> {
    if events == [] then []
    else Discoveries(events[..|events| - 1])
         + if events[|events| - 1].DeviceFound? then [events[|events| - 1]] else []
  }

  lemma MoreDiscoveries(events: seq<Event>, more: seq<Event>)
    requires |more| <= 1
    ensures Discoveries(events + more)
            == Discoveries(events) + if more != [] && more[0].DeviceFound? then more else []
  {
    if more == [] {
      assert events + more == events;
    } else {
      assert (events + more)[..|events|] == events;
    }
  }

  /**
   A running session announces a device exactly at the frame that completes its
   counter, in whichever order and however often the frames arrive, and with
   what the latest of them said.
   */
  lemma AnnouncedExactlyWhenComplete(family: Family, notifyOk: bool, openOk: bool, inputs: seq<Input>, i: nat)
    requires i < |inputs|
    requires After(family, Opened(family, notifyOk, openOk), inputs[..i]).progress.Running?
    ensures var start := Opened(family, notifyOk, openOk);
            Discoveries(After(family, start, inputs[..i + 1]).events)
            == Discoveries(After(family, start, inputs[..i]).events) + Announced(inputs, i)
  {
    var start := Opened(family, notifyOk, openOk);
    var s := After(family, start, inputs[..i]);
    var t := After(family, start, inputs[..i + 1]);
    StepTo(family, start, inputs, i + 1);
    assert t == Stepped(family, s, inputs[i]);
    if FrameCounter(inputs[i]).Some? {
      var counter := FrameCounter(inputs[i]).value;
      EntrySoFar(family, notifyOk, openOk, inputs, i, counter);
      StepDiscovers(family, s, inputs[i], counter);
      FrameAnnounces(inputs, i, s, counter);
      MoreDiscoveries(s.events, Announced(inputs, i));
    } else {
      StepWithoutFrame(family, s, inputs[i]);
      if t.events != s.events {
        MoreDiscoveries(s.events, [t.events[|s.events|]]);
      }
    }
  }

  lemma FrameAnnounces(inputs: seq<Input>, i: nat, s: Session, counter: U16)
    requires i < |inputs| && FrameCounter(inputs[i]) == Some(counter)
    requires EntryOf(s, counter) == ExpectedEntry(inputs, i, counter)
    ensures Discovered(s, counter, WithFrame(EntryOf(s, counter), inputs[i])).events == s.events + Announced(inputs, i)
  {}

  lemma {:induction false} CompleteStays(inputs: seq<Input>, m: nat, n: nat, counter: U16)
    requires m <= n <= |inputs| && Complete(inputs, m, counter)
    ensures Complete(inputs, n, counter)
    decreases n
  {
    if m < n {
      CompleteStays(inputs, m, n - 1, counter);
    }
  }

  /** No counter is announced twice. */
  lemma AnnouncedAtMostOnce(inputs: seq<Input>, i: nat, j: nat)
    requires i < j < |inputs| && Announced(inputs, i) != [] && Announced(inputs, j) != []
    ensures FrameCounter(inputs[i]) != FrameCounter(inputs[j])
  {
    if FrameCounter(inputs[i]) == FrameCounter(inputs[j]) {
      CompleteStays(inputs, i + 1, j, FrameCounter(inputs[i]).value);
    }
  }

  // ---------------------------------------------------------------------
  // The passkey method
  // ---------------------------------------------------------------------

  /** The authentication byte of the last pair command taken. */
  function LastAuth(inputs: seq<Input>, n: nat): Option<U8>
    requires n <= |inputs|
  {
    if n == 0 then None
    else if inputs[n - 1].Pair? then Some(inputs[n - 1].device.authentication)
    else LastAuth(inputs, n - 1)
  }

  lemma {:induction false} AuthSoFar(family: Family, notifyOk: bool, openOk: bool, inputs: seq<Input>, n: nat)
    requires n <= |inputs|
    requires After(family, Opened(family, notifyOk, openOk), inputs[..n]).progress.Running?
    ensures After(family, Opened(family, notifyOk, openOk), inputs[..n]).pairingAuth == LastAuth(inputs, n)
    decreases n
  {
    if n > 0 {
      RunningAllAlong(family, Opened(family, notifyOk, openOk), inputs, n);
      AuthSoFar(family, notifyOk, openOk, inputs, n - 1);
    }
  }

  /** A passkey is typed exactly when the device last picked asked for that, and clicked out otherwise. */
  lemma PasskeyFollowsThePick(
      family: Family, notifyOk: bool, openOk: bool, inputs: seq<Input>, i: nat, digits: string, value: nat)
    requires i < |inputs| && inputs[i] == Notified(PasskeyShown(digits, value))
    requires After(family, Opened(family, notifyOk, openOk), inputs[..i]).progress.Running?
    ensures var start := Opened(family, notifyOk, openOk);
            var auth := LastAuth(inputs, i);
            After(family, start, inputs[..i + 1]).events
            == After(family, start, inputs[..i]).events
               + [Passkey(if auth.Some? && auth.value % 2 == 1 then OnKeyboard(digits)
                          else WithPointer(digits, PasskeyToClicks(value)))]
  {
    AuthSoFar(family, notifyOk, openOk, inputs, i);
    StepTo(family, Opened(family, notifyOk, openOk), inputs, i + 1);
  }

  // ---------------------------------------------------------------------
  // How a run ends
  // ---------------------------------------------------------------------

  /** Inputs after which the session waits for the next one. */
  predicate EndsNothing(family: Family, input: Input) {
    match input
    case Unparsed => true
    case Pair(_, written) => family.BoltFamily? && written
    case Notified(DiscoveryInfo(_, _, _, _)) => true
    case Notified(DiscoveryName(_, _)) => true
    case Notified(PasskeyShown(_, _)) => true
    case Notified(Connected(_, established)) => family.BoltFamily? || !established
    case Notified(UnifyingLock(isOpen, error)) => isOpen && error == 0
    case _ => false
  }

  /** The receiver says that the device in `slot` is paired. */
  predicate Pairs(family: Family, input: Input, slot: U8) {
    || input == Notified(PairingSucceeded(slot))
    || (family.UnifyingFamily? && input == Notified(Connected(slot, true)))
  }

  /** The input ends the session with this error. */
  predicate FailsWith(family: Family, input: Input, error: PairingError) {
    match error
    case ReceiverNotFound => false
    case RegisterFailed => input.Pair? && family.BoltFamily? && !input.written
    case UnsupportedCommand => input.Pair? && family.UnifyingFamily?
    case Cancelled => input == Cancel || input == CommandsClosed
    case HidClosed => input == NotificationsClosed
    case Timeout => input == Deadline || input == Notified(UnifyingLock(false, 0))
    case MalformedNotification => input == Notified(MalformedPasskey)
    case Device(code) =>
      || input == Notified(PairingFailed(code))
      || (code != 0 && exists isOpen :: input == Notified(UnifyingLock(isOpen, code)))
  }

  /** The input at `i` is the first that ends anything. */
  predicate EndsFirst(family: Family, inputs: seq<Input>, i: nat) {
    && i < |inputs| && !EndsNothing(family, inputs[i])
    && forall j :: 0 <= j < i ==> EndsNothing(family, inputs[j])
  }

  lemma StepEndsExactly(family: Family, s: Session, input: Input)
    requires s.progress.Running?
    ensures var progress := Stepped(family, s, input).progress;
            && (progress.Running? <==> EndsNothing(family, input))
            && (forall slot :: progress == Ended(Ok(slot)) <==> Pairs(family, input, slot))
            && (forall error :: progress == Ended(Err(error)) <==> FailsWith(family, input, error))
  {
    if input.Notified? && input.note.UnifyingLock? {
      assert input == Notified(UnifyingLock(input.note.open, input.note.error));
    }
  }

  /** None of the first `n` inputs ends anything. */
  predicate NoneEnds(family: Family, inputs: seq<Input>, n: nat)
    requires n <= |inputs|
  {
    forall j :: 0 <= j < n ==> EndsNothing(family, inputs[j])
  }

  lemma OneMoreRuns(family: Family, start: Session, inputs: seq<Input>, n: nat)
    requires 0 < n <= |inputs|
    ensures After(family, start, inputs[..n]).progress.Running?
            <==> After(family, start, inputs[..n - 1]).progress.Running? && EndsNothing(family, inputs[n - 1])
  {
    StepTo(family, start, inputs, n);
    var before := After(family, start, inputs[..n - 1]);
    if before.progress.Running? {
      StepEndsExactly(family, before, inputs[n - 1]);
    }
  }

  lemma {:induction false} RunningExactly(family: Family, inputs: seq<Input>, n: nat)
    requires n <= |inputs|
    ensures After(family, Opened(family, true, true), inputs[..n]).progress.Running? <==> NoneEnds(family, inputs, n)
    decreases n
  {
    if n > 0 {
      RunningExactly(family, inputs, n - 1);
      OneMoreRuns(family, Opened(family, true, true), inputs, n);
    }
  }

  /** The session a run ends in: the one its first ending input leads to, or a timeout if there is none. */
  lemma DrivenExactly(family: Family, inputs: seq<Input>, i: nat)
    requires EndsFirst(family, inputs, i)
    ensures var start := Opened(family, true, true);
            var before := After(family, start, inputs[..i]);
            before.progress.Running? && Driven(family, start, inputs) == Stepped(family, before, inputs[i])
  {
    var start := Opened(family, true, true);
    RunningExactly(family, inputs, i);
    StepTo(family, start, inputs, i + 1);
    StepEndsExactly(family, After(family, start, inputs[..i]), inputs[i]);
    EndedStays(family, start, inputs, i + 1);
  }

  lemma NothingEnds(family: Family, inputs: seq<Input>)
    requires forall j :: 0 <= j < |inputs| ==> EndsNothing(family, inputs[j])
    ensures Driven(family, Opened(family, true, true), inputs)
            == Failing(After(family, Opened(family, true, true), inputs), Timeout)
  {
    RunningExactly(family, inputs, |inputs|);
    assert inputs[..|inputs|] == inputs;
  }

  lemma {:induction false} FirstEnd(family: Family, inputs: seq<Input>, n: nat) returns (i: Option<nat>)
    requires n <= |inputs|
    ensures i.Some? ==> i.value < n && EndsFirst(family, inputs, i.value)
    ensures i.None? ==> forall j :: 0 <= j < n ==> EndsNothing(family, inputs[j])
  {
    if n == 0 {
      i := None;
    } else {
      i := FirstEnd(family, inputs, n - 1);
      if i.None? && !EndsNothing(family, inputs[n - 1]) {
        i := Some(n - 1);
      }
    }
  }

  /**
   A run on an opened receiver succeeds with a slot exactly when the first input
   that ends anything says that the device in that slot is paired.
   */
  lemma SucceedsExactly(family: Family, inputs: seq<Input>, slot: U8)
    ensures Ran(family, true, true, inputs).result == Ok(slot)
            <==> exists i: nat :: EndsFirst(family, inputs, i) && Pairs(family, inputs[i], slot)
  {
    var end := FirstEnd(family, inputs, |inputs|);
    if end.Some? {
      DrivenExactly(family, inputs, end.value);
      StepEndsExactly(family, After(family, Opened(family, true, true), inputs[..end.value]), inputs[end.value]);
    } else {
      NothingEnds(family, inputs);
    }
  }

  /** And it fails with an error exactly when that input does, or with a timeout when nothing ever ends it. */
  lemma FailsExactly(family: Family, inputs: seq<Input>, error: PairingError)
    ensures Ran(family, true, true, inputs).result == Err(error)
            <==> || (exists i: nat :: EndsFirst(family, inputs, i) && FailsWith(family, inputs[i], error))
                 || (error == Timeout && forall j :: 0 <= j < |inputs| ==> EndsNothing(family, inputs[j]))
  {
    var end := FirstEnd(family, inputs, |inputs|);
    if end.Some? {
      DrivenExactly(family, inputs, end.value);
      StepEndsExactly(family, After(family, Opened(family, true, true), inputs[..end.value]), inputs[end.value]);
    } else {
      NothingEnds(family, inputs);
    }
  }

  /** A run whose opening writes do not both succeed searches for nothing, whatever follows. */
  lemma UnopenedFails(family: Family, notifyOk: bool, openOk: bool, inputs: seq<Input>)
    requires !notifyOk || !openOk
    ensures var run := Ran(family, notifyOk, openOk, inputs);
            && run.result == Err(RegisterFailed)
            && run.events == [FailedWith(RegisterFailed)]
            && run.writes == (if notifyOk then [NOTIFY_ON, OpenRegister(family)] else [NOTIFY_ON])
                             + [CancelRegister(FirstPhase(family)), NOTIFY_OFF]
  {
    var start := Opened(family, notifyOk, openOk);
    assert inputs[..0] == [];
    EndedStays(family, start, inputs, 0);
    assert Driven(family, start, inputs) == start;
  }

  /** A search that finds no receiver says why and touches no register; otherwise the run is the opened receiver's. */
  lemma SearchFails(found: Result<Family, PairingError>, notifyOk: bool, openOk: bool, inputs: seq<Input>)
    ensures var run := RanOn(found, notifyOk, openOk, inputs);
            && (found.Ok? ==> run == Ran(found.value, notifyOk, openOk, inputs))
            && (found.Err? ==>
                  run.events == [FailedWith(found.error)] && run.writes == [] && run.result == Err(found.error))
  {}

  // ---------------------------------------------------------------------
  // Everything a run says and writes
  // ---------------------------------------------------------------------

  /** The run takes the first `n` inputs: up to the first that ends it, or all of them. */
  predicate Takes(family: Family, inputs: seq<Input>, n: nat) {
    || (n > 0 && EndsFirst(family, inputs, n - 1))
    || (n == |inputs| && forall j :: 0 <= j < n ==> EndsNothing(family, inputs[j]))
  }

  /** A Bolt receiver is told to pair each device picked. */
  function PairWrites(family: Family, inputs: seq<Input>): seq<Register> {
    if inputs == [] then []
    else
      var last := inputs[|inputs| - 1];
      PairWrites(family, inputs[..|inputs| - 1])
      + if last.Pair? && family.BoltFamily? then [PairRegister(last.device)] else []
  }

  /** What the input at `i` has a session say that took every input before it. */
  function Says(family: Family, inputs: seq<Input>, i: nat): seq<Event>
    requires i < |inputs|
  {
    match inputs[i]
    case Notified(DiscoveryInfo(_, _, _, _)) => Announced(inputs, i)
    case Notified(DiscoveryName(_, _)) => Announced(inputs, i)
    case Notified(PasskeyShown(digits, value)) =>
      var auth := LastAuth(inputs, i);
      [Passkey(if auth.Some? && auth.value % 2 == 1 then OnKeyboard(digits)
               else WithPointer(digits, PasskeyToClicks(value)))]
    case Notified(PairingSucceeded(slot)) => [Paired(slot)]
    case Notified(Connected(slot, established)) =>
      if family.UnifyingFamily? && established then [Paired(slot)] else []
    case _ => []
  }

  function AllSaid(family: Family, inputs: seq<Input>, n: nat): seq<Event>
    requires n <= |inputs|
  {
    if n == 0 then [Searching] else AllSaid(family, inputs, n - 1) + Says(family, inputs, n - 1)
  }

  lemma StepSays(family: Family, inputs: seq<Input>, i: nat)
    requires i < |inputs| && After(family, Opened(family, true, true), inputs[..i]).progress.Running?
    ensures var before := After(family, Opened(family, true, true), inputs[..i]);
            Stepped(family, before, inputs[i]).events == before.events + Says(family, inputs, i)
  {
    var before := After(family, Opened(family, true, true), inputs[..i]);
    if FrameCounter(inputs[i]).Some? {
      FrameSays(family, inputs, i);
    } else if inputs[i].Notified? && inputs[i].note.PasskeyShown? {
      AuthSoFar(family, true, true, inputs, i);
    }
  }

  lemma FrameSays(family: Family, inputs: seq<Input>, i: nat)
    requires i < |inputs| && After(family, Opened(family, true, true), inputs[..i]).progress.Running?
    requires FrameCounter(inputs[i]).Some?
    ensures var before := After(family, Opened(family, true, true), inputs[..i]);
            Stepped(family, before, inputs[i]).events == before.events + Announced(inputs, i)
  {
    var before := After(family, Opened(family, true, true), inputs[..i]);
    var counter := FrameCounter(inputs[i]).value;
    StepDiscovers(family, before, inputs[i], counter);
    EntrySoFar(family, true, true, inputs, i, counter);
    ExpectedStep(inputs, i + 1, counter);
  }

  lemma {:induction false} SaidSoFar(family: Family, inputs: seq<Input>, n: nat)
    requires n <= |inputs| && forall j :: 0 <= j < n - 1 ==> EndsNothing(family, inputs[j])
    ensures After(family, Opened(family, true, true), inputs[..n]).events == AllSaid(family, inputs, n)
    decreases n
  {
    var start := Opened(family, true, true);
    if n > 0 {
      SaidSoFar(family, inputs, n - 1);
      RunningExactly(family, inputs, n - 1);
      StepTo(family, start, inputs, n);
      StepSays(family, inputs, n - 1);
    }
  }

  lemma StepWrites(family: Family, s: Session, input: Input)
    requires s.progress.Running?
    ensures Stepped(family, s, input).writes
            == s.writes + if input.Pair? && family.BoltFamily? then [PairRegister(input.device)] else []
  {}

  lemma OneMoreWrite(family: Family, inputs: seq<Input>, n: nat)
    requires 0 < n <= |inputs|
    ensures PairWrites(family, inputs[..n])
            == PairWrites(family, inputs[..n - 1])
               + if inputs[n - 1].Pair? && family.BoltFamily? then [PairRegister(inputs[n - 1].device)] else []
  {
    assert inputs[..n][..n - 1] == inputs[..n - 1];
  }

  lemma {:induction false} WrittenSoFar(family: Family, inputs: seq<Input>, n: nat)
    requires n <= |inputs| && forall j :: 0 <= j < n - 1 ==> EndsNothing(family, inputs[j])
    ensures After(family, Opened(family, true, true), inputs[..n]).writes
            == [NOTIFY_ON, OpenRegister(family)] + PairWrites(family, inputs[..n])
    decreases n
  {
    var start := Opened(family, true, true);
    if n > 0 {
      WrittenSoFar(family, inputs, n - 1);
      RunningExactly(family, inputs, n - 1);
      StepTo(family, start, inputs, n);
      StepWrites(family, After(family, start, inputs[..n - 1]), inputs[n - 1]);
      OneMoreWrite(family, inputs, n);
    }
  }

  lemma TakenIsDriven(family: Family, inputs: seq<Input>, n: nat)
    requires Takes(family, inputs, n)
    ensures n <= |inputs|
    ensures var last := After(family, Opened(family, true, true), inputs[..n]);
            && Driven(family, Opened(family, true, true), inputs).events == last.events
            && Driven(family, Opened(family, true, true), inputs).writes == last.writes
            && Driven(family, Opened(family, true, true), inputs).phase == last.phase
  {
    if n > 0 && EndsFirst(family, inputs, n - 1) {
      DrivenExactly(family, inputs, n - 1);
      StepTo(family, Opened(family, true, true), inputs, n);
    } else {
      NothingEnds(family, inputs);
      assert inputs[..n] == inputs;
    }
  }

  /**
   The whole transcript of a run on an opened receiver: it says that it searches,
   then what each input it takes calls for, and a failure last; it writes the
   two opening registers, one for each device a Bolt receiver is told to pair,
   a cancel if it fails, and the restored flags.
   */
  lemma TranscriptExactly(family: Family, inputs: seq<Input>, n: nat)
    requires Takes(family, inputs, n)
    ensures n <= |inputs|
    ensures var run := Ran(family, true, true, inputs);
            && run.events
               == AllSaid(family, inputs, n) + (if run.result.Err? then [FailedWith(run.result.error)] else [])
            && run.writes
               == [NOTIFY_ON, OpenRegister(family)] + PairWrites(family, inputs[..n])
                  + (if run.result.Err?
                     then [CancelRegister(PhaseReached(family, Opened(family, true, true), inputs, n))] else [])
                  + [NOTIFY_OFF]
  {
    TakenIsDriven(family, inputs, n);
    SaidSoFar(family, inputs, n);
    WrittenSoFar(family, inputs, n);
    PhaseSoFar(family, true, true, inputs, n);
  }
}
