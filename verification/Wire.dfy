/** HID++ messages as byte payloads, and the predicates requests match responses with. */
module Wire {
  import opened Wrappers

  type Byte = bv8

  const SHORT_REPORT_ID: Byte := 0x10
  const SHORT_REPORT_LENGTH := 7
  const LONG_REPORT_ID: Byte := 0x11
  const LONG_REPORT_LENGTH := 20

  /** The sub id of a HID++ 1.0 error frame. */
  const ERROR_SUB_ID: Byte := 0x8f
  /** The feature index of a HID++ 2.0 error frame. */
  const ERROR_FEATURE_INDEX: Byte := 0xff

  /** A report without its id byte: the payload length follows from the width. */
  datatype Frame = Short(payload: seq<Byte>) | Long(payload: seq<Byte>)

  predicate WellSized(f: Frame) {
    |f.payload| == (if f.Short? then SHORT_REPORT_LENGTH else LONG_REPORT_LENGTH) - 1
  }

  type HidppMessage = f: Frame | WellSized(f) witness Short([0, 0, 0, 0, 0, 0])

  /** `HidppMessage::read_raw`. */
  function ReadRaw(data: seq<Byte>): (r: Option<HidppMessage>) {
    if |data| == SHORT_REPORT_LENGTH && data[0] == SHORT_REPORT_ID then Some(Short(data[1..]))
    else if |data| == LONG_REPORT_LENGTH && data[0] == LONG_REPORT_ID then Some(Long(data[1..]))
    else None
  }

  /** `HidppMessage::write_raw`. */
  function WriteRaw(msg: HidppMessage): seq<Byte> {
    [if msg.Short? then SHORT_REPORT_ID else LONG_REPORT_ID] + msg.payload
  }

  /** What is written is read back, and nothing else reads as a message. */
  lemma RawRoundTrip(msg: HidppMessage, data: seq<Byte>)
    ensures ReadRaw(WriteRaw(msg)) == Some(msg)
    ensures ReadRaw(data) == Some(msg) <==> data == WriteRaw(msg)
  {
    assert WriteRaw(msg)[1..] == msg.payload;
    if ReadRaw(data) == Some(msg) {
      assert data == [data[0]] + data[1..];
    }
  }

  function Combine(high: Byte, low: Byte): Byte { (high << 4) | low }

  predicate IsNibble(b: Byte) { b < 16 }

  /** The header a HID++ 2.0 message starts with. */
  datatype Header = Header(device: Byte, feature: Byte, function_: Byte, software: Byte)

  function HeaderOf(msg: HidppMessage): Header {
    Header(msg.payload[0], msg.payload[1], msg.payload[2] >> 4, msg.payload[2] & 0x0f)
  }

  /**
   The requests whose response predicate compares the software id: the
   protocol-version ping, and a feature call.
   */
  datatype Request = Ping(device: Byte, sw: Byte) | Feature(header: Header)

  function SoftwareId(r: Request): Byte {
    match r
    case Ping(_, sw) => sw
    case Feature(h) => h.software
  }

  /** Requests the program can build: nibbles are nibbles and id 0 is unrepresentable. */
  predicate WellFormed(r: Request) {
    && 1 <= SoftwareId(r) <= 15
    && (r.Feature? ==> IsNibble(r.header.function_))
  }

  /** The response predicate a request is sent with. */
  predicate Accepts(r: Request, msg: HidppMessage) {
    match r
    case Ping(device, sw) =>
      || HeaderOf(msg) == Header(device, 0x00, 0x01, sw)
      || (&& msg.Short?
          && msg.payload[0] == device
          && msg.payload[1] == ERROR_SUB_ID
          && msg.payload[2] == 0x00
          && msg.payload[3] == Combine(0x01, sw))
    case Feature(h) =>
      || (&& msg.payload[0] == h.device
          && msg.payload[1] == ERROR_FEATURE_INDEX
          && Combine(HeaderOf(msg).function_, HeaderOf(msg).software) == h.feature
          && msg.payload[3] == Combine(h.function_, h.software))
      || HeaderOf(msg) == h
  }

  /** The header of request `a`, sent to the error index, spells the error header of request `b`. */
  predicate ReadsAsErrorOf(a: Request, b: Request) {
    && a.Feature? && b.Feature?
    && a.header.device == b.header.device
    && a.header.feature == ERROR_FEATURE_INDEX
    && Combine(a.header.function_, a.header.software) == b.header.feature
  }

  lemma CombineSplit(high: Byte, low: Byte)
    requires IsNibble(high) && IsNibble(low)
    ensures Combine(high, low) >> 4 == high && Combine(high, low) & 0x0f == low
  {}

  lemma SplitCombine(b: Byte)
    ensures Combine(b >> 4, b & 0x0f) == b && IsNibble(b >> 4) && IsNibble(b & 0x0f)
  {}

  lemma CombineInjective(high: Byte, low: Byte, high': Byte, low': Byte)
    requires IsNibble(low) && IsNibble(low')
    requires Combine(high, low) == Combine(high', low')
    ensures low == low'
  {}

  predicate Starts(msg: HidppMessage, bytes: seq<Byte>) { bytes <= msg.payload }

  lemma StartsBytewise(msg: HidppMessage, a: Byte, b: Byte, c: Byte, d: Byte)
    ensures Starts(msg, [a, b, c]) <==> msg.payload[0] == a && msg.payload[1] == b && msg.payload[2] == c
    ensures Starts(msg, [a, b, c, d]) <==> Starts(msg, [a, b, c]) && msg.payload[3] == d
  {}

  lemma NibblesAre(b: Byte, high: Byte, low: Byte)
    requires IsNibble(high) && IsNibble(low)
    ensures b >> 4 == high && b & 0x0f == low <==> b == Combine(high, low)
  {
    CombineSplit(high, low);
    SplitCombine(b);
  }

  lemma HeaderBytes(msg: HidppMessage, h: Header)
    requires IsNibble(h.function_) && IsNibble(h.software)
    ensures HeaderOf(msg) == h <==> Starts(msg, [h.device, h.feature, Combine(h.function_, h.software)])
  {
    NibblesAre(msg.payload[2], h.function_, h.software);
    StartsBytewise(msg, h.device, h.feature, Combine(h.function_, h.software), 0);
  }

  /**
   In bytes: a ping accepts what starts with its own header, and the short 1.0
   error frame for it, and nothing else.
   */
  lemma PingAcceptsExactly(device: Byte, sw: Byte, msg: HidppMessage)
    requires WellFormed(Ping(device, sw))
    ensures Accepts(Ping(device, sw), msg)
            <==> || Starts(msg, [device, 0x00, Combine(0x01, sw)])
                 || (msg.Short? && Starts(msg, [device, ERROR_SUB_ID, 0x00, Combine(0x01, sw)]))
  {
    HeaderBytes(msg, Header(device, 0x00, 0x01, sw));
    StartsBytewise(msg, device, ERROR_SUB_ID, 0x00, Combine(0x01, sw));
  }

  lemma RecombinedIs(msg: HidppMessage)
    ensures Combine(HeaderOf(msg).function_, HeaderOf(msg).software) == msg.payload[2]
  {
    SplitCombine(msg.payload[2]);
  }

  /**
   In bytes: a feature call accepts what starts with its own header, and the
   2.0 error frame for that header, and nothing else.
   */
  lemma FeatureAcceptsExactly(h: Header, msg: HidppMessage)
    requires WellFormed(Feature(h))
    ensures Accepts(Feature(h), msg)
            <==> || Starts(msg, [h.device, h.feature, Combine(h.function_, h.software)])
                 || Starts(msg, [h.device, ERROR_FEATURE_INDEX, h.feature, Combine(h.function_, h.software)])
  {
    HeaderBytes(msg, h);
    RecombinedIs(msg);
    StartsBytewise(msg, h.device, ERROR_FEATURE_INDEX, h.feature, Combine(h.function_, h.software));
  }

  lemma PingsDoNotCrossMatch(a: Request, b: Request, msg: HidppMessage)
    requires a.Ping? && b.Ping? && WellFormed(a) && WellFormed(b) && SoftwareId(a) != SoftwareId(b)
    requires Accepts(a, msg)
    ensures !Accepts(b, msg)
  {
    if msg.payload[3] == Combine(1, a.sw) == Combine(1, b.sw) {
      CombineInjective(1, a.sw, 1, b.sw);
    }
  }

  /** The error branches: a 1.0 error reads as software id 0, a 2.0 error as no ping answer. */
  lemma PingAndFeatureDoNotCrossMatch(a: Request, b: Request, msg: HidppMessage)
    requires a.Ping? && b.Feature? && WellFormed(a) && WellFormed(b) && SoftwareId(a) != SoftwareId(b)
    requires Accepts(a, msg)
    ensures !Accepts(b, msg)
  {
    if msg.payload[1] == ERROR_SUB_ID && msg.payload[2] == 0 {
      assert HeaderOf(msg).software == 0;
    }
  }

  lemma FeaturesDoNotCrossMatch(a: Request, b: Request, msg: HidppMessage)
    requires a.Feature? && b.Feature? && WellFormed(a) && WellFormed(b) && SoftwareId(a) != SoftwareId(b)
    requires Accepts(a, msg) && Accepts(b, msg)
    ensures ReadsAsErrorOf(a, b) || ReadsAsErrorOf(b, a)
  {
    var g, h := a.header, b.header;
    if HeaderOf(msg) != g && HeaderOf(msg) != h {
      CombineInjective(g.function_, g.software, h.function_, h.software);
    }
  }

  /**
   Two requests with different nonzero software ids share no response, the
   HID++ 1.0 error frames included, unless one of them is addressed to the
   feature index that marks HID++ 2.0 errors.
   */
  lemma DistinctIdsDoNotCrossMatch(a: Request, b: Request, msg: HidppMessage)
    requires WellFormed(a) && WellFormed(b) && SoftwareId(a) != SoftwareId(b)
    requires Accepts(a, msg) && Accepts(b, msg)
    ensures ReadsAsErrorOf(a, b) || ReadsAsErrorOf(b, a)
  {
    match (a, b)
    case (Ping(_, _), Ping(_, _)) => PingsDoNotCrossMatch(a, b, msg);
    case (Ping(_, _), Feature(_)) => PingAndFeatureDoNotCrossMatch(a, b, msg);
    case (Feature(_), Ping(_, _)) => PingAndFeatureDoNotCrossMatch(b, a, msg);
    case (Feature(_), Feature(_)) => FeaturesDoNotCrossMatch(a, b, msg);
  }

  /** The exception is real: such a pair does share a response. */
  lemma CrossMatchExactly(a: Request, b: Request)
    requires WellFormed(a) && WellFormed(b) && SoftwareId(a) != SoftwareId(b)
    ensures (exists msg: HidppMessage :: Accepts(a, msg) && Accepts(b, msg))
            <==> ReadsAsErrorOf(a, b) || ReadsAsErrorOf(b, a)
  {
    forall msg: HidppMessage | Accepts(a, msg) && Accepts(b, msg)
      ensures ReadsAsErrorOf(a, b) || ReadsAsErrorOf(b, a)
    {
      DistinctIdsDoNotCrossMatch(a, b, msg);
    }
    if ReadsAsErrorOf(a, b) {
      SharedResponse(a, b);
    } else if ReadsAsErrorOf(b, a) {
      SharedResponse(b, a);
    }
  }

  /** One report is accepted by two requests of different ids, the first to the error index. */
  lemma ErrorIndexCrossMatches()
    ensures var a, b := Feature(Header(1, ERROR_FEATURE_INDEX, 2, 3)), Feature(Header(1, 0x23, 0, 5));
            var msg: HidppMessage := Short([1, ERROR_FEATURE_INDEX, 0x23, 0x05, 0, 0]);
            && WellFormed(a) && WellFormed(b) && SoftwareId(a) != SoftwareId(b)
            && Accepts(a, msg) && Accepts(b, msg)
  {}

  lemma SharedResponse(a: Request, b: Request)
    requires WellFormed(a) && WellFormed(b) && ReadsAsErrorOf(a, b)
    ensures exists msg: HidppMessage :: Accepts(a, msg) && Accepts(b, msg)
  {
    var g, h := a.header, b.header;
    CombineSplit(g.function_, g.software);
    var msg: HidppMessage :=
      Short([g.device, ERROR_FEATURE_INDEX, Combine(g.function_, g.software), Combine(h.function_, h.software), 0, 0]);
    SplitCombine(msg.payload[2]);
    assert Accepts(a, msg) && Accepts(b, msg);
  }
}
