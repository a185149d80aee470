/**
 * The wire format of messages between the Carlos backend and an edge device:
 * the message type's text, and for types that carry one, a `|` followed by the
 * payload's JSON.
 */
module Messages {
  import opened Wrappers

  datatype MessageType =
    | Ping
    | Pong
    | EdgeVersion
    | DeviceConfig
    | DeviceConfigResponse
    | DriverData
    | DriverDataAck

  /** The enum value, which is the text on the wire. */
  function TypeValue(t: MessageType): string
  {
    match t
    case Ping => "ping"
    case Pong => "pong"
    case EdgeVersion => "edge_version"
    case DeviceConfig => "device_config"
    case DeviceConfigResponse => "device_config_response"
    case DriverData => "driver_data"
    case DriverDataAck => "driver_data_ack"
  }

  const Separator: char := '|'

  /** `MessageType(s)`: the member whose value is exactly `s`, if any. */
  function ParseMessageType(s: string): (r: Option<MessageType>)
    ensures r.Some? ==> TypeValue(r.value) == s
    ensures r.None? ==> forall t: MessageType :: TypeValue(t) != s
  {
    if s == "ping" then Some(Ping)
    else if s == "pong" then Some(Pong)
    else if s == "edge_version" then Some(EdgeVersion)
    else if s == "device_config" then Some(DeviceConfig)
    else if s == "device_config_response" then Some(DeviceConfigResponse)
    else if s == "driver_data" then Some(DriverData)
    else if s == "driver_data_ack" then Some(DriverDataAck)
    else None
  }

  lemma TypeValueRoundTrip(t: MessageType)
    ensures ParseMessageType(TypeValue(t)) == Some(t)
    ensures |TypeValue(t)| > 0 && Separator !in TypeValue(t)
  {
  }

  /** The payload classes; an instance is identified by its class and its field values. */
  datatype PayloadModel =
    | EdgeVersionPayload
    | DeviceConfigPayload
    | DeviceConfigResponsePayload
    | DriverDataPayload
    | DriverDataAckPayload

  datatype Payload = Payload(model: PayloadModel, fields: map<string, string>)

  /** The payload class each message type expects, or `None` for payloadless types. */
  function ModelOf(t: MessageType): (m: Option<PayloadModel>)
    ensures m.None? <==> t == Ping || t == Pong
  {
    match t
    case Ping => None
    case Pong => None
    case EdgeVersion => Some(EdgeVersionPayload)
    case DeviceConfig => Some(DeviceConfigPayload)
    case DeviceConfigResponse => Some(DeviceConfigResponsePayload)
    case DriverData => Some(DriverDataPayload)
    case DriverDataAck => Some(DriverDataAckPayload)
  }

  /**
   * The JSON serialisation of payloads is a pair of functions supplied from
   * outside: `dump` writes a payload, `load` reads one back for a given class.
   */
  datatype Codec = Codec(dump: Payload -> string, load: (PayloadModel, string) -> Option<Payload>)

  /** What the round trip of the wire format relies on: dumped JSON is never empty and loads back. */
  ghost predicate Faithful(c: Codec)
  {
    forall p: Payload :: c.dump(p) != "" && c.load(p.model, c.dump(p)) == Some(p)
  }

  datatype MessageError =
    | UnsupportedMessageType(text: string)
    | PayloadNotSupported
    | PayloadMustNotBeNone
    | PayloadModelMismatch
    | MissingPayloadIndex
    | MissingPayload
    | InvalidPayload

  datatype CarlosMessage = CarlosMessage(messageType: MessageType, payload: Option<Payload>)

  /** The model validator: the payload must be absent exactly when the type has no payload class, and otherwise be an instance of it. */
  predicate Valid(m: CarlosMessage)
  {
    match ModelOf(m.messageType)
    case None => m.payload.None?
    case Some(model) => m.payload.Some? && m.payload.value.model == model
  }

  /** Constructing a message runs the validator, in the order of its checks. */
  function NewMessage(t: MessageType, p: Option<Payload>): (r: Result<CarlosMessage, MessageError>)
    ensures r.Ok? <==> Valid(CarlosMessage(t, p))
    ensures r.Ok? ==> r.value == CarlosMessage(t, p)
    ensures ModelOf(t).None? && p.Some? ==> r == Err(PayloadNotSupported)
    ensures ModelOf(t).Some? && p.None? ==> r == Err(PayloadMustNotBeNone)
  {
    match ModelOf(t)
    case None => if p.Some? then Err(PayloadNotSupported) else Ok(CarlosMessage(t, p))
    case Some(model) =>
      if p.None? then Err(PayloadMustNotBeNone)
      else if p.value.model != model then Err(PayloadModelMismatch)
      else Ok(CarlosMessage(t, p))
  }

  /** `s.split("|", 1)`: the text before the first separator and, if there is one, the text after it. */
  function SplitOnce(s: string): (r: (string, Option<string>))
    ensures Separator !in r.0
    ensures r.1.None? ==> r.0 == s
    ensures r.1.Some? ==> s == r.0 + [Separator] + r.1.value
  {
    if |s| == 0 then ("", None)
    else if s[0] == Separator then ("", Some(s[1..]))
    else
      var rest := SplitOnce(s[1..]);
      assert s == [s[0]] + s[1..];
      ([s[0]] + rest.0, rest.1)
  }

  lemma {:induction false} SplitOnceUnique(head: string, tail: Option<string>, s: string)
    requires Separator !in head
    requires tail.None? ==> s == head
    requires tail.Some? ==> s == head + [Separator] + tail.value
    ensures SplitOnce(s) == (head, tail)
  {
    if |head| > 0 {
      assert s[1..] == if tail.None? then head[1..] else head[1..] + [Separator] + tail.value;
      SplitOnceUnique(head[1..], tail, s[1..]);
      assert s[0] == head[0] && head[0] != Separator;
      assert head == [head[0]] + head[1..];
    }
  }

  /** The wire text of a message. */
  function Build(m: CarlosMessage, c: Codec): (s: string)
    ensures |s| >= |TypeValue(m.messageType)| && s[..|TypeValue(m.messageType)|] == TypeValue(m.messageType)
    ensures m.payload.None? <==> s == TypeValue(m.messageType)
  {
    match m.payload
    case None => TypeValue(m.messageType)
    case Some(p) => TypeValue(m.messageType) + [Separator] + c.dump(p)
  }

  /** Parsing the wire text, with each failure the source raises. */
  function FromStr(s: string, c: Codec): (r: Result<CarlosMessage, MessageError>)
    ensures r.Ok? ==> Valid(r.value)
    ensures ParseMessageType(SplitOnce(s).0).None? <==> r == Err(UnsupportedMessageType(SplitOnce(s).0))
    ensures r.Ok? ==> TypeValue(r.value.messageType) == SplitOnce(s).0
  {
    var (head, tail) := SplitOnce(s);
    match ParseMessageType(head)
    case None => Err(UnsupportedMessageType(head))
    case Some(t) =>
      match ModelOf(t)
      case None => NewMessage(t, None)
      case Some(model) =>
        if tail.None? then Err(MissingPayloadIndex)
        else if tail.value == "" then Err(MissingPayload)
        else
          match c.load(model, tail.value)
          case None => Err(InvalidPayload)
          case Some(p) => if NewMessage(t, Some(p)).Ok? then NewMessage(t, Some(p)) else Err(InvalidPayload)
  }

  /** Every valid message reads back from the text it is built into. */
  lemma BuildRoundTrip(m: CarlosMessage, c: Codec)
    requires Valid(m) && Faithful(c)
    ensures FromStr(Build(m, c), c) == Ok(m)
  {
    var t := m.messageType;
    TypeValueRoundTrip(t);
    match m.payload
    case None =>
      SplitOnceUnique(TypeValue(t), None, Build(m, c));
    case Some(p) =>
      assert c.dump(p) != "" && c.load(p.model, c.dump(p)) == Some(p);
      SplitOnceUnique(TypeValue(t), Some(c.dump(p)), Build(m, c));
  }

  /** For a payloadless type whatever follows the separator is ignored. */
  lemma PayloadlessIgnoresRest(t: MessageType, rest: string, c: Codec)
    requires ModelOf(t).None?
    ensures FromStr(TypeValue(t) + [Separator] + rest, c) == Ok(CarlosMessage(t, None))
  {
    TypeValueRoundTrip(t);
    SplitOnceUnique(TypeValue(t), Some(rest), TypeValue(t) + [Separator] + rest);
  }

  /** A payload type with no separator at all fails on the missing list element, and one with an empty payload is rejected. */
  lemma MissingPayloadErrors(t: MessageType, c: Codec)
    requires ModelOf(t).Some?
    ensures FromStr(TypeValue(t), c) == Err(MissingPayloadIndex)
    ensures FromStr(TypeValue(t) + [Separator], c) == Err(MissingPayload)
  {
    TypeValueRoundTrip(t);
    SplitOnceUnique(TypeValue(t), None, TypeValue(t));
    SplitOnceUnique(TypeValue(t), Some(""), TypeValue(t) + [Separator]);
  }

  /** The known types in examples: a ping needs no payload and an unknown type is refused by name. */
  lemma FromStrExamples(c: Codec)
    ensures FromStr("ping", c) == Ok(CarlosMessage(Ping, None))
    ensures FromStr("hello|{}", c) == Err(UnsupportedMessageType("hello"))
  {
    SplitOnceUnique("ping", None, "ping");
    SplitOnceUnique("hello", Some("{}"), "hello|{}");
  }
}
