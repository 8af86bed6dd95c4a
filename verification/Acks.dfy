/** The packets that acknowledge: PUBACK, PUBREC, PUBREL, PUBCOMP, SUBACK, UNSUBACK and CONNACK. */
module Acks {
  import opened Wire
  import opened VarInt
  import opened Properties
  import opened Framing
  import opened AckProps

  // ----- PUBACK, PUBREC, PUBREL, PUBCOMP -----

  datatype AckKind = PubAck | PubRec | PubRel | PubComp

  /** Without a property block the record of an MQTT 5.0 acknowledgement is empty. */
  datatype Ack =
    | AckV4(kind: AckKind, packetId: u16)
    | AckV5(kind: AckKind, packetId: u16, reason: byte, properties: AckProperties)

  function FirstByte(kind: AckKind): byte {
    match kind
    case PubAck => 0x40
    case PubRec => 0x50
    case PubRel => 0x62
    case PubComp => 0x70
  }

  function Reasons(kind: AckKind): set<byte> {
    if kind.PubAck? || kind.PubRec? then {0, 16, 128, 131, 135, 144, 145, 151, 153} else {0, 146}
  }

  /** What `PubCommon::new(id, protocol)` writes, in either protocol version. */
  function NewAck(kind: AckKind, id: u16): Bytes {
    [FirstByte(kind)] + Encode(2) + EncodeU16(id)
  }

  /** What reading that gives. */
  function PlainAck(kind: AckKind, id: u16, protocol: Protocol): Ack {
    if protocol.V4? then AckV4(kind, id) else AckV5(kind, id, 0, NO_ACK_PROPERTIES)
  }

  function ReadReason(kind: AckKind, b: byte): Result<byte> {
    if b in Reasons(kind) then Ok(b) else Err(InvalidConnectReturnCode(b))
  }

  /** `read_properties`, and the two other readers like it. */
  function ReadAckProperties(s: Bytes): Parsed<Option<AckProperties>> {
    var (items, rest) :- ReadBlock(ACK_PROPERTIES, s);
    Ok((if items.None? then None else Some(AckRecord(items.value)), rest))
  }

  method GetAckProperties(bytes: Reader) returns (r: Result<Option<AckProperties>>)
    modifies bytes
    ensures Agrees(ReadAckProperties(old(bytes.rest)), r, bytes.rest)
  {
    var items :- bytes.GetBlock(ACK_PROPERTIES);
    r := Ok(if items.None? then None else Some(AckRecord(items.value)));
  }

  /** `PubCommon::read` */
  function ReadAck(kind: AckKind, h: FixedHeader, frame: Bytes, protocol: Protocol): Result<Ack>
    requires h.fixedHeaderLen <= |frame|
  {
    var (id, rest) :- ReadU16(frame[h.fixedHeaderLen..]);
    if protocol.V4? then
      if h.remainingLen == 2 then Ok(AckV4(kind, id)) else Err(MalformedRemainingLength)
    else if h.remainingLen == 2 then Ok(AckV5(kind, id, 0, NO_ACK_PROPERTIES))
    else
      var (b, rest) :- ReadU8(rest);
      if h.remainingLen < 4 then
        var reason :- ReadReason(kind, b);
        Ok(AckV5(kind, id, reason, NO_ACK_PROPERTIES))
      else
        var (properties, _) :- ReadAckProperties(rest);
        var reason :- ReadReason(kind, b);
        Ok(AckV5(kind, id, reason, if properties.None? then NO_ACK_PROPERTIES else properties.value))
  }

  method GetAck(kind: AckKind, h: FixedHeader, frame: Bytes, protocol: Protocol) returns (r: Result<Ack>)
    requires h.fixedHeaderLen <= |frame|
    ensures r == ReadAck(kind, h, frame, protocol)
  {
    var bytes := new Reader(frame);
    bytes.Advance(h.fixedHeaderLen);
    var id :- bytes.GetU16();
    if protocol.V4? {
      return if h.remainingLen == 2 then Ok(AckV4(kind, id)) else Err(MalformedRemainingLength);
    }
    if h.remainingLen == 2 {
      return Ok(AckV5(kind, id, 0, NO_ACK_PROPERTIES));
    }
    var b :- bytes.GetU8();
    var properties := None;
    if h.remainingLen >= 4 {
      properties :- GetAckProperties(bytes);
    }
    var reason :- ReadReason(kind, b);
    r := Ok(AckV5(kind, id, reason, if properties.None? then NO_ACK_PROPERTIES else properties.value));
  }

  /** A new acknowledgement is one frame, and reads back with its kind and packet id in both protocol versions. */
  lemma AckRoundTrip(kind: AckKind, id: u16, protocol: Protocol, rest: Bytes)
    ensures var head := SplitHead(NewAck(kind, id) + rest);
            && head == Whole(FixedHeader(FirstByte(kind), 2, 2), NewAck(kind, id), rest)
            && ReadAck(kind, head.header, head.frame, protocol) == Ok(PlainAck(kind, id, protocol))
  {
    SplitFrameOf(FirstByte(kind), EncodeU16(id), rest);
    assert NewAck(kind, id) == FrameOf(FirstByte(kind), EncodeU16(id));
    assert NewAck(kind, id)[2..] == EncodeU16(id) + [];
    ReadU16Exact(EncodeU16(id) + [], id, []);
  }

  // ----- SUBACK and UNSUBACK -----

  const SUBACK_CODES_V4: set<byte> := {0, 1, 2, 128}
  const SUBACK_CODES_V5: set<byte> := {0, 1, 2, 128, 131, 135, 143, 145, 151, 158, 161, 162}
  const UNSUBACK_CODES: set<byte> := {0x00, 0x11, 0x80, 0x83, 0x87, 0x8F, 0x91}

  datatype ListAck = ListAck(packetId: u16, properties: Option<AckProperties>, codes: seq<byte>)

  function ReadCodes(known: set<byte>, s: Bytes): Result<seq<byte>> {
    if s == [] then Ok([])
    else if s[0] !in known then Err(InvalidSubscribeReasonCode(s[0]))
    else
      var codes :- ReadCodes(known, s[1..]);
      Ok([s[0]] + codes)
  }

  /** The payload loop: it takes every remaining byte of the frame. */
  method GetCodes(known: set<byte>, bytes: Reader) returns (r: Result<seq<byte>>)
    modifies bytes
    ensures r == ReadCodes(known, old(bytes.rest))
  {
    var codes := [];
    ghost var all := ReadCodes(known, bytes.rest);
    assert all.Ok? ==> [] + all.value == all.value;
    while bytes.rest != []
      invariant match ReadCodes(known, bytes.rest)
                case Ok(tail) => ReadCodes(known, old(bytes.rest)) == Ok(codes + tail)
                case Err(error) => ReadCodes(known, old(bytes.rest)) == Err(error)
      decreases |bytes.rest|
    {
      ghost var more := ReadCodes(known, bytes.rest[1..]);
      var read := bytes.GetU8();
      var code := read.value;
      if code !in known {
        return Err(InvalidSubscribeReasonCode(code));
      }
      assert more.Ok? ==> codes + ([code] + more.value) == codes + [code] + more.value;
      codes := codes + [code];
    }
    assert codes + [] == codes;
    r := Ok(codes);
  }

  function ReadOptionalBlock(protocol: Protocol, s: Bytes): Parsed<Option<AckProperties>> {
    if protocol.V4? then Ok((None, s)) else ReadAckProperties(s)
  }

  /** `SubAck::read`, and `UnsubAck::read` in MQTT 5.0. */
  function ReadListAck(known: set<byte>, h: FixedHeader, frame: Bytes, protocol: Protocol): Result<ListAck>
    requires h.fixedHeaderLen <= |frame|
  {
    var (id, rest) :- ReadU16(frame[h.fixedHeaderLen..]);
    var (properties, rest) :- ReadOptionalBlock(protocol, rest);
    if rest == [] then Err(MalformedPacket)
    else
      var codes :- ReadCodes(known, rest);
      Ok(ListAck(id, properties, codes))
  }

  method GetListAck(known: set<byte>, h: FixedHeader, frame: Bytes, protocol: Protocol) returns (r: Result<ListAck>)
    requires h.fixedHeaderLen <= |frame|
    ensures r == ReadListAck(known, h, frame, protocol)
  {
    var bytes := new Reader(frame);
    bytes.Advance(h.fixedHeaderLen);
    var id :- bytes.GetU16();
    var properties := None;
    if protocol.V5? {
      properties :- GetAckProperties(bytes);
    }
    if bytes.rest == [] {
      return Err(MalformedPacket);
    }
    var codes :- GetCodes(known, bytes);
    r := Ok(ListAck(id, properties, codes));
  }

  function ReadSubAck(h: FixedHeader, frame: Bytes, protocol: Protocol): Result<ListAck>
    requires h.fixedHeaderLen <= |frame|
  {
    ReadListAck(if protocol.V4? then SUBACK_CODES_V4 else SUBACK_CODES_V5, h, frame, protocol)
  }

  /** In MQTT 3.1.1 UNSUBACK is a packet id; anything after it is ignored. */
  function ReadUnsubAck(h: FixedHeader, frame: Bytes, protocol: Protocol): Result<ListAck>
    requires h.fixedHeaderLen <= |frame|
  {
    if protocol.V4? then
      var (id, _) :- ReadU16(frame[h.fixedHeaderLen..]);
      Ok(ListAck(id, None, []))
    else ReadListAck(UNSUBACK_CODES, h, frame, protocol)
  }

  lemma {:induction false} ReadCodesExact(known: set<byte>, s: Bytes, codes: seq<byte>)
    ensures ReadCodes(known, s) == Ok(codes) <==> s == codes && forall b :: b in codes ==> b in known
  {
    if s != [] && codes != [] {
      ReadCodesExact(known, s[1..], codes[1..]);
      assert s == [s[0]] + s[1..] && codes == [codes[0]] + codes[1..];
      assert forall b :: b in codes <==> b == codes[0] || b in codes[1..];
    }
  }

  /** In MQTT 3.1.1 a SUBACK body is accepted exactly when it is a packet id and at least one known return code. */
  lemma SubAckLanguageV4(h: FixedHeader, head: Bytes, body: Bytes, id: u16, codes: seq<byte>)
    requires h.fixedHeaderLen == |head|
    ensures ReadSubAck(h, head + body, V4) == Ok(ListAck(id, None, codes))
            <==> body == EncodeU16(id) + codes && codes != [] && forall b :: b in codes ==> b in SUBACK_CODES_V4
  {
    assert (head + body)[|head|..] == body;
    if ReadU16(body).Ok? {
      var (n, rest) := ReadU16(body).value;
      ReadU16Exact(body, n, rest);
      ReadCodesExact(SUBACK_CODES_V4, rest, codes);
    }
    ReadU16Exact(body, id, codes);
  }

  // ----- CONNACK -----

  const CONNECT_CODES_V4: set<byte> := {0, 1, 2, 3, 4, 5}

  const CONNECT_CODES_V5: set<byte> := {
    0, 128, 129, 130, 131, 132, 133, 134, 135, 136, 137, 138, 140, 144, 149, 151, 153, 154, 155, 156, 157, 159
  }

  /** Code 0 is success. */
  datatype ConnAck = ConnAck(sessionPresent: bool, code: byte, properties: Option<ConnAckProperties>)

  function ReadConnectCode(known: set<byte>, b: byte): Result<byte> {
    if b in known then Ok(b) else Err(InvalidConnectReturnCode(b))
  }

  function ReadConnAckProperties(s: Bytes): Parsed<Option<ConnAckProperties>> {
    var (items, rest) :- ReadBlock(CONNACK_PROPERTIES, s);
    Ok((if items.None? then None else Some(ConnAckRecord(items.value)), rest))
  }

  /** `ConnAckProperties::read` */
  method GetConnAckProperties(bytes: Reader) returns (r: Result<Option<ConnAckProperties>>)
    modifies bytes
    ensures Agrees(ReadConnAckProperties(old(bytes.rest)), r, bytes.rest)
  {
    var items :- bytes.GetBlock(CONNACK_PROPERTIES);
    r := Ok(if items.None? then None else Some(ConnAckRecord(items.value)));
  }

  function ReadConnAck(h: FixedHeader, frame: Bytes, protocol: Protocol): Result<ConnAck>
    requires h.fixedHeaderLen <= |frame|
  {
    var (flags, rest) :- ReadU8(frame[h.fixedHeaderLen..]);
    var (b, rest) :- ReadU8(rest);
    if protocol.V4? then
      var code :- ReadConnectCode(CONNECT_CODES_V4, b);
      Ok(ConnAck(flags % 2 == 1, code, None))
    else
      var (properties, _) :- ReadConnAckProperties(rest);
      var code :- ReadConnectCode(CONNECT_CODES_V5, b);
      Ok(ConnAck(flags % 2 == 1, code, properties))
  }

  method GetConnAck(h: FixedHeader, frame: Bytes, protocol: Protocol) returns (r: Result<ConnAck>)
    requires h.fixedHeaderLen <= |frame|
    ensures r == ReadConnAck(h, frame, protocol)
  {
    var bytes := new Reader(frame);
    bytes.Advance(h.fixedHeaderLen);
    var flags :- bytes.GetU8();
    var b :- bytes.GetU8();
    if protocol.V4? {
      var code :- ReadConnectCode(CONNECT_CODES_V4, b);
      return Ok(ConnAck(flags % 2 == 1, code, None));
    }
    var properties :- GetConnAckProperties(bytes);
    var code :- ReadConnectCode(CONNECT_CODES_V5, b);
    r := Ok(ConnAck(flags % 2 == 1, code, properties));
  }

  /**
   Whatever bytes a CONNACK is read from, its record is the one its property items spell out: the last value of each
   property, and all user properties in order.
   */
  lemma ConnAckPropertiesMean(s: Bytes)
    requires ReadBlock(CONNACK_PROPERTIES, s).Ok?
    ensures var (items, rest) := ReadBlock(CONNACK_PROPERTIES, s).value;
            if items.None? then ReadConnAckProperties(s) == Ok((None, rest))
            else ReadConnAckProperties(s).Ok? && ReadConnAckProperties(s).value.0.Some?
                 && ConnAckHolds(ReadConnAckProperties(s).value.0.value, items.value)
  {
    hide ReadBlock, ConnAckRecord, ConnAckHolds, Readable;
    var (items, rest) := ReadBlock(CONNACK_PROPERTIES, s).value;
    if items.Some? {
      ReadBlockReadable(CONNACK_PROPERTIES, s);
      ConnAckRecordMeans(items.value);
    }
  }

  /** The same for the four acknowledgements, SUBACK and UNSUBACK. */
  lemma AckPropertiesMean(s: Bytes)
    requires ReadBlock(ACK_PROPERTIES, s).Ok?
    ensures var (items, rest) := ReadBlock(ACK_PROPERTIES, s).value;
            if items.None? then ReadAckProperties(s) == Ok((None, rest))
            else ReadAckProperties(s).Ok? && ReadAckProperties(s).value.0.Some?
                 && AckHolds(ReadAckProperties(s).value.0.value, items.value)
  {
    hide ReadBlock, AckRecord, AckHolds, Readable;
    var (items, rest) := ReadBlock(ACK_PROPERTIES, s).value;
    if items.Some? {
      ReadBlockReadable(ACK_PROPERTIES, s);
      AckRecordMeans(items.value);
    }
  }
}
