/** PUBLISH: its writer, its reader, and the DUP bit. */
module PublishPacket {
  import opened Wire
  import opened VarInt
  import opened Properties
  import opened PropertyLists
  import opened PublishProps
  import opened Framing

  datatype QoSWithPacketId = AtMostOnce | AtLeastOnce(id: u16) | ExactlyOnce(id: u16)

  datatype Publish = Publish(
    protocol: Protocol,
    dup: bool,
    qos: QoSWithPacketId,
    retain: bool,
    topic: Bytes,
    payload: Bytes,
    properties: Option<PublishProperties>)

  // ----- Writing -----

  /** 0b0011_0000 | retain | qos << 1 | dup << 3; the bits are disjoint, so the union is a sum. */
  function HeaderByte(p: Publish): byte {
    0x30 + (if p.retain then 1 else 0) + 2 * QoSNumber(p.qos) + (if p.dup then 8 else 0)
  }

  function QoSNumber(qos: QoSWithPacketId): (n: byte)
    ensures n <= 2
  {
    match qos
    case AtMostOnce => 0
    case AtLeastOnce(_) => 1
    case ExactlyOnce(_) => 2
  }

  function PacketIdBytes(qos: QoSWithPacketId): Bytes {
    match qos
    case AtMostOnce => []
    case AtLeastOnce(id) => EncodeU16(id)
    case ExactlyOnce(id) => EncodeU16(id)
  }

  /** The property block: absent in MQTT 3.1.1, one zero byte for no properties. */
  function PropertyBytes(p: Publish): Bytes {
    if p.protocol.V4? then []
    else if p.properties.None? then Encode(0)
    else WriteBlock(Items(p.properties.value))
  }

  /** `Publish::len`: the remaining length as computed before writing. */
  function Len(p: Publish): nat {
    2 + |p.topic| + |p.payload|
    + (if p.qos.AtMostOnce? then 0 else 2)
    + if p.protocol.V4? then 0
      else if p.properties.None? then 1
      else LenLen(Declared(Items(p.properties.value))) + Declared(Items(p.properties.value))
  }

  function Body(p: Publish): Bytes {
    EncodeField(p.topic) + (PacketIdBytes(p.qos) + (PropertyBytes(p) + p.payload))
  }

  function Frame(p: Publish): Bytes {
    [HeaderByte(p)] + Encode(Len(p)) + Body(p)
  }

  /** `Publish::write` */
  method WritePublish(p: Publish, buffer: BytesMut) returns (written: nat)
    modifies buffer
    ensures buffer.data == old(buffer.data) + Frame(p)
    ensures written == 1 + |Encode(Len(p))| + Len(p)
  {
    hide Encode, Body, Len, HeaderByte;
    buffer.PutU8(HeaderByte(p));
    var count := WriteRemainingLength(buffer, Len(p));
    WriteBody(p, buffer);
    written := 1 + count + Len(p);
  }

  method WriteBody(p: Publish, buffer: BytesMut)
    modifies buffer
    ensures buffer.data == old(buffer.data) + Body(p)
  {
    hide Encode, Items, EncodeField, WriteBlock;
    ghost var start := buffer.data;
    buffer.WriteField(p.topic);
    assert buffer.data == start + EncodeField(p.topic);
    if !p.qos.AtMostOnce? {
      buffer.PutU16(p.qos.id);
    }
    assert buffer.data == start + (EncodeField(p.topic) + PacketIdBytes(p.qos));
    match p.protocol {
      case V4 => buffer.Extend(p.payload);
      case V5 =>
        if p.properties.Some? {
          WriteProperties(p.properties.value, buffer);
        } else {
          var _ := WriteRemainingLength(buffer, 0);
        }
        assert buffer.data == start + (EncodeField(p.topic) + PacketIdBytes(p.qos)) + PropertyBytes(p);
        buffer.Extend(p.payload);
    }
  }

  // ----- Reading -----

  function ReadQoS(number: byte, s: Bytes): Parsed<QoSWithPacketId> {
    match number
    case 0 => Ok((AtMostOnce, s))
    case 1 => var (id, rest) :- ReadU16(s); Ok((AtLeastOnce(id), rest))
    case 2 => var (id, rest) :- ReadU16(s); Ok((ExactlyOnce(id), rest))
    case _ => Err(InvalidQoS(number))
  }

  function ReadPublish(h: FixedHeader, frame: Bytes, protocol: Protocol): Result<Publish>
    requires h.fixedHeaderLen <= |frame|
  {
    var number := h.byte1 / 2 % 4;
    if number == 3 then Err(InvalidQoS(3))
    else
      var (topic, rest) :- ReadText(frame[h.fixedHeaderLen..]);
      var (qos, rest) :- ReadQoS(number, rest);
      var (properties, payload) :- ReadOptionalProperties(protocol, rest);
      Ok(Publish(protocol, h.byte1 / 8 % 2 == 1, qos, h.byte1 % 2 == 1, topic, payload, properties))
  }

  function ReadOptionalProperties(protocol: Protocol, s: Bytes): Parsed<Option<PublishProperties>> {
    if protocol.V4? then Ok((None, s)) else ReadProperties(s)
  }

  /** `Publish::read` */
  method GetPublish(h: FixedHeader, frame: Bytes, protocol: Protocol) returns (r: Result<Publish>)
    requires h.fixedHeaderLen <= |frame|
    ensures r == ReadPublish(h, frame, protocol)
  {
    var number := h.byte1 / 2 % 4;
    if number == 3 {
      return Err(InvalidQoS(3));
    }
    var dup, retain := h.byte1 / 8 % 2 == 1, h.byte1 % 2 == 1;
    var bytes := new Reader(frame);
    bytes.Advance(h.fixedHeaderLen);
    var topic :- bytes.GetText();
    var qos := AtMostOnce;
    if number != 0 {
      var id :- bytes.GetU16();
      qos := if number == 1 then AtLeastOnce(id) else ExactlyOnce(id);
    }
    var properties := None;
    match protocol {
      case V4 =>
      case V5 => properties :- GetProperties(bytes);
    }
    r := Ok(Publish(protocol, dup, qos, retain, topic, bytes.rest, properties));
  }

  // ----- Write, then read -----

  /** What a PUBLISH must be for its body to read back: a topic that fits, and properties only where they survive. */
  predicate BodySurvives(p: Publish) {
    FitsText(p.topic) && (p.properties.Some? ==> p.protocol.V5? && Survives(p.properties.value))
  }

  lemma ReadQoSExact(qos: QoSWithPacketId, tail: Bytes)
    ensures ReadQoS(QoSNumber(qos), PacketIdBytes(qos) + tail) == Ok((qos, tail))
  {
    match qos
    case AtMostOnce => assert [] + tail == tail;
    case AtLeastOnce(id) => ReadU16Exact(EncodeU16(id) + tail, id, tail);
    case ExactlyOnce(id) => ReadU16Exact(EncodeU16(id) + tail, id, tail);
  }

  lemma HeaderBits(p: Publish)
    ensures var b := HeaderByte(p);
            b / 16 == 3 && b / 2 % 4 == QoSNumber(p.qos) && (b / 8 % 2 == 1 <==> p.dup) && (b % 2 == 1 <==> p.retain)
  {
  }

  lemma ReadPropertyBytes(p: Publish)
    ensures ReadOptionalProperties(p.protocol, PropertyBytes(p) + p.payload) == Ok((p.properties, p.payload))
            <==> (p.properties.Some? ==> p.protocol.V5? && Survives(p.properties.value))
  {
    hide Survives, WriteBlock, ReadItems, Items;
    if p.protocol.V4? {
      assert [] + p.payload == p.payload;
    } else if p.properties.None? {
      ReadBlockOf(PUBLISH_PROPERTIES, 0, p.payload);
    } else {
      PropertiesRoundTrip(p.properties.value, p.payload);
    }
  }

  /** After any fixed header that announces it, the body reads back to p exactly when BodySurvives(p). */
  lemma ReadBody(h: FixedHeader, head: Bytes, p: Publish)
    requires h.byte1 == HeaderByte(p) && h.fixedHeaderLen == |head|
    ensures ReadPublish(h, head + Body(p), p.protocol) == Ok(p) <==> BodySurvives(p)
  {
    hide Survives, WriteBlock, ReadProperties, Items, PropertyBytes, ReadU16, ValidUtf8, HeaderByte;
    var tail := PacketIdBytes(p.qos) + (PropertyBytes(p) + p.payload);
    HeaderBits(p);
    assert (head + Body(p))[|head|..] == EncodeField(p.topic) + tail;
    ReadTextExact(EncodeField(p.topic) + tail, p.topic, tail);
    ReadQoSExact(p.qos, PropertyBytes(p) + p.payload);
    ReadPropertyBytes(p);
    var r := ReadPublish(h, head + Body(p), p.protocol);
    if FitsText(p.topic) {
      assert ReadText((head + Body(p))[|head|..]) == Ok((p.topic, tail));
      assert h.byte1 / 2 % 4 == QoSNumber(p.qos);
      var tailRead := ReadOptionalProperties(p.protocol, PropertyBytes(p) + p.payload);
      assert r == match tailRead
                  case Ok((properties, payload)) => Ok(p.(properties := properties, payload := payload))
                  case Err(error) => Err(error);
    } else if r == Ok(p) {
      ReadPublishTopic(h, head + Body(p), p.protocol);
    }
  }

  lemma ReadPublishTopic(h: FixedHeader, frame: Bytes, protocol: Protocol)
    requires h.fixedHeaderLen <= |frame| && ReadPublish(h, frame, protocol).Ok?
    ensures FitsText(ReadPublish(h, frame, protocol).value.topic)
  {
    hide ReadQoS, ReadOptionalProperties;
    var s := frame[h.fixedHeaderLen..];
    var (topic, rest) := ReadText(s).value;
    ReadTextExact(s, topic, rest);
  }

  /** Whatever frame it came from, a PUBLISH that was read has the protocol asked for and readable properties. */
  lemma ReadPublishSound(h: FixedHeader, frame: Bytes, protocol: Protocol, p: Publish)
    requires h.fixedHeaderLen <= |frame| && ReadPublish(h, frame, protocol) == Ok(p)
    ensures p.protocol == protocol
    ensures p.properties.Some? ==> protocol.V5? && Valid(p.properties.value)
  {
    hide ReadProperties, ReadText, ReadQoS, Valid;
    var (_, rest) := ReadText(frame[h.fixedHeaderLen..]).value;
    var (_, rest') := ReadQoS(h.byte1 / 2 % 4, rest).value;
    var read := ReadOptionalProperties(protocol, rest');
    assert read.Ok? && read.value.0 == p.properties && read.value.1 == p.payload;
    if p.properties.Some? {
      ReadBackValid(rest', p.properties.value, p.payload);
    }
  }

  /** Every identifier and the property length itself can be written in the bytes counted for it. */
  predicate LengthsFit(p: Publish) {
    p.properties.Some? && p.protocol.V5? ==>
      && (forall i :: 0 <= i < |p.properties.value.subscriptionIdentifiers| ==>
            p.properties.value.subscriptionIdentifiers[i] <= MAX_VAR_INT)
      && Declared(Items(p.properties.value)) <= MAX_VAR_INT
  }

  /** The precomputed length is the number of bytes written exactly then; topics and fields may be of any length. */
  lemma LenIsWritten(p: Publish)
    ensures Len(p) == |Body(p)| <==> LengthsFit(p)
  {
    hide Items, Encode, EncodeItems, Declared, VarIntsFit;
    if p.properties.Some? && p.protocol.V5? {
      var r := p.properties.value;
      IdentifiersFit(r);
      DeclaredIsWritten(Items(r));
      WidthIsLenLen(Declared(Items(r)));
      WidthIsAtLeast(Declared(Items(r)));
    } else {
      OneByteZero();
    }
  }

  lemma OneByteZero()
    ensures |Encode(0)| == 1
  {
  }

  lemma WidthIsAtLeast(n: nat)
    ensures |Encode(n)| >= LenLen(n)
  {
    WidthIsLenLen(n);
  }

  // ----- Retransmission -----

  /** `dup_data` differs from `data` in bit 3 of the first byte and nowhere else: section 3.3.1.1 of MQTT 3.1.1. */
  lemma DupChangesOneBit(p: Publish)
    requires !p.dup
    ensures Frame(p.(dup := true)) == Frame(p)[0 := Frame(p)[0] + 8]
    ensures Frame(p)[0] / 8 % 2 == 0
  {
    var q := p.(dup := true);
    DupHeader(p);
    SameBesidesHeader(p);
    hide Len, Body, Encode, HeaderByte;
    HeadReplaced(HeaderByte(p), HeaderByte(q), Encode(Len(p)), Body(p));
  }

  lemma DupHeader(p: Publish)
    requires !p.dup
    ensures HeaderByte(p.(dup := true)) == HeaderByte(p) + 8 && HeaderByte(p) / 8 % 2 == 0
  {
  }

  lemma SameBesidesHeader(p: Publish)
    ensures Len(p.(dup := true)) == Len(p) && Body(p.(dup := true)) == Body(p)
  {
    hide Encode, EncodeField, WriteBlock, Items, Declared;
  }

  lemma HeadReplaced(b: byte, b': byte, mid: Bytes, end: Bytes)
    ensures [b'] + mid + end == ([b] + mid + end)[0 := b'] && ([b] + mid + end)[0] == b
  {
  }
}
