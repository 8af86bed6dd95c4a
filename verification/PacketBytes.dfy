/**
 The packets a client can receive, byte by byte: section 2.1 and chapter 3 of MQTT 3.1.1 and 5.0, with the tables of this
 client. What it reads off the network is compared with this description, both ways.
 */
module PacketBytes {
  import opened Wire
  import opened VarInt
  import opened Properties
  import opened PropertyValues
  import opened PropertyBytes
  import opened Numerals
  import opened Framing
  import opened Framer
  import opened Streaming
  import opened PublishPacket
  import Publishes = PublishProps
  import opened AckProps
  import opened Acks
  import Disconnects = DisconnectPacket

  // ----- PUBLISH -----

  /** The packet id of a PUBLISH: none at QoS 0, two bytes above it. */
  function IdWidth(qos: QoSWithPacketId): nat {
    if qos.AtMostOnce? then 0 else 2
  }

  predicate IsQoS(number: nat, id: Bytes, qos: QoSWithPacketId) {
    match qos
    case AtMostOnce => number == 0
    case AtLeastOnce(n) => number == 1 && |id| == 2 && BigEndian(id) == n
    case ExactlyOnce(n) => number == 2 && |id| == 2 && BigEndian(id) == n
  }

  /** Topic, packet id, in MQTT 5.0 the properties, and the payload to the end. */
  ghost predicate IsPublish(version: Protocol, b1: byte, body: Bytes, p: Publish) {
    var t := 2 + |p.topic|;
    var k := t + IdWidth(p.qos);
    && p.protocol == version
    && p.dup == (b1 / 8 % 2 == 1) && p.retain == (b1 % 2 == 1)
    && k <= |body| && IsTextField(body[..t], p.topic) && IsQoS(b1 / 2 % 4, body[t..k], p.qos)
    && match version
       case V4 => p.properties.None? && p.payload == body[k..]
       case V5 =>
         exists block ::
           IsBlock({1, 2, 3, 8, 9, 11, 35, 38}, body[k..], block, p.payload) && IsPublishRecord(p.properties, block)
  }

  ghost predicate IsPublishRecord(record: Option<Publishes.PublishProperties>, block: Option<seq<Item>>) {
    if block.None? then record.None? else record.Some? && Publishes.PublishHolds(record.value, block.value)
  }

  // ----- The acknowledgements -----

  predicate IsAckReason(kind: AckKind, b: byte) {
    if kind.PubAck? || kind.PubRec?
    then b in {0x00, 0x10, 0x80, 0x83, 0x87, 0x90, 0x91, 0x97, 0x99}
    else b in {0x00, 0x92}
  }

  ghost predicate IsAckRecord(record: Option<AckProperties>, block: Option<seq<Item>>) {
    if block.None? then record.None? else record.Some? && AckHolds(record.value, block.value)
  }

  /** No block and an empty one are the same here. */
  ghost predicate IsAckTail(record: AckProperties, block: Option<seq<Item>>) {
    if block.None? then record == AckProperties(None, []) else AckHolds(record, block.value)
  }

  /** A packet id; in MQTT 5.0 a reason if there is a third byte, and properties if there is a fourth. */
  ghost predicate IsAck(version: Protocol, kind: AckKind, body: Bytes, a: Ack) {
    && |body| >= 2 && a.kind == kind && BigEndian(body[..2]) == a.packetId
    && match version
       case V4 => a.AckV4? && |body| == 2
       case V5 =>
         && a.AckV5?
         && (|body| == 2 ==> a.reason == 0 && a.properties == AckProperties(None, []))
         && (|body| >= 3 ==> a.reason == body[2] && IsAckReason(kind, a.reason))
         && (|body| == 3 ==> a.properties == AckProperties(None, []))
         && (|body| >= 4 ==>
               exists block, rest :: IsBlock({31, 38}, body[3..], block, rest) && IsAckTail(a.properties, block))
  }

  predicate IsSubAckCode(version: Protocol, b: byte) {
    if version.V4? then b in {0x00, 0x01, 0x02, 0x80}
    else b in {0x00, 0x01, 0x02, 0x80, 0x83, 0x87, 0x8F, 0x91, 0x97, 0x9E, 0xA1, 0xA2}
  }

  predicate IsUnsubAckCode(b: byte) {
    b in {0x00, 0x11, 0x80, 0x83, 0x87, 0x8F, 0x91}
  }

  /** A packet id, in MQTT 5.0 the properties, and at least one code, to the end. */
  ghost predicate IsSubAck(version: Protocol, body: Bytes, a: ListAck) {
    && |body| >= 2 && BigEndian(body[..2]) == a.packetId
    && a.codes != [] && (forall i :: 0 <= i < |a.codes| ==> IsSubAckCode(version, a.codes[i]))
    && match version
       case V4 => a.properties.None? && a.codes == body[2..]
       case V5 => exists block :: IsBlock({31, 38}, body[2..], block, a.codes) && IsAckRecord(a.properties, block)
  }

  /** In MQTT 3.1.1 only the packet id is looked at. */
  ghost predicate IsUnsubAck(version: Protocol, body: Bytes, a: ListAck) {
    && |body| >= 2 && BigEndian(body[..2]) == a.packetId
    && match version
       case V4 => a.properties.None? && a.codes == []
       case V5 =>
         && a.codes != [] && (forall i :: 0 <= i < |a.codes| ==> IsUnsubAckCode(a.codes[i]))
         && exists block :: IsBlock({31, 38}, body[2..], block, a.codes) && IsAckRecord(a.properties, block)
  }

  predicate IsConnectCode(version: Protocol, b: byte) {
    if version.V4? then b <= 5
    else b == 0 || 128 <= b <= 138 || b in {140, 144, 149, 151, 153, 154, 155, 156, 157, 159}
  }

  /** The session-present bit, the code, and in MQTT 5.0 the properties; what is behind them is not looked at. */
  ghost predicate IsConnAck(version: Protocol, body: Bytes, a: ConnAck) {
    && |body| >= 2 && a.sessionPresent == (body[0] % 2 == 1) && a.code == body[1] && IsConnectCode(version, a.code)
    && match version
       case V4 => a.properties.None?
       case V5 =>
         exists block, rest ::
           && IsBlock({17, 18, 19, 21, 22, 26, 28, 31, 33, 34, 36, 37, 38, 39, 40, 41, 42}, body[2..], block, rest)
           && IsConnAckRecord(a.properties, block)
  }

  ghost predicate IsConnAckRecord(record: Option<ConnAckProperties>, block: Option<seq<Item>>) {
    if block.None? then record.None? else record.Some? && ConnAckHolds(record.value, block.value)
  }

  // ----- DISCONNECT -----

  predicate IsDisconnectReason(b: byte) {
    b == 0 || b == 4 || 0x80 <= b <= 0x83 || b == 0x87 || b == 0x89 || b == 0x8B || 0x8D <= b <= 0x90
    || 0x93 <= b <= 0xA2
  }

  ghost predicate IsDisconnect(body: Bytes, d: Disconnects.Disconnect) {
    && d.DisconnectV5?
    && if body == [] then d.reason == 0 && d.properties.None?
       else
         && d.reason == body[0] && IsDisconnectReason(body[0])
         && exists block, rest ::
              IsBlock({17, 28, 31, 38}, body[1..], block, rest) && IsDisconnectRecord(d.properties, block)
  }

  ghost predicate IsDisconnectRecord(record: Option<Disconnects.DisconnectProperties>, block: Option<seq<Item>>) {
    if block.None? then record.None? else record.Some? && Disconnects.DisconnectHolds(record.value, block.value)
  }

  // ----- All of them, by packet type -----

  ghost predicate Denotes(version: Protocol, b1: byte, body: Bytes, p: Packet) {
    match p
    case ConnAckPacket(a) => b1 / 16 == 2 && IsConnAck(version, body, a)
    case PublishReceived(q) => b1 / 16 == 3 && IsPublish(version, b1, body, q)
    case AckReceived(a) =>
      && b1 / 16 == (match a.kind case PubAck => 4 case PubRec => 5 case PubRel => 6 case PubComp => 7)
      && IsAck(version, a.kind, body, a)
    case SubAckReceived(a) => b1 / 16 == 9 && IsSubAck(version, body, a)
    case UnsubAckReceived(a) => b1 / 16 == 11 && IsUnsubAck(version, body, a)
    case PingRespReceived => b1 / 16 == 13
    case DisconnectReceived(d) => version.V5? && b1 == 0xE0 && IsDisconnect(body, d)
  }

  // ----- The readers against it: PUBLISH -----

  lemma PublishRecordLanguage(s: Bytes, record: Option<Publishes.PublishProperties>, rest: Bytes)
    ensures Publishes.ReadProperties(s) == Ok((record, rest))
            <==> exists block :: IsBlock({1, 2, 3, 8, 9, 11, 35, 38}, s, block, rest) && IsPublishRecord(record, block)
  {
    hide IsBlock, ReadBlock, Publishes.PublishHolds;
    assert Publishes.PUBLISH_PROPERTIES == {1, 2, 3, 8, 9, 11, 35, 38};
    if Publishes.ReadProperties(s).Ok? {
      Publishes.PropertiesMean(s);
      var block, end := ReadBlock({1, 2, 3, 8, 9, 11, 35, 38}, s).value.0, Publishes.ReadProperties(s).value.1;
      BlockLanguage({1, 2, 3, 8, 9, 11, 35, 38}, s, block, end);
      assert IsPublishRecord(Publishes.ReadProperties(s).value.0, block);
    }
    if block :| IsBlock({1, 2, 3, 8, 9, 11, 35, 38}, s, block, rest) && IsPublishRecord(record, block) {
      BlockLanguage({1, 2, 3, 8, 9, 11, 35, 38}, s, block, rest);
      PublishRecordUnique(record, Publishes.ReadProperties(s).value.0, block);
    }
  }

  lemma PublishRecordUnique(a: Option<Publishes.PublishProperties>, b: Option<Publishes.PublishProperties>,
                            block: Option<seq<Item>>)
    requires IsPublishRecord(a, block) && IsPublishRecord(b, block)
    ensures a == b
  {
  }

  lemma QoSLanguage(number: byte, s: Bytes, qos: QoSWithPacketId)
    requires IdWidth(qos) <= |s|
    ensures ReadQoS(number, s) == Ok((qos, s[IdWidth(qos)..])) <==> IsQoS(number, s[..IdWidth(qos)], qos)
  {
    if !qos.AtMostOnce? {
      assert s == s[..2] + s[2..];
      U16Spelled(s[..2], qos.id, s[2..]);
    }
  }

  lemma QoSWidth(number: byte, s: Bytes)
    ensures ReadQoS(number, s).Ok? ==>
              var w := IdWidth(ReadQoS(number, s).value.0); w <= |s| && ReadQoS(number, s).value.1 == s[w..]
  {
  }

  /** The parts of a PUBLISH are read one behind the other. */
  predicate ReadsInParts(version: Protocol, b1: byte, body: Bytes, p: Publish) {
    var t := 2 + |p.topic|;
    var k := t + IdWidth(p.qos);
    && p.protocol == version && p.dup == (b1 / 8 % 2 == 1) && p.retain == (b1 % 2 == 1)
    && k <= |body| && ReadText(body) == Ok((p.topic, body[t..]))
    && ReadQoS(b1 / 2 % 4, body[t..]) == Ok((p.qos, body[k..]))
    && ReadOptionalProperties(version, body[k..]) == Ok((p.properties, p.payload))
  }

  lemma PartsRead(h: FixedHeader, frame: Bytes, version: Protocol, p: Publish)
    requires h.fixedHeaderLen <= |frame| && ReadsInParts(version, h.byte1, frame[h.fixedHeaderLen..], p)
    ensures ReadPublish(h, frame, version) == Ok(p)
  {
    hide ReadText, ReadQoS, ReadOptionalProperties;
    NoThirdQoS(frame[h.fixedHeaderLen..][2 + |p.topic|..]);
  }

  lemma NoThirdQoS(s: Bytes)
    ensures ReadQoS(3, s).Err?
  {
  }

  lemma ReadInParts(h: FixedHeader, frame: Bytes, version: Protocol)
    requires h.fixedHeaderLen <= |frame| && ReadPublish(h, frame, version).Ok?
    ensures ReadsInParts(version, h.byte1, frame[h.fixedHeaderLen..], ReadPublish(h, frame, version).value)
  {
    hide ReadText, ReadQoS, ReadOptionalProperties;
    var body := frame[h.fixedHeaderLen..];
    var (topic, rest) := ReadText(body).value;
    TextRead(body, topic);
    QoSWidth(h.byte1 / 2 % 4, rest);
    var (qos, rest') := ReadQoS(h.byte1 / 2 % 4, rest).value;
    var t := 2 + |topic|;
    var k := t + IdWidth(qos);
    assert rest == body[t..] && rest' == body[k..];
    var (properties, payload) := ReadOptionalProperties(version, rest').value;
    var p := ReadPublish(h, frame, version).value;
    assert p.topic == topic && p.qos == qos;
    assert p.properties == properties && p.payload == payload;
    assert ReadText(body) == Ok((p.topic, body[t..]));
    assert ReadQoS(h.byte1 / 2 % 4, body[t..]) == Ok((p.qos, body[k..]));
    assert ReadOptionalProperties(version, body[k..]) == Ok((p.properties, p.payload));
  }

  lemma PublishLanguage(h: FixedHeader, frame: Bytes, version: Protocol, p: Publish)
    requires h.fixedHeaderLen <= |frame|
    ensures ReadPublish(h, frame, version) == Ok(p) <==> IsPublish(version, h.byte1, frame[h.fixedHeaderLen..], p)
  {
    hide ReadPublish, ReadText, ReadQoS, IsQoS, IsBlock, IsPublishRecord, IsTextField, Publishes.ReadProperties;
    var body, t := frame[h.fixedHeaderLen..], 2 + |p.topic|;
    var k := t + IdWidth(p.qos);
    if ReadPublish(h, frame, version) == Ok(p) {
      ReadInParts(h, frame, version);
    }
    if ReadsInParts(version, h.byte1, body, p) {
      PartsRead(h, frame, version, p);
    }
    if k <= |body| {
      assert body == body[..t] + body[t..];
      FieldSpelled(body[..t], p.topic, body[t..]);
      QoSLanguage(h.byte1 / 2 % 4, body[t..], p.qos);
      assert body[t..][IdWidth(p.qos)..] == body[k..] && body[t..][..IdWidth(p.qos)] == body[t..k];
      PublishRecordLanguage(body[k..], p.properties, p.payload);
    }
  }

  // ----- The acknowledgements -----

  lemma AckTables(kind: AckKind, version: Protocol, b: byte)
    ensures b in Reasons(kind) <==> IsAckReason(kind, b)
    ensures b in (if version.V4? then SUBACK_CODES_V4 else SUBACK_CODES_V5) <==> IsSubAckCode(version, b)
    ensures b in UNSUBACK_CODES <==> IsUnsubAckCode(b)
    ensures b in (if version.V4? then CONNECT_CODES_V4 else CONNECT_CODES_V5) <==> IsConnectCode(version, b)
    ensures b in Disconnects.REASON_CODES <==> IsDisconnectReason(b)
  {
  }

  lemma AckRecordLanguage(s: Bytes, record: Option<AckProperties>, rest: Bytes)
    ensures ReadAckProperties(s) == Ok((record, rest))
            <==> exists block :: IsBlock({31, 38}, s, block, rest) && IsAckRecord(record, block)
  {
    hide IsBlock, ReadBlock, AckHolds;
    assert ACK_PROPERTIES == {31, 38};
    if ReadAckProperties(s).Ok? {
      AckPropertiesMean(s);
      var block, end := ReadBlock({31, 38}, s).value.0, ReadAckProperties(s).value.1;
      BlockLanguage({31, 38}, s, block, end);
      assert IsAckRecord(ReadAckProperties(s).value.0, block);
    }
    if block :| IsBlock({31, 38}, s, block, rest) && IsAckRecord(record, block) {
      BlockLanguage({31, 38}, s, block, rest);
      AckPropertiesMean(s);
      AckRecordUnique(record, ReadAckProperties(s).value.0, block);
    }
  }

  lemma AckRecordUnique(a: Option<AckProperties>, b: Option<AckProperties>, block: Option<seq<Item>>)
    requires IsAckRecord(a, block) && IsAckRecord(b, block)
    ensures a == b
  {
  }

  lemma AckLanguage(kind: AckKind, h: FixedHeader, frame: Bytes, version: Protocol, a: Ack)
    requires h.fixedHeaderLen <= |frame| && h.FrameLength() == |frame|
    ensures ReadAck(kind, h, frame, version) == Ok(a) <==> IsAck(version, kind, frame[h.fixedHeaderLen..], a)
  {
    var body := frame[h.fixedHeaderLen..];
    hide IsBlock, IsAckTail, ReadAckProperties, ReadU16, Reasons, IsAckReason, BigEndian, LastOf, PairsOf;
    IdSpelled(body, a.packetId);
    if |body| >= 2 {
      if |body| >= 3 {
        AckTables(kind, version, body[2]);
        assert body[2..][1..] == body[3..];
      }
      if |body| >= 4 && version.V5? {
        AckTailLanguage(kind, body, a);
      }
    }
  }

  /** The properties of an acknowledgement that has them. */
  lemma AckTailLanguage(kind: AckKind, body: Bytes, a: Ack)
    requires |body| >= 4
    ensures a.AckV5? ==>
              ((exists block, rest :: IsBlock({31, 38}, body[3..], block, rest) && IsAckTail(a.properties, block))
               <==> ReadAckProperties(body[3..]).Ok?
                    && a.properties == if ReadAckProperties(body[3..]).value.0.None? then NO_ACK_PROPERTIES
                                       else ReadAckProperties(body[3..]).value.0.value)
  {
    if a.AckV5? {
      hide IsBlock, ReadAckProperties, AckHolds;
      var s := body[3..];
      if ReadAckProperties(s).Ok? {
        var record, end := ReadAckProperties(s).value.0, ReadAckProperties(s).value.1;
        AckRecordLanguage(s, record, end);
        var block :| IsBlock({31, 38}, s, block, end) && IsAckRecord(record, block);
        assert IsAckTail(if record.None? then NO_ACK_PROPERTIES else record.value, block);
      }
      if block, rest :| IsBlock({31, 38}, s, block, rest) && IsAckTail(a.properties, block) {
        var record := if block.None? then None else Some(a.properties);
        assert IsAckRecord(record, block);
        AckRecordLanguage(s, record, rest);
      }
    }
  }

  lemma IdSpelled(body: Bytes, id: u16)
    ensures |body| >= 2 ==> (ReadU16(body) == Ok((id, body[2..])) <==> BigEndian(body[..2]) == id)
    ensures |body| < 2 ==> ReadU16(body).Err?
    ensures ReadU16(body).Ok? ==> ReadU16(body).value.1 == body[2..]
  {
    if |body| >= 2 {
      TwoDigits(body[..2]);
    }
  }

  /** SUBACK, and UNSUBACK in MQTT 5.0, for a table of codes. */
  lemma ListAckLanguage(known: set<byte>, h: FixedHeader, frame: Bytes, version: Protocol, a: ListAck)
    requires h.fixedHeaderLen <= |frame|
    ensures var body := frame[h.fixedHeaderLen..];
            ReadListAck(known, h, frame, version) == Ok(a)
            <==> && |body| >= 2 && BigEndian(body[..2]) == a.packetId
                 && a.codes != [] && (forall i :: 0 <= i < |a.codes| ==> a.codes[i] in known)
                 && match version
                    case V4 => a.properties.None? && a.codes == body[2..]
                    case V5 =>
                      exists block :: IsBlock({31, 38}, body[2..], block, a.codes) && IsAckRecord(a.properties, block)
  {
    var body := frame[h.fixedHeaderLen..];
    hide ReadU16, BigEndian, IsBlock, IsAckRecord, ReadAckProperties, ReadCodes;
    IdSpelled(body, a.packetId);
    if |body| >= 2 {
      AckRecordLanguage(body[2..], a.properties, a.codes);
      var read := ReadOptionalBlock(version, body[2..]);
      if read.Ok? {
        ReadCodesExact(known, read.value.1, a.codes);
      }
    }
  }

  lemma ConnAckRecordLanguage(s: Bytes, record: Option<ConnAckProperties>)
    ensures ReadConnAckProperties(s).Ok? && ReadConnAckProperties(s).value.0 == record
            <==> exists block, rest ::
                   IsBlock({17, 18, 19, 21, 22, 26, 28, 31, 33, 34, 36, 37, 38, 39, 40, 41, 42}, s, block, rest)
                   && IsConnAckRecord(record, block)
  {
    hide IsBlock, ReadBlock, ConnAckHolds;
    if ReadConnAckProperties(s).Ok? {
      ConnAckPropertiesMean(s);
      var block, end := ReadBlock(CONNACK_PROPERTIES, s).value.0, ReadBlock(CONNACK_PROPERTIES, s).value.1;
      BlockLanguage(CONNACK_PROPERTIES, s, block, end);
      assert IsConnAckRecord(ReadConnAckProperties(s).value.0, block);
    }
    if block, rest :| IsBlock(CONNACK_PROPERTIES, s, block, rest) && IsConnAckRecord(record, block) {
      BlockLanguage(CONNACK_PROPERTIES, s, block, rest);
      ConnAckPropertiesMean(s);
      ConnAckRecordUnique(record, ReadConnAckProperties(s).value.0, block);
    }
  }

  lemma ConnAckRecordUnique(a: Option<ConnAckProperties>, b: Option<ConnAckProperties>, block: Option<seq<Item>>)
    requires IsConnAckRecord(a, block) && IsConnAckRecord(b, block)
    ensures a == b
  {
    hide LastOf, PairsOf;
  }

  lemma ConnAckLanguage(h: FixedHeader, frame: Bytes, version: Protocol, a: ConnAck)
    requires h.fixedHeaderLen <= |frame|
    ensures ReadConnAck(h, frame, version) == Ok(a) <==> IsConnAck(version, frame[h.fixedHeaderLen..], a)
  {
    var body := frame[h.fixedHeaderLen..];
    if |body| >= 2 {
      ConnAckRecordLanguage(body[2..], a.properties);
      AckTables(PubAck, version, body[1]);
      assert body[1..][1..] == body[2..];
    }
    hide IsBlock, ReadConnAckProperties, IsConnAckRecord, IsConnectCode;
  }

  // ----- DISCONNECT -----

  lemma DisconnectRecordLanguage(s: Bytes, record: Option<Disconnects.DisconnectProperties>)
    ensures Disconnects.ReadProperties(s) == Ok(record)
            <==> exists block, rest :: IsBlock({17, 28, 31, 38}, s, block, rest) && IsDisconnectRecord(record, block)
  {
    hide IsBlock, ReadBlock, Disconnects.DisconnectHolds;
    assert Disconnects.DISCONNECT_PROPERTIES == {17, 28, 31, 38};
    if Disconnects.ReadProperties(s).Ok? {
      Disconnects.PropertiesMean(s);
      var block, end := ReadBlock({17, 28, 31, 38}, s).value.0, ReadBlock({17, 28, 31, 38}, s).value.1;
      BlockLanguage({17, 28, 31, 38}, s, block, end);
      assert IsDisconnectRecord(Disconnects.ReadProperties(s).value, block);
    }
    if block, rest :| IsBlock({17, 28, 31, 38}, s, block, rest) && IsDisconnectRecord(record, block) {
      BlockLanguage({17, 28, 31, 38}, s, block, rest);
      Disconnects.PropertiesMean(s);
      DisconnectRecordUnique(record, Disconnects.ReadProperties(s).value, block);
    }
  }

  lemma DisconnectRecordUnique(a: Option<Disconnects.DisconnectProperties>, b: Option<Disconnects.DisconnectProperties>,
                               block: Option<seq<Item>>)
    requires IsDisconnectRecord(a, block) && IsDisconnectRecord(b, block)
    ensures a == b
  {
  }

  lemma DisconnectLanguage(h: FixedHeader, frame: Bytes, d: Disconnects.Disconnect)
    requires h.fixedHeaderLen <= |frame| && h.FrameLength() == |frame|
    ensures Disconnects.ReadDisconnect(h, frame, V5) == Ok(d)
            <==> h.byte1 == 0xE0 && IsDisconnect(frame[h.fixedHeaderLen..], d)
  {
    var body := frame[h.fixedHeaderLen..];
    if body != [] && d.DisconnectV5? {
      DisconnectRecordLanguage(body[1..], d.properties);
      AckTables(PubAck, V5, body[0]);
    }
    hide IsBlock, Disconnects.ReadProperties, IsDisconnectRecord, IsDisconnectReason;
  }

  // ----- Every packet, through the framer -----

  /** What a frame reads as, if anything: exactly what its bytes denote. */
  lemma PacketLanguage(h: FixedHeader, frame: Bytes, version: Protocol, p: Packet)
    requires h.fixedHeaderLen <= |frame| && h.FrameLength() == |frame|
    ensures ReadPacket(h, frame, version) == Ok(p) <==> Denotes(version, h.byte1, frame[h.fixedHeaderLen..], p)
  {
    hide ReadConnAck, ReadPublish, ReadAck, ReadSubAck, ReadUnsubAck, Disconnects.ReadDisconnect;
    hide IsConnAck, IsPublish, IsAck, IsSubAck, IsUnsubAck, IsDisconnect;
    ReadByType(h, frame, version, p);
    match p
    case ConnAckPacket(a) => ConnAckLanguage(h, frame, version, a);
    case PublishReceived(q) => PublishLanguage(h, frame, version, q);
    case AckReceived(a) => AckLanguage(a.kind, h, frame, version, a);
    case SubAckReceived(a) => SubAckLanguage(h, frame, version, a);
    case UnsubAckReceived(a) => UnsubAckLanguage(h, frame, version, a);
    case PingRespReceived =>
    case DisconnectReceived(d) => DisconnectLanguage(h, frame, d);
  }

  /** Which reader reads which type. */
  lemma ReadByType(h: FixedHeader, frame: Bytes, version: Protocol, p: Packet)
    requires h.fixedHeaderLen <= |frame|
    ensures ReadPacket(h, frame, version) == Ok(p)
            <==> match p
                 case ConnAckPacket(a) => h.byte1 / 16 == 2 && ReadConnAck(h, frame, version) == Ok(a)
                 case PublishReceived(q) => h.byte1 / 16 == 3 && ReadPublish(h, frame, version) == Ok(q)
                 case AckReceived(a) =>
                   h.byte1 / 16 == (match a.kind case PubAck => 4 case PubRec => 5 case PubRel => 6 case PubComp => 7)
                   && ReadAck(a.kind, h, frame, version) == Ok(a)
                 case SubAckReceived(a) => h.byte1 / 16 == 9 && ReadSubAck(h, frame, version) == Ok(a)
                 case UnsubAckReceived(a) => h.byte1 / 16 == 11 && ReadUnsubAck(h, frame, version) == Ok(a)
                 case PingRespReceived => h.byte1 / 16 == 13
                 case DisconnectReceived(d) =>
                   h.byte1 / 16 == 14 && version.V5? && Disconnects.ReadDisconnect(h, frame, version) == Ok(d)
  {
    if 4 <= h.byte1 / 16 <= 7 {
      AckKindKept(AckKindOf(h.byte1 / 16), h, frame, version);
    }
    hide ReadConnAck, ReadPublish, ReadAck, ReadSubAck, ReadUnsubAck, Disconnects.ReadDisconnect;
  }

  lemma AckKindKept(kind: AckKind, h: FixedHeader, frame: Bytes, version: Protocol)
    requires h.fixedHeaderLen <= |frame|
    ensures ReadAck(kind, h, frame, version).Ok? ==> ReadAck(kind, h, frame, version).value.kind == kind
  {
    hide ReadU16, ReadAckProperties, Reasons;
  }

  lemma SubAckLanguage(h: FixedHeader, frame: Bytes, version: Protocol, a: ListAck)
    requires h.fixedHeaderLen <= |frame|
    ensures ReadSubAck(h, frame, version) == Ok(a) <==> IsSubAck(version, frame[h.fixedHeaderLen..], a)
  {
    var known := if version.V4? then SUBACK_CODES_V4 else SUBACK_CODES_V5;
    ListAckLanguage(known, h, frame, version, a);
    hide ReadListAck, IsBlock, IsSubAckCode, BigEndian;
    forall b: byte ensures b in known <==> IsSubAckCode(version, b) {
      AckTables(PubAck, version, b);
    }
  }

  lemma UnsubAckLanguage(h: FixedHeader, frame: Bytes, version: Protocol, a: ListAck)
    requires h.fixedHeaderLen <= |frame|
    ensures ReadUnsubAck(h, frame, version) == Ok(a) <==> IsUnsubAck(version, frame[h.fixedHeaderLen..], a)
  {
    ListAckLanguage(UNSUBACK_CODES, h, frame, version, a);
    IdSpelled(frame[h.fixedHeaderLen..], a.packetId);
    hide ReadListAck, IsBlock, IsUnsubAckCode, BigEndian, ReadU16;
    forall b: byte ensures b in UNSUBACK_CODES <==> IsUnsubAckCode(b) {
      AckTables(PubAck, version, b);
    }
  }

  // ----- On the stream -----

  /** A first byte, a length in one to four bytes, and a body of that length. */
  predicate IsFrame(frame: Bytes, h: FixedHeader) {
    && 1 <= h.fixedHeaderLen <= |frame| && frame[0] == h.byte1
    && IsVarInt(frame[1..h.fixedHeaderLen], h.remainingLen) && |frame| == h.fixedHeaderLen + h.remainingLen
  }

  /** The splitter cuts off exactly such a frame. */
  lemma SplitLanguage(stream: Bytes, h: FixedHeader, frame: Bytes, rest: Bytes)
    ensures SplitHead(stream) == Whole(h, frame, rest) <==> stream == frame + rest && IsFrame(frame, h)
  {
    hide SplitHead, IsFrame;
    if IsFrame(frame, h) {
      FrameSplitsOff(h, frame, rest);
    }
    if SplitHead(stream).Whole? {
      SplitIsFrame(stream);
    }
  }

  lemma FrameSplitsOff(h: FixedHeader, frame: Bytes, rest: Bytes)
    requires IsFrame(frame, h)
    ensures SplitHead(frame + rest) == Whole(h, frame, rest)
  {
    var stream, k := frame + rest, h.fixedHeaderLen - 1;
    VarIntIsShort(frame[1..h.fixedHeaderLen], h.remainingLen);
    DecodeMeans(stream[1..]);
    hide Decode, IsVarInt;
    assert stream[1..][..k] == frame[1..h.fixedHeaderLen];
    assert Decode(stream[1..]) == VarInt.Value(k, h.remainingLen);
    assert stream[..|frame|] == frame && stream[|frame|..] == rest;
  }

  lemma SplitIsFrame(stream: Bytes)
    requires SplitHead(stream).Whole?
    ensures IsFrame(SplitHead(stream).frame, SplitHead(stream).header)
  {
    DecodeMeans(stream[1..]);
    hide Decode, IsVarInt;
    var h, frame := SplitHead(stream).header, SplitHead(stream).frame;
    var k: nat := h.fixedHeaderLen - 1;
    assert Decode(stream[1..]) == VarInt.Value(k, h.remainingLen);
    assert stream[1..][..k] == frame[1..h.fixedHeaderLen];
  }

  lemma VarIntIsShort(s: Bytes, n: nat)
    requires IsVarInt(s, n)
    ensures 1 <= |s| <= 4
  {
  }

  /** What is received from a stream is what its first frame denotes, and nothing behind that frame is touched. */
  lemma NetworkLanguage(stream: Bytes, version: Protocol, p: Packet, rest: Bytes)
    ensures ReadFromNetwork(stream, version) == (Ok(Some(p)), rest)
            <==> exists b1: byte, len: Bytes, body: Bytes ::
                   stream == [b1] + len + body + rest && IsVarInt(len, |body|) && Denotes(version, b1, body, p)
  {
    hide ReadFromNetwork, IsVarInt, Denotes;
    if b1: byte, len: Bytes, body: Bytes :|
       stream == [b1] + len + body + rest && IsVarInt(len, |body|) && Denotes(version, b1, body, p) {
      FrameReads(b1, len, body, version, p, rest);
    }
    if ReadFromNetwork(stream, version) == (Ok(Some(p)), rest) {
      ReadIsFrame(stream, version, p, rest);
    }
  }

  lemma ReadIsFrame(stream: Bytes, version: Protocol, p: Packet, rest: Bytes)
    requires ReadFromNetwork(stream, version) == (Ok(Some(p)), rest)
    ensures exists b1: byte, len: Bytes, body: Bytes ::
              stream == [b1] + len + body + rest && IsVarInt(len, |body|) && Denotes(version, b1, body, p)
  {
    hide SplitHead, ReadPacket, IsVarInt, Denotes;
    var head := SplitHead(stream);
    var h, frame := head.header, head.frame;
    SplitLanguage(stream, h, frame, rest);
    PacketLanguage(h, frame, version, p);
    var len, body := frame[1..h.fixedHeaderLen], frame[h.fixedHeaderLen..];
    assert frame == [h.byte1] + len + body;
    assert stream == [h.byte1] + len + body + rest;
  }

  lemma FrameReads(b1: byte, len: Bytes, body: Bytes, version: Protocol, p: Packet, rest: Bytes)
    requires IsVarInt(len, |body|) && Denotes(version, b1, body, p)
    ensures ReadFromNetwork([b1] + len + body + rest, version) == (Ok(Some(p)), rest)
  {
    hide SplitHead, ReadPacket, IsVarInt, Denotes;
    var frame, h := [b1] + len + body, FixedHeader(b1, 1 + |len|, |body|);
    assert frame[1..h.fixedHeaderLen] == len && frame[h.fixedHeaderLen..] == body;
    SplitLanguage(frame + rest, h, frame, rest);
    PacketLanguage(h, frame, version, p);
  }

  /** Fewer than two bytes, or fewer than four of a length that goes on. */
  predicate LacksHeader(stream: Bytes) {
    |stream| < 2 || (|stream| < 5 && forall i :: 1 <= i < |stream| ==> stream[i] >= 128)
  }

  /** A header, and less of a body than it announces. */
  ghost predicate LacksBody(stream: Bytes) {
    exists k: nat, n: nat :: 1 < k <= |stream| && IsVarInt(stream[1..k], n) && k + n > |stream|
  }

  /**
   When there is no whole frame. Without a header the reader asks for more bytes, and with part of a frame it waits, both
   times with the buffer as it was; on a length that never ends it throws the buffer away.
   */
  lemma NetworkOtherwise(stream: Bytes, version: Protocol)
    ensures var (read, rest) := ReadFromNetwork(stream, version);
            && (read == Ok(None) <==> LacksBody(stream))
            && (LacksBody(stream) ==> rest == stream)
            && (LacksHeader(stream) ==> read.Err? && read.error.InsufficientBytes? && rest == stream)
            && (|stream| >= 5 && IsEndless(stream[1..]) ==> read == Err(MalformedRemainingLength) && rest == [])
  {
    HeaderOutcomes(stream);
    hide SplitHead, ReadPacket, LacksBody, LacksHeader, IsEndless;
  }

  lemma HeaderOutcomes(stream: Bytes)
    ensures SplitHead(stream).NoHeader? <==> LacksHeader(stream)
    ensures SplitHead(stream).Garbage? <==> |stream| >= 5 && IsEndless(stream[1..])
    ensures SplitHead(stream).Partial? <==> LacksBody(stream)
  {
    if |stream| >= 2 {
      DecodeMeans(stream[1..]);
      hide Decode, IsVarInt;
      if Decode(stream[1..]).Value? {
        var k, n := Decode(stream[1..]).count, Decode(stream[1..]).value;
        assert stream[1..][..k] == stream[1..k + 1];
      }
      if k: nat, n: nat :| 1 < k <= |stream| && IsVarInt(stream[1..k], n) && k + n > |stream| {
        assert stream[1..][..k - 1] == stream[1..k];
        assert Decode(stream[1..]) == VarInt.Value(k - 1, n);
      }
    }
  }

  /** A whole frame is taken off the buffer and nothing else; it is an error exactly if it denotes no packet. */
  lemma FrameIsTaken(h: FixedHeader, frame: Bytes, rest: Bytes, version: Protocol)
    requires IsFrame(frame, h)
    ensures var read := ReadFromNetwork(frame + rest, version);
            read.1 == rest
            && (read.0.Err? <==> forall p :: !Denotes(version, h.byte1, frame[h.fixedHeaderLen..], p))
  {
    hide SplitHead, ReadPacket, Denotes;
    FrameSplitsOff(h, frame, rest);
    forall p ensures ReadPacket(h, frame, version) == Ok(p) <==> Denotes(version, h.byte1, frame[h.fixedHeaderLen..], p) {
      PacketLanguage(h, frame, version, p);
    }
    if ReadPacket(h, frame, version).Ok? {
      var p := ReadPacket(h, frame, version).value;
      assert Denotes(version, h.byte1, frame[h.fixedHeaderLen..], p);
    }
  }

  // ----- Any number of packets -----

  /** One packet on the wire. */
  ghost predicate IsPacket(version: Protocol, frame: Bytes, p: Packet) {
    exists b1: byte, len: Bytes, body: Bytes ::
      frame == [b1] + len + body && IsVarInt(len, |body|) && Denotes(version, b1, body, p)
  }

  lemma PacketAlone(version: Protocol, frame: Bytes, p: Packet)
    requires IsPacket(version, frame, p)
    ensures SelfDelimiting(frame) && PacketOf(frame, version) == Ok(p)
  {
    hide SplitHead, ReadPacket, IsVarInt, Denotes;
    var b1: byte, len: Bytes, body: Bytes :|
      frame == [b1] + len + body && IsVarInt(len, |body|) && Denotes(version, b1, body, p);
    var h := FixedHeader(b1, 1 + |len|, |body|);
    assert frame[1..h.fixedHeaderLen] == len && frame[h.fixedHeaderLen..] == body && frame + [] == frame;
    SplitLanguage(frame, h, frame, []);
    PacketLanguage(h, frame, version, p);
  }

  /** Packets of any kind but CONNACK, cut into chunks in any way, are put on the bus as they are, in their order. */
  lemma PacketsArrive(ps: seq<Packet>, frames: seq<Bytes>, chunks: seq<Bytes>, version: Protocol)
    requires |frames| == |ps| && forall i :: 0 <= i < |ps| ==> IsPacket(version, frames[i], ps[i]) && !ps[i].ConnAckPacket?
    requires Flatten(chunks) == Flatten(frames)
    ensures Feed([], chunks, version) == Drained(frames, [], false)
    ensures Dispatches(frames, version) == ps
  {
    hide SplitHead, PacketOf, IsPacket, Feed, Flatten;
    forall i | 0 <= i < |ps| ensures SelfDelimiting(frames[i]) && PacketOf(frames[i], version) == Ok(ps[i]) {
      PacketAlone(version, frames[i], ps[i]);
    }
    WrittenPacketsArrive(frames, chunks, version);
    AllDispatched(ps, frames, version);
  }

  lemma {:induction false} AllDispatched(ps: seq<Packet>, frames: seq<Bytes>, version: Protocol)
    requires |frames| == |ps|
    requires forall i :: 0 <= i < |ps| ==> PacketOf(frames[i], version) == Ok(ps[i]) && !ps[i].ConnAckPacket?
    ensures Dispatches(frames, version) == ps
  {
    hide PacketOf;
    if ps != [] {
      AllDispatched(ps[1..], frames[1..], version);
      assert ps == [ps[0]] + ps[1..];
    }
  }
}
