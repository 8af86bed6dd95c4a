/**
 The packets a client sends besides PUBLISH and DISCONNECT, byte by byte: the four acknowledgements, SUBSCRIBE and
 UNSUBSCRIBE (chapter 3 of MQTT 3.1.1 and 5.0). PUBLISH is what its reader reads.
 */
module SentBytes {
  import opened Wire
  import opened VarInt
  import opened Properties
  import opened Numerals
  import opened PropertyBytes
  import opened Framer
  import opened PublishPacket
  import opened RoundTrips
  import Acks

  // ----- PUBACK, PUBREC, PUBREL, PUBCOMP -----

  /** Four bytes: type and flags, a length of two, and the packet id. */
  predicate IsPlainAck(data: Bytes, kind: Acks.AckKind, id: u16) {
    && |data| == 4 && data[1] == 2 && BigEndian(data[2..]) == id
    && data[0] == match kind
                  case PubAck => 0x40
                  case PubRec => 0x50
                  case PubRel => 0x62
                  case PubComp => 0x70
  }

  lemma PlainAckWritten(kind: Acks.AckKind, id: u16)
    ensures IsPlainAck(Acks.NewAck(kind, id), kind, id)
  {
    WritesBigEndian(id, 0);
    hide BigEndian;
    assert Acks.NewAck(kind, id)[2..] == EncodeU16(id);
  }

  // ----- SUBSCRIBE and UNSUBSCRIBE -----

  /** In MQTT 5.0 the properties behind their length, and the filters to the end. */
  ghost predicate IsContent(s: Bytes, content: Content) {
    match content
    case ContentV4(filters) => s == filters
    case ContentV5(properties, filters) =>
      exists width: Bytes :: s == width + properties + filters && IsVarInt(width, |properties|)
  }

  /** First byte, length, packet id and content. */
  ghost predicate IsRequest(data: Bytes, first: byte, id: u16, content: Content) {
    exists len: Bytes, idBytes: Bytes, rest: Bytes ::
      && data == [first] + len + (idBytes + rest) && IsVarInt(len, |idBytes + rest|)
      && |idBytes| == 2 && BigEndian(idBytes) == id && IsContent(rest, content)
  }

  lemma EncodedIsVarInt(n: nat)
    ensures n <= MAX_VAR_INT ==> IsVarInt(Encode(n), n)
  {
    if n <= MAX_VAR_INT {
      DecodeEncode(n, []);
      assert Encode(n) + [] == Encode(n);
      DecodeMeans(Encode(n));
      hide Encode, Decode, IsVarInt;
      assert Decode(Encode(n)) == Value(|Encode(n)|, n);
      assert Encode(n)[..|Encode(n)|] == Encode(n);
    }
  }

  lemma VarIntInRange(s: Bytes, n: nat)
    requires IsVarInt(s, n)
    ensures n <= MAX_VAR_INT
  {
  }

  /** A request that four bytes can announce is written as it should be. */
  lemma RequestWritten(r: Request)
    requires RequestLen(r) <= MAX_VAR_INT
    ensures IsRequest(RequestFrame(r), if r.unsubscribes then 0xA2 else 0x82, r.packetId, r.content)
  {
    hide Encode, IsVarInt, BigEndian, EncodeU16, IsContent;
    WritesBigEndian(r.packetId, 0);
    EncodedIsVarInt(RequestLen(r));
    var len, idBytes := Encode(RequestLen(r)), EncodeU16(r.packetId);
    var rest := ContentWritten(r.content);
    if r.content.ContentV5? {
      WidthIsLenLen(|r.content.properties|);
    }
    assert RequestBody(r) == idBytes + rest;
  }

  lemma ContentWritten(content: Content) returns (rest: Bytes)
    requires content.ContentV5? ==> |content.properties| <= MAX_VAR_INT
    ensures IsContent(rest, content)
    ensures rest == match content
                    case ContentV4(filters) => filters
                    case ContentV5(properties, filters) => Encode(|properties|) + properties + filters
  {
    match content
    case ContentV4(filters) => rest := filters;
    case ContentV5(properties, filters) =>
      EncodedIsVarInt(|properties|);
      hide Encode, IsVarInt;
      rest := Encode(|properties|) + properties + filters;
  }

  lemma VarIntPrefixUnique(a: Bytes, n: nat, x: Bytes, b: Bytes, m: nat, y: Bytes)
    requires IsVarInt(a, n) && IsVarInt(b, m) && a + x == b + y
    ensures a == b && n == m && x == y
  {
    VarIntSpelled(a, n, x);
    VarIntSpelled(b, m, y);
    hide ReadVarInt, IsVarInt;
    assert x == y;
    assert a == (a + x)[..|a|] && b == (b + y)[..|b|];
  }

  /** The first byte and packet id of such bytes can only be these. */
  lemma RequestIdUnique(data: Bytes, first: byte, id: u16, content: Content, first': byte, id': u16, content': Content)
    requires IsRequest(data, first, id, content) && IsRequest(data, first', id', content')
    ensures first == first' && id == id'
  {
    hide IsVarInt, BigEndian, IsContent;
    var len: Bytes, a: Bytes, rest: Bytes :|
      && data == [first] + len + (a + rest) && IsVarInt(len, |a + rest|)
      && |a| == 2 && BigEndian(a) == id && IsContent(rest, content);
    var len': Bytes, a': Bytes, rest': Bytes :|
      && data == [first'] + len' + (a' + rest') && IsVarInt(len', |a' + rest'|)
      && |a'| == 2 && BigEndian(a') == id' && IsContent(rest', content');
    Reassociate([first], len, a + rest);
    Reassociate([first'], len', a' + rest');
    SameTail(first, len + (a + rest), first', len' + (a' + rest'), data);
    VarIntPrefixUnique(len, |a + rest|, a + rest, len', |a' + rest'|, a' + rest');
    assert a == (a + rest)[..2] && a' == (a' + rest')[..2];
  }

  lemma SameTail(a: byte, x: Bytes, b: byte, y: Bytes, data: Bytes)
    requires data == [a] + x && data == [b] + y
    ensures a == b && x == y
  {
    assert a == data[0] && b == data[0] && x == data[1..] && y == data[1..];
  }

  // ----- PUBLISH -----

  /** The bytes are one PUBLISH for whoever reads them, whatever follows. */
  ghost predicate ReadsAs(data: Bytes, p: Publish) {
    forall rest :: ReadFromNetwork(data + rest, p.protocol) == (Ok(Some(PublishReceived(p))), rest)
  }

  lemma PublishWritten(p: Publish)
    ensures ReadsAs(Frame(p), p) <==> Transmittable(p)
  {
    hide Transmittable, ReadFromNetwork, Frame;
    PublishRoundTrip(p, []);
    if Transmittable(p) {
      forall rest ensures ReadFromNetwork(Frame(p) + rest, p.protocol) == (Ok(Some(PublishReceived(p))), rest) {
        PublishRoundTrip(p, rest);
      }
    }
  }
}
