/** Written packets, read back by the client's own reader, with anything behind them on the wire. */
module RoundTrips {
  import opened Wire
  import opened VarInt
  import opened Framing
  import opened Framer
  import opened Streaming
  import opened PublishPacket
  import PublishProps
  import Acks
  import Disconnects = DisconnectPacket
  import Connects = ConnectPacket

  // ----- PUBLISH -----

  /** A PUBLISH whose body survives and whose length four bytes can announce. */
  predicate Transmittable(p: Publish) {
    BodySurvives(p) && Len(p) <= MAX_VAR_INT
  }

  lemma FrameSplits(p: Publish, rest: Bytes)
    requires Len(p) <= MAX_VAR_INT && Len(p) == |Body(p)|
    ensures SplitHead(Frame(p) + rest)
            == Whole(FixedHeader(HeaderByte(p), 1 + |Encode(Len(p))|, Len(p)), Frame(p), rest)
  {
    hide Body, Len, HeaderByte, SplitHead, Encode;
    SplitFrameOf(HeaderByte(p), Body(p), rest);
  }

  lemma ReadPacketIsPublish(h: FixedHeader, frame: Bytes, p: Publish)
    requires h.fixedHeaderLen <= |frame| && h.byte1 / 16 == 3
    ensures ReadPacket(h, frame, p.protocol) == Ok(PublishReceived(p)) <==> ReadPublish(h, frame, p.protocol) == Ok(p)
  {
    hide ReadPublish;
  }

  lemma FrameReads(p: Publish)
    requires Len(p) <= MAX_VAR_INT
    ensures var h := FixedHeader(HeaderByte(p), 1 + |Encode(Len(p))|, Len(p));
            ReadPacket(h, Frame(p), p.protocol) == Ok(PublishReceived(p)) <==> BodySurvives(p)
  {
    HeaderBits(p);
    hide Len, HeaderByte, Encode, ReadPublish, ReadPacket, Body, BodySurvives, Frame;
    var h := FixedHeader(HeaderByte(p), 1 + |Encode(Len(p))|, Len(p));
    var head := [HeaderByte(p)] + Encode(Len(p));
    FrameIs(p, head);
    ReadBody(h, head, p);
    ReadPacketIsPublish(h, Frame(p), p);
  }

  lemma FrameIs(p: Publish, head: Bytes)
    requires head == [HeaderByte(p)] + Encode(Len(p))
    ensures Frame(p) == head + Body(p) && |head| == 1 + |Encode(Len(p))| <= |Frame(p)|
  {
    hide Len, HeaderByte, Encode, Body;
  }

  lemma SurvivorLength(p: Publish)
    requires BodySurvives(p)
    ensures Len(p) <= MAX_VAR_INT ==> Len(p) == |Body(p)|
  {
    hide Body, PublishProps.Items, PublishProps.Valid, PublishProps.DriftFits;
    if p.properties.Some? && p.protocol.V5? {
      PublishProps.ValidFits(p.properties.value);
      PublishProps.IdentifiersFit(p.properties.value);
    }
    if Len(p) <= MAX_VAR_INT {
      LenIsWritten(p);
    }
  }

  /** A PUBLISH written to the network reads back unchanged, whatever follows, exactly when it is Transmittable. */
  lemma PublishRoundTrip(p: Publish, rest: Bytes)
    ensures ReadFromNetwork(Frame(p) + rest, p.protocol) == (Ok(Some(PublishReceived(p))), rest) <==> Transmittable(p)
  {
    var n, s := Len(p), Body(p) + rest;
    HeaderBits(p);
    hide Body, Len, HeaderByte, Encode, BodySurvives, SplitHead, ReadPacket;
    assert Frame(p) + rest == [HeaderByte(p)] + Encode(n) + s;
    SplitDeclared(HeaderByte(p), n, s);
    if BodySurvives(p) && n <= MAX_VAR_INT {
      SurvivorLength(p);
      FrameSplits(p, rest);
      FrameReads(p);
    }
    if ReadFromNetwork(Frame(p) + rest, p.protocol) == (Ok(Some(PublishReceived(p))), rest) {
      var head := SplitHead(Frame(p) + rest);
      ReadPacketIsPublish(head.header, head.frame, p);
      ReadPublishSound(head.header, head.frame, p.protocol, p);
      LenIsWritten(p);
      assert s[..n] == Body(p);
      FrameReads(p);
    }
  }

  /** `Client::publish*` rejects a request when payload and topic and four more bytes exceed the limit. */
  predicate ClientAccepts(p: Publish) {
    |p.payload| + 4 + |p.topic| <= MAX_VAR_INT
  }

  /**
   The client's size check looks at the sum only. So it accepts a topic of more than 65535 bytes, whose length prefix
   cannot be written, in both versions; and in MQTT 5.0 it forgets the property length byte, so that a QoS 1 or 2
   request of exactly the limit gets a remaining length that cannot be encoded. Every other request it accepts arrives.
   */
  lemma SizeCheckExact(p: Publish)
    requires p.properties.None? && ValidUtf8(p.topic) && ClientAccepts(p)
    ensures Transmittable(p)
            <==> |p.topic| <= 65535
                 && !(p.protocol.V5? && !p.qos.AtMostOnce? && |p.payload| + 4 + |p.topic| == MAX_VAR_INT)
  {
  }

  /** Any number of publishes, cut into chunks in any way, arrive in order as they were sent. */
  lemma PublishesArrive(ps: seq<Publish>, chunks: seq<Bytes>, version: Protocol)
    requires forall i :: 0 <= i < |ps| ==> Transmittable(ps[i]) && ps[i].protocol == version
    requires Flatten(chunks) == Flatten(PublishFrames(ps))
    ensures Feed([], chunks, version) == Drained(PublishFrames(ps), [], false)
    ensures Dispatches(PublishFrames(ps), version) == PublishPackets(ps)
  {
    hide Transmittable, SplitHead, PacketOf, Frame;
    forall i | 0 <= i < |ps|
      ensures SelfDelimiting(PublishFrames(ps)[i]) && PacketOf(PublishFrames(ps)[i], version) == Ok(PublishReceived(ps[i]))
    {
      PublishFrameAlone(ps[i]);
    }
    WrittenPacketsArrive(PublishFrames(ps), chunks, version);
    PublishesDispatched(ps, version);
  }

  function PublishFrames(ps: seq<Publish>): (frames: seq<Bytes>)
    ensures |frames| == |ps|
    ensures forall i :: 0 <= i < |ps| ==> frames[i] == Frame(ps[i])
  {
    if ps == [] then [] else [Frame(ps[0])] + PublishFrames(ps[1..])
  }

  function PublishPackets(ps: seq<Publish>): seq<Packet> {
    if ps == [] then [] else [PublishReceived(ps[0])] + PublishPackets(ps[1..])
  }

  lemma PublishFrameAlone(p: Publish)
    requires Transmittable(p)
    ensures SelfDelimiting(Frame(p)) && PacketOf(Frame(p), p.protocol) == Ok(PublishReceived(p))
  {
    hide BodySurvives, Body, Len, Encode, HeaderByte, SplitHead, ReadPacket;
    SurvivorLength(p);
    FrameSplits(p, []);
    assert Frame(p) + [] == Frame(p);
    FrameReads(p);
  }

  lemma {:induction false} PublishesDispatched(ps: seq<Publish>, version: Protocol)
    requires forall i :: 0 <= i < |ps| ==> PacketOf(Frame(ps[i]), version) == Ok(PublishReceived(ps[i]))
    ensures Dispatches(PublishFrames(ps), version) == PublishPackets(ps)
  {
    hide PacketOf, Frame;
    if ps != [] {
      assert PublishFrames(ps)[1..] == PublishFrames(ps[1..]);
      forall i | 0 <= i < |ps[1..]| ensures PacketOf(Frame(ps[1..][i]), version) == Ok(PublishReceived(ps[1..][i])) {
        assert ps[1..][i] == ps[i + 1];
      }
      PublishesDispatched(ps[1..], version);
    }
  }

  // ----- DISCONNECT and the acknowledgements -----

  lemma DisconnectThroughFramer(d: Disconnects.Disconnect, rest: Bytes)
    ensures ReadFromNetwork(Disconnects.Frame(d) + rest, V5) == (Ok(Some(DisconnectReceived(d))), rest)
            <==> Disconnects.Transmittable(d)
  {
    hide Disconnects.Frame, Disconnects.Transmittable, Disconnects.ReadDisconnect, SplitHead;
    Disconnects.DisconnectRoundTrip(d, rest);
    Disconnects.FirstByte(d, rest);
  }

  lemma AckThroughFramer(kind: Acks.AckKind, id: u16, version: Protocol, rest: Bytes)
    ensures ReadFromNetwork(Acks.NewAck(kind, id) + rest, version)
            == (Ok(Some(AckReceived(Acks.PlainAck(kind, id, version)))), rest)
  {
    hide Acks.ReadAck, SplitHead, Acks.NewAck;
    Acks.AckRoundTrip(kind, id, version, rest);
  }

  // ----- The packets only a broker reads -----

  /** What a SUBSCRIBE or UNSUBSCRIBE asks for: filter and property bytes are prepared beforehand. */
  datatype Content = ContentV4(filters: Bytes) | ContentV5(properties: Bytes, filters: Bytes)

  datatype Request = Request(unsubscribes: bool, packetId: u16, content: Content)

  function RequestByte(r: Request): byte {
    if r.unsubscribes then 0xA2 else 0x82
  }

  function RequestLen(r: Request): nat {
    match r.content
    case ContentV4(filters) => |filters| + 2
    case ContentV5(properties, filters) => 2 + LenLen(|properties|) + |properties| + |filters|
  }

  function RequestBody(r: Request): Bytes {
    match r.content
    case ContentV4(filters) => EncodeU16(r.packetId) + filters
    case ContentV5(properties, filters) => EncodeU16(r.packetId) + Encode(|properties|) + properties + filters
  }

  function RequestFrame(r: Request): Bytes {
    [RequestByte(r)] + Encode(RequestLen(r)) + RequestBody(r)
  }

  /** `Subscribe::write` and `Unsubscribe::write` */
  method WriteRequest(r: Request, buffer: BytesMut) returns (written: nat)
    modifies buffer
    ensures buffer.data == old(buffer.data) + RequestFrame(r)
    ensures written == 1 + |Encode(RequestLen(r))| + RequestLen(r)
  {
    hide Encode, EncodeU16, RequestLen;
    buffer.PutU8(RequestByte(r));
    var remainingLen := RequestLen(r);
    var count := WriteRemainingLength(buffer, remainingLen);
    ghost var start := buffer.data;
    buffer.PutU16(r.packetId);
    if r.content.ContentV5? {
      var properties := r.content.properties;
      var _ := WriteRemainingLength(buffer, |properties|);
      if |properties| > 0 {
        buffer.Extend(properties);
      }
      assert buffer.data == start + (EncodeU16(r.packetId) + Encode(|properties|) + properties);
    }
    buffer.Extend(r.content.filters);
    assert buffer.data == start + RequestBody(r);
    written := 1 + remainingLen + count;
  }

  /** A written SUBSCRIBE or UNSUBSCRIBE is one frame exactly when four bytes can announce its length. */
  lemma RequestSelfDelimiting(r: Request)
    ensures SelfDelimiting(RequestFrame(r)) <==> RequestLen(r) <= MAX_VAR_INT
  {
    hide SplitHead, Encode;
    if RequestLen(r) <= MAX_VAR_INT {
      if r.content.ContentV5? {
        WidthIsLenLen(|r.content.properties|);
      }
      SplitFrameOf(RequestByte(r), RequestBody(r), []);
      assert RequestFrame(r) + [] == FrameOf(RequestByte(r), RequestBody(r));
      assert RequestFrame(r) + [] == RequestFrame(r);
    } else {
      SplitDeclared(RequestByte(r), RequestLen(r), RequestBody(r));
    }
  }

  /** So is a written CONNECT, whatever its flags byte: the length precomputed is the length written. */
  lemma ConnectSelfDelimiting(c: Connects.Connect, flags: bv8)
    ensures SelfDelimiting(Connects.Frame(c, flags)) <==> Connects.Len(c) <= MAX_VAR_INT
  {
    hide SplitHead, Encode, Connects.Body, Connects.Len;
    var n, body := Connects.Len(c), Connects.Body(c, flags);
    SplitDeclared(0x10, n, body);
    if n <= MAX_VAR_INT {
      Connects.ShortWillFits(c);
      Connects.LenIsWritten(c, flags);
      assert body[n..] == [];
    }
  }
}
