/** Reading packets off the connection: one packet from the buffer, and the loop that drains it after every read. */
module Framer {
  import opened Wire
  import opened VarInt
  import opened Framing
  import Properties
  import PublishPacket
  import Acks
  import DisconnectPacket

  datatype Packet =
    | ConnAckPacket(connAck: Acks.ConnAck)
    | PublishReceived(publish: PublishPacket.Publish)
    | AckReceived(ack: Acks.Ack)
    | SubAckReceived(subAck: Acks.ListAck)
    | UnsubAckReceived(unsubAck: Acks.ListAck)
    | PingRespReceived
    | DisconnectReceived(disconnect: DisconnectPacket.Disconnect)

  // ----- One packet -----

  function Map<T, U>(r: Result<T>, f: T -> U): Result<U> {
    match r
    case Ok(value) => Ok(f(value))
    case Err(error) => Err(error)
  }

  function AckKindOf(packetType: byte): Acks.AckKind {
    match packetType
    case 4 => Acks.PubAck
    case 5 => Acks.PubRec
    case 6 => Acks.PubRel
    case _ => Acks.PubComp
  }

  function ReadPacket(h: FixedHeader, frame: Bytes, version: Protocol): Result<Packet>
    requires h.fixedHeaderLen <= |frame|
  {
    match h.byte1 / 16
    case 2 => Map(Acks.ReadConnAck(h, frame, version), a => ConnAckPacket(a))
    case 3 => Map(PublishPacket.ReadPublish(h, frame, version), p => PublishReceived(p))
    case 4 | 5 | 6 | 7 => Map(Acks.ReadAck(AckKindOf(h.byte1 / 16), h, frame, version), a => AckReceived(a))
    case 9 => Map(Acks.ReadSubAck(h, frame, version), a => SubAckReceived(a))
    case 11 => Map(Acks.ReadUnsubAck(h, frame, version), a => UnsubAckReceived(a))
    case 13 => Ok(PingRespReceived)
    case 14 =>
      if version.V4? then Err(InvalidPacketType(14))
      else Map(DisconnectPacket.ReadDisconnect(h, frame, version), d => DisconnectReceived(d))
    case other => Err(InvalidPacketType(other))
  }

  /** The packet, or None to wait for more bytes, or an error; and the buffer afterwards. */
  function ReadFromNetwork(stream: Bytes, version: Protocol): (Result<Option<Packet>>, Bytes) {
    match SplitHead(stream)
    case Partial => (Ok(None), stream)
    case NoHeader(missing) => (Err(InsufficientBytes(missing)), stream)
    case Garbage => (Err(MalformedRemainingLength), [])
    case Whole(header, frame, rest) => (Map(ReadPacket(header, frame, version), p => Some(p)), rest)
  }

  /** What a frame on its own reads as. */
  function PacketOf(frame: Bytes, version: Protocol): Result<Packet> {
    match SplitHead(frame)
    case Whole(header, whole, _) => ReadPacket(header, whole, version)
    case _ => Err(MalformedPacket)
  }

  method GetPacket(h: FixedHeader, frame: Bytes, version: Protocol) returns (r: Result<Packet>)
    requires h.fixedHeaderLen <= |frame|
    ensures r == ReadPacket(h, frame, version)
  {
    match h.byte1 / 16 {
      case 2 =>
        var a :- Acks.GetConnAck(h, frame, version);
        return Ok(ConnAckPacket(a));
      case 3 =>
        var p :- PublishPacket.GetPublish(h, frame, version);
        return Ok(PublishReceived(p));
      case 4 | 5 | 6 | 7 =>
        var a :- Acks.GetAck(AckKindOf(h.byte1 / 16), h, frame, version);
        return Ok(AckReceived(a));
      case 9 =>
        var codes := if version.V4? then Acks.SUBACK_CODES_V4 else Acks.SUBACK_CODES_V5;
        var a :- Acks.GetListAck(codes, h, frame, version);
        return Ok(SubAckReceived(a));
      case 11 =>
        var a :- GetUnsubAck(h, frame, version);
        return Ok(UnsubAckReceived(a));
      case 13 => return Ok(PingRespReceived);
      case 14 =>
        if version.V4? {
          return Err(InvalidPacketType(14));
        }
        var d :- DisconnectPacket.GetDisconnect(h, frame, version);
        return Ok(DisconnectReceived(d));
      case other => return Err(InvalidPacketType(other));
    }
  }

  method GetUnsubAck(h: FixedHeader, frame: Bytes, version: Protocol) returns (r: Result<Acks.ListAck>)
    requires h.fixedHeaderLen <= |frame|
    ensures r == Acks.ReadUnsubAck(h, frame, version)
  {
    if version.V5? {
      r := Acks.GetListAck(Acks.UNSUBACK_CODES, h, frame, version);
    } else {
      var bytes := new Properties.Reader(frame);
      bytes.Advance(h.fixedHeaderLen);
      var id :- bytes.GetU16();
      r := Ok(Acks.ListAck(id, None, []));
    }
  }

  /** `read_from_network` */
  method TakePacket(stream: BytesMut, version: Protocol) returns (r: Result<Option<Packet>>)
    modifies stream
    ensures (r, stream.data) == ReadFromNetwork(old(stream.data), version)
  {
    match ParseFixedHeader(stream.data) {
      case Header(header) =>
        if header.FrameLength() > |stream.data| {
          return Ok(None);
        }
        var frame := stream.SplitTo(header.FrameLength());
        var packet :- GetPacket(header, frame, version);
        return Ok(Some(packet));
      case TooShort(missing) => return Err(InsufficientBytes(missing));
      case BadLength =>
        var _ := stream.SplitTo(|stream.data|);
        return Err(MalformedRemainingLength);
    }
  }

  // ----- The loop that drains the buffer -----

  /** Frames consumed (read well or not), the buffer left, and whether bytes were thrown away. */
  datatype Drained = Drained(frames: seq<Bytes>, rest: Bytes, discarded: bool)

  function Drain(buf: Bytes, version: Protocol): Drained
    decreases |buf|
  {
    match SplitHead(buf)
    case Garbage => Drained([], [], true)
    case Whole(header, frame, rest) =>
      if ReadPacket(header, frame, version).Err? || |rest| < 2 then Drained([frame], rest, false)
      else
        var more := Drain(rest, version);
        Drained([frame] + more.frames, more.rest, more.discarded)
    case _ => Drained([], buf, false)
  }

  /** A frame that fails to read, and a CONNACK on an open connection, are logged and dropped. */
  function Dispatch(read: Result<Packet>): seq<Packet> {
    match read
    case Ok(packet) => if packet.ConnAckPacket? then [] else [packet]
    case Err(_) => []
  }

  function Dispatches(frames: seq<Bytes>, version: Protocol): seq<Packet> {
    if frames == [] then [] else Dispatch(PacketOf(frames[0], version)) + Dispatches(frames[1..], version)
  }

  /** A frame that reads, and is no CONNACK by its type number. */
  ghost predicate IsForBus(frame: Bytes, version: Protocol) {
    PacketOf(frame, version).Ok? && SplitHead(frame).Whole? && SplitHead(frame).header.byte1 / 16 != 2
  }

  /** The packets of exactly these frames, each once, in their order: packet j is that of the frame at places[j]. */
  ghost predicate SentInOrder(frames: seq<Bytes>, sent: seq<Packet>, places: seq<nat>, version: Protocol) {
    && |places| == |sent|
    && (forall i, j :: 0 <= i < j < |places| ==> places[i] < places[j])
    && (forall i: nat :: i in places <==> i < |frames| && IsForBus(frames[i], version))
    && (forall j :: 0 <= j < |places| ==> places[j] < |frames| && PacketOf(frames[places[j]], version) == Ok(sent[j]))
  }

  lemma {:induction false} SentMeans(frames: seq<Bytes>, version: Protocol) returns (places: seq<nat>)
    ensures SentInOrder(frames, Dispatches(frames, version), places, version)
    decreases |frames|
  {
    hide PacketOf, SplitHead, IsForBus, Dispatch, Dispatches;
    if frames == [] {
      places := [];
      DispatchesNone(version);
    } else {
      var n := |frames| - 1;
      var init, last := frames[..n], frames[n];
      var before := SentMeans(init, version);
      assert frames == init + [last];
      DispatchesSnoc(init, last, version);
      OneSent(last, version);
      if IsForBus(last, version) {
        places := before + [n];
        SentSnoc(init, last, Dispatches(init, version), before, version);
      } else {
        places := before;
        assert Dispatches(init, version) + [] == Dispatches(init, version);
        NotSentSnoc(init, last, Dispatches(init, version), before, version);
      }
    }
  }

  lemma SentSnoc(init: seq<Bytes>, last: Bytes, sent: seq<Packet>, places: seq<nat>, version: Protocol)
    requires SentInOrder(init, sent, places, version) && IsForBus(last, version)
    ensures SentInOrder(init + [last], sent + [PacketOf(last, version).value], places + [|init|], version)
  {
    hide PacketOf, SplitHead;
    var frames, all := init + [last], places + [|init|];
    assert forall i :: 0 <= i < |init| ==> frames[i] == init[i];
    assert forall i: nat :: i in all <==> i in places || i == |init|;
    assert forall j :: 0 <= j < |places| ==> places[j] in places;
  }

  lemma NotSentSnoc(init: seq<Bytes>, last: Bytes, sent: seq<Packet>, places: seq<nat>, version: Protocol)
    requires SentInOrder(init, sent, places, version) && !IsForBus(last, version)
    ensures SentInOrder(init + [last], sent, places, version)
  {
    hide PacketOf, SplitHead;
    var frames := init + [last];
    assert forall i :: 0 <= i < |init| ==> frames[i] == init[i];
    assert forall j :: 0 <= j < |places| ==> places[j] in places;
  }

  lemma OneSent(frame: Bytes, version: Protocol)
    ensures Dispatch(PacketOf(frame, version)) == if IsForBus(frame, version) then [PacketOf(frame, version).value] else []
  {
    hide SplitHead, Acks.ReadConnAck, PublishPacket.ReadPublish, Acks.ReadAck, Acks.ReadSubAck, Acks.ReadUnsubAck;
    hide DisconnectPacket.ReadDisconnect;
  }

  /** `deal_connected_network_packet`: run after every read of the connected task; returns what it put on the bus. */
  method DealConnectedNetworkPacket(buf: BytesMut, version: Protocol) returns (sent: seq<Packet>)
    modifies buf
    ensures var d := Drain(old(buf.data), version);
            buf.data == d.rest && sent == Dispatches(d.frames, version)
    ensures exists places :: SentInOrder(Drain(old(buf.data), version).frames, sent, places, version)
  {
    ghost var places := SentMeans(Drain(buf.data, version).frames, version);
    hide PacketOf, ReadPacket, SplitHead, ReadFromNetwork, Drain, Dispatches, Dispatch;
    sent := [];
    ghost var start := buf.data;
    ghost var frames: seq<Bytes> := [];
    DispatchesNone(version);
    assert frames + Drain(start, version).frames == Drain(start, version).frames;
    while true
      invariant var d, e := Drain(start, version), Drain(buf.data, version);
                d.rest == e.rest && d.frames == frames + e.frames
      invariant sent == Dispatches(frames, version)
      decreases |buf.data|
    {
      ghost var before, done := buf.data, frames;
      DrainTurn(before, version);
      var read := TakePacket(buf, version);
      if SplitHead(before).Whole? {
        frames := frames + [SplitHead(before).frame];
        DispatchesSnoc(done, SplitHead(before).frame, version);
      }
      ghost var d, e := Drain(start, version), Drain(before, version);
      match read {
        case Ok(None) =>
          assert d.frames == frames;
          return;
        case Ok(Some(packet)) =>
          sent := sent + Dispatch(Ok(packet));
        case Err(_) =>
          assert d.frames == frames;
          assert sent + [] == sent;
          return;
      }
      if |buf.data| < 2 {
        assert d.frames == frames;
        return;
      }
      Properties.Reassociate(done, [SplitHead(before).frame], Drain(buf.data, version).frames);
    }
  }

  lemma DispatchesNone(version: Protocol)
    ensures Dispatches([], version) == []
  {
  }

  /** One turn of the loop, seen from the buffer before it. */
  lemma DrainTurn(buf: Bytes, version: Protocol)
    ensures var (read, rest) := ReadFromNetwork(buf, version);
            var d, head := Drain(buf, version), SplitHead(buf);
            if head.Whole? then
              && rest == head.rest && |rest| < |buf|
              && read == Map(PacketOf(head.frame, version), p => Some(p))
              && (read.Err? ==> Dispatch(PacketOf(head.frame, version)) == [])
              && (read.Err? || |rest| < 2 ==> d == Drained([head.frame], rest, false))
              && (read.Ok? && |rest| >= 2 ==>
                    d.frames == [head.frame] + Drain(rest, version).frames && d.rest == Drain(rest, version).rest
                    && d.discarded == Drain(rest, version).discarded)
            else
              && (read == Ok(None) || read.Err?)
              && d == Drained([], rest, head.Garbage?)
  {
    hide ReadPacket, SplitHead;
    if SplitHead(buf).Whole? {
      PacketOfHead(buf, version);
    }
  }

  lemma {:induction false} DispatchesSnoc(frames: seq<Bytes>, frame: Bytes, version: Protocol)
    ensures Dispatches(frames + [frame], version) == Dispatches(frames, version) + Dispatch(PacketOf(frame, version))
  {
    hide PacketOf;
    if frames == [] {
      assert [] + [frame] == [frame];
      assert [frame][1..] == [];
    } else {
      DispatchesSnoc(frames[1..], frame, version);
      assert (frames + [frame])[1..] == frames[1..] + [frame];
      Properties.Reassociate(Dispatch(PacketOf(frames[0], version)), Dispatches(frames[1..], version),
                             Dispatch(PacketOf(frame, version)));
    }
  }

  lemma {:induction false} DecodePrefix(s: Bytes, n: nat, k: nat)
    requires k < 4 && DecodeFrom(s, k).Value? && DecodeFrom(s, k).count <= n <= |s|
    ensures DecodeFrom(s[..n], k) == DecodeFrom(s, k)
    decreases 4 - k
  {
    if s[0] >= 128 {
      DecodePrefix(s[1..], n - 1, k + 1);
      assert s[..n][1..] == s[1..][..n - 1];
    }
  }

  /** A frame cut off a stream is self-delimiting. */
  lemma FrameAlone(stream: Bytes)
    requires SplitHead(stream).Whole?
    ensures var head := SplitHead(stream);
            SplitHead(head.frame) == Whole(head.header, head.frame, [])
  {
    var n := |SplitHead(stream).frame|;
    DecodePrefix(stream[1..], n - 1, 0);
    assert stream[..n][1..] == stream[1..][..n - 1];
    assert stream[..n][..n] == stream[..n] && stream[..n][n..] == [];
  }

  lemma PacketOfHead(stream: Bytes, version: Protocol)
    requires SplitHead(stream).Whole?
    ensures var head := SplitHead(stream);
            PacketOf(head.frame, version) == ReadPacket(head.header, head.frame, version)
  {
    hide ReadPacket, SplitHead;
    FrameAlone(stream);
  }
}
