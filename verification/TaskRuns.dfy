/** The `run` bodies of the sending and receiving tasks: what each does to the network, the hub and the user, in order. */
module TaskRuns {
  import opened Wire
  import opened HubSteps
  import opened PublishPacket
  import opened VarInt
  import opened RoundTrips
  import opened SentBytes
  import opened Transmit
  import Acks

  /** The first write and the copies that follow it. */
  function Sending(m: Message, copies: nat): seq<Act> {
    [Wrote(BytesOf(m))] + Copies(BytesOf(AsDup(m)), copies)
  }

  // ----- The sending side -----

  /** `TracePublishQos`: what the user gave to be published. */
  datatype Outgoing = Outgoing(protocol: Protocol, topic: Bytes, payload: Bytes, retain: bool)

  datatype Sender =
    | QoS1Sender(publish: Outgoing, trace: nat)
    | QoS2Sender(publish: Outgoing)
    | RelSender(trace: nat)
    | SubscribeSender(content: Content, trace: nat)
    | UnsubscribeSender(content: Content, trace: nat)

  /** `Publish::new` */
  function NewPublish(p: Outgoing, qos: QoSWithPacketId): Publish {
    Publish(p.protocol, false, qos, p.retain, p.topic, p.payload, None)
  }

  function MessageOf(sender: Sender, id: u16): Message {
    match sender
    case QoS1Sender(p, _) => OfPublish(NewPublish(p, AtLeastOnce(id)))
    case QoS2Sender(p) => OfPublish(NewPublish(p, ExactlyOnce(id)))
    case RelSender(_) => OfAck(Acks.PubRel, id)
    case SubscribeSender(content, _) => OfRequest(Request(false, id, content))
    case UnsubscribeSender(content, _) => OfRequest(Request(true, id, content))
  }

  /** Once acknowledged: QoS 1 gives the id back twice, QoS 2 says nothing to the user until PUBCOMP. */
  function Finish(sender: Sender, id: u16): seq<Act> {
    match sender
    case QoS1Sender(_, trace) => [Told(RecoverId(id)), Told(RecoverId(id)), Reported(trace)]
    case QoS2Sender(_) => [Told(RecoverId(id))]
    case RelSender(trace) => [Told(RecoverId(id)), Reported(trace)]
    case SubscribeSender(_, trace) => [Told(RecoverId(id)), Reported(trace)]
    case UnsubscribeSender(_, trace) => [Told(RecoverId(id)), Reported(trace)]
  }

  // ----- What a sender has to do, on the bytes -----

  /** Nothing in it is longer than the bytes that announce its length allow, and its topic is text. */
  predicate CanBeSent(sender: Sender) {
    match sender
    case QoS1Sender(p, _) => PublishFits(p)
    case QoS2Sender(p) => PublishFits(p)
    case RelSender(_) => true
    case SubscribeSender(content, _) => RequestFits(content)
    case UnsubscribeSender(content, _) => RequestFits(content)
  }

  predicate PublishFits(p: Outgoing) {
    && ValidUtf8(p.topic) && |p.topic| <= 65_535
    && 2 + |p.topic| + 2 + (if p.protocol.V5? then 1 else 0) + |p.payload| <= 268_435_455
  }

  predicate RequestFits(content: Content) {
    match content
    case ContentV4(filters) => 2 + |filters| <= 268_435_455
    case ContentV5(properties, filters) => 2 + LenLen(|properties|) + |properties| + |filters| <= 268_435_455
  }

  /** One write of a sender: the first, or a copy, which is the same with the DUP flag set if it is a PUBLISH. */
  ghost predicate IsWrite(sender: Sender, id: u16, data: Bytes, copy: bool) {
    match sender
    case QoS1Sender(p, _) =>
      ReadsAs(data, Publish(p.protocol, copy, AtLeastOnce(id), p.retain, p.topic, p.payload, None))
    case QoS2Sender(p) =>
      ReadsAs(data, Publish(p.protocol, copy, ExactlyOnce(id), p.retain, p.topic, p.payload, None))
    case RelSender(_) => IsPlainAck(data, Acks.PubRel, id)
    case SubscribeSender(content, _) => IsRequest(data, 0x82, id, content)
    case UnsubscribeSender(content, _) => IsRequest(data, 0xA2, id, content)
  }

  /** After its acknowledgement: the id is given back, twice at QoS 1, and then the user is told, except at QoS 2. */
  ghost predicate IsFinish(sender: Sender, id: u16, acts: seq<Act>) {
    var n := if sender.QoS1Sender? then 2 else 1;
    && |acts| == n + (if sender.QoS2Sender? then 0 else 1)
    && (forall i :: 0 <= i < n ==> acts[i] == Told(RecoverId(id)))
    && (!sender.QoS2Sender? ==> acts[n] == Reported(sender.trace))
  }

  /** All a sender does: its writes, as many as the moments lead to, and what follows if it is acknowledged. */
  ghost predicate SenderDoes(sender: Sender, id: u16, acts: seq<Act>, outcome: Outcome, copies: nat) {
    && copies < |acts|
    && (forall i :: 0 <= i <= copies ==> acts[i].Wrote? && IsWrite(sender, id, acts[i].data, i > 0))
    && if outcome == Completed then IsFinish(sender, id, acts[copies + 1..]) else |acts| == copies + 1
  }

  lemma WritesMean(sender: Sender, id: u16)
    requires CanBeSent(sender)
    ensures IsWrite(sender, id, BytesOf(MessageOf(sender, id)), false)
    ensures IsWrite(sender, id, BytesOf(AsDup(MessageOf(sender, id))), true)
  {
    hide ReadsAs, IsRequest, IsPlainAck, Frame, RequestFrame, Acks.NewAck;
    match sender
    case QoS1Sender(p, _) => PublishWrites(p, AtLeastOnce(id));
    case QoS2Sender(p) => PublishWrites(p, ExactlyOnce(id));
    case RelSender(_) => PlainAckWritten(Acks.PubRel, id);
    case SubscribeSender(content, _) => RequestWritten(Request(false, id, content));
    case UnsubscribeSender(content, _) => RequestWritten(Request(true, id, content));
  }

  lemma PublishWrites(p: Outgoing, qos: QoSWithPacketId)
    requires PublishFits(p) && !qos.AtMostOnce?
    ensures ReadsAs(Frame(NewPublish(p, qos)), NewPublish(p, qos))
    ensures ReadsAs(Frame(NewPublish(p, qos).(dup := true)), NewPublish(p, qos).(dup := true))
  {
    assert Transmittable(NewPublish(p, qos)) && Transmittable(NewPublish(p, qos).(dup := true));
    hide ReadsAs, Frame, Transmittable;
    PublishWritten(NewPublish(p, qos));
    PublishWritten(NewPublish(p, qos).(dup := true));
  }

  lemma SenderMeans(sender: Sender, id: u16, copies: nat, outcome: Outcome)
    requires CanBeSent(sender)
    ensures SenderDoes(sender, id,
                       Sending(MessageOf(sender, id), copies) + (if outcome == Completed then Finish(sender, id) else []),
                       outcome, copies)
  {
    hide IsWrite, BytesOf, MessageOf, AsDup, Sending, Finish, IsFinish, CanBeSent;
    var sent, more := Sending(MessageOf(sender, id), copies), if outcome == Completed then Finish(sender, id) else [];
    SendingMeans(sender, id, copies);
    FinishMeans(sender, id);
    var acts := sent + more;
    assert acts[copies + 1..] == more;
    assert forall i :: 0 <= i <= copies ==> acts[i] == sent[i];
  }

  lemma SendingMeans(sender: Sender, id: u16, copies: nat)
    requires CanBeSent(sender)
    ensures var sent := Sending(MessageOf(sender, id), copies);
            |sent| == copies + 1
            && forall i :: 0 <= i <= copies ==> sent[i].Wrote? && IsWrite(sender, id, sent[i].data, i > 0)
  {
    hide IsWrite, BytesOf, MessageOf, AsDup, CanBeSent;
    WritesMean(sender, id);
  }

  lemma FinishMeans(sender: Sender, id: u16)
    ensures IsFinish(sender, id, Finish(sender, id))
  {
  }

  /** `run` of TaskPublishQos1, TaskPublishQos2, TaskPublishQos2Rel, TaskSubscribe and TaskUnsubscribe. */
  method RunSender(sender: Sender, id: u16, bus: Bus) returns (outcome: Outcome)
    modifies bus
    ensures var (o, copies) := Delivery(old(bus.inbox), old(bus.receipts), id);
            && outcome == o
            && bus.acts == old(bus.acts) + Sending(MessageOf(sender, id), copies)
                           + if o == Completed then Finish(sender, id) else []
    ensures CanBeSent(sender) ==>
              exists acts, copies: nat ::
                && bus.acts == old(bus.acts) + acts
                && Delivers(old(bus.inbox), old(bus.receipts), id, outcome, copies)
                && SenderDoes(sender, id, acts, outcome, copies)
  {
    outcome := Send(sender, id, bus);
    SendMeans(sender, id, old(bus.inbox), old(bus.receipts), old(bus.acts), bus.acts);
  }

  lemma SendMeans(sender: Sender, id: u16, inbox: seq<Moment>, receipts: seq<bool>, before: seq<Act>, after: seq<Act>)
    requires var (o, copies) := Delivery(inbox, receipts, id);
             after == before + Sending(MessageOf(sender, id), copies) + if o == Completed then Finish(sender, id) else []
    ensures CanBeSent(sender) ==>
              exists acts, copies: nat ::
                && after == before + acts
                && Delivers(inbox, receipts, id, Delivery(inbox, receipts, id).0, copies)
                && SenderDoes(sender, id, acts, Delivery(inbox, receipts, id).0, copies)
  {
    if CanBeSent(sender) {
      DeliveryIs(inbox, receipts, id);
      hide Delivery, Delivers, SenderDoes, Sending, Finish, MessageOf, CanBeSent;
      var (o, copies) := Delivery(inbox, receipts, id);
      SenderMeans(sender, id, copies, o);
      var acts := Sending(MessageOf(sender, id), copies) + if o == Completed then Finish(sender, id) else [];
      assert after == before + acts;
    }
  }

  method Send(sender: Sender, id: u16, bus: Bus) returns (outcome: Outcome)
    modifies bus
    ensures var (o, copies) := Delivery(old(bus.inbox), old(bus.receipts), id);
            && outcome == o
            && bus.acts == old(bus.acts) + Sending(MessageOf(sender, id), copies)
                           + if o == Completed then Finish(sender, id) else []
  {
    hide BytesOf, Delivery, Copies, Delivers;
    var packet := new Packet(MessageOf(sender, id));
    outcome := CompleteToTxPacket(packet, id, bus);
    ghost var sent := bus.acts;
    if outcome != Completed {
      return;
    }
    bus.Dispatch(Told(RecoverId(id)));
    match sender {
      case QoS1Sender(_, trace) =>
        bus.Dispatch(Told(RecoverId(id)));
        bus.Dispatch(Reported(trace));
      case QoS2Sender(_) =>
      case RelSender(trace) => bus.Dispatch(Reported(trace));
      case SubscribeSender(_, trace) => bus.Dispatch(Reported(trace));
      case UnsubscribeSender(_, trace) => bus.Dispatch(Reported(trace));
    }
    assert bus.acts == sent + Finish(sender, id);
  }

  /** `TaskPublishQos0::run`: one write, and the user is told once it has its receipt. */
  method RunQos0(p: Outgoing, trace: nat, bus: Bus) returns (outcome: Outcome)
    modifies bus
    ensures outcome == if old(bus.receipts) == [] then Waiting else if old(bus.receipts)[0] then Completed else Failed
    ensures exists data ::
              && bus.acts == old(bus.acts) + [Wrote(data)] + (if outcome == Completed then [Reported(trace)] else [])
              && (PublishFits(p) ==>
                    ReadsAs(data, Publish(p.protocol, false, AtMostOnce, p.retain, p.topic, p.payload, None)))
  {
    hide Frame, ReadsAs;
    var publish := NewPublish(p, AtMostOnce);
    if PublishFits(p) {
      assert Transmittable(publish);
      PublishWritten(publish);
    }
    var buffer := new BytesMut();
    var _ := WritePublish(publish, buffer);
    assert buffer.data == Frame(publish);
    var receipt := bus.Send(buffer.data);
    if receipt != Some(true) {
      return if receipt == None then Waiting else Failed;
    }
    bus.Dispatch(Reported(trace));
    outcome := Completed;
  }

  // ----- The receiving side -----

  function RxQos2Acts(id: u16, inbox: seq<Moment>, receipts: seq<bool>): seq<Act> {
    var (o, copies) := Delivery(inbox, receipts, id);
    Sending(OfAck(Acks.PubRec, id), copies)
    + if o != Completed then []
      else
        [Told(AffirmRxPublish(id)), Wrote(Acks.NewAck(Acks.PubComp, id))]
        + if copies + 1 < |receipts| && receipts[copies + 1] then [Told(AffirmRxId(id))] else []
  }

  /**
   All the QoS 2 receiver does, on the bytes: PUBREC and its copies; once PUBREL has come it has the message delivered,
   writes PUBCOMP, and has the id released if that gets its receipt.
   */
  ghost predicate Rx2Does(id: u16, acts: seq<Act>, receipts: seq<bool>, o: Outcome, copies: nat) {
    && copies < |acts|
    && (forall i :: 0 <= i <= copies ==> acts[i].Wrote? && IsPlainAck(acts[i].data, Acks.PubRec, id))
    && var more := acts[copies + 1..];
       if o != Completed then more == []
       else
         && |more| >= 2 && more[0] == Told(AffirmRxPublish(id))
         && more[1].Wrote? && IsPlainAck(more[1].data, Acks.PubComp, id)
         && more[2..] == if copies + 1 < |receipts| && receipts[copies + 1] then [Told(AffirmRxId(id))] else []
  }

  lemma Rx2Means(id: u16, inbox: seq<Moment>, receipts: seq<bool>)
    ensures exists o, copies: nat ::
              Delivers(inbox, receipts, id, o, copies) && Rx2Does(id, RxQos2Acts(id, inbox, receipts), receipts, o, copies)
  {
    DeliveryIs(inbox, receipts, id);
    PlainAckWritten(Acks.PubRec, id);
    PlainAckWritten(Acks.PubComp, id);
    hide Delivery, Delivers, IsPlainAck, Acks.NewAck;
    var (o, copies) := Delivery(inbox, receipts, id);
    var acts, sent := RxQos2Acts(id, inbox, receipts), Sending(OfAck(Acks.PubRec, id), copies);
    assert forall i :: 0 <= i <= copies ==> acts[i] == sent[i] == Wrote(Acks.NewAck(Acks.PubRec, id));
    assert acts == sent + acts[copies + 1..];
    assert Rx2Does(id, acts, receipts, o, copies);
  }

  /** `TaskPublishRxQos2::run` */
  method RunRxQos2(id: u16, bus: Bus) returns (outcome: Outcome)
    modifies bus
    ensures bus.acts == old(bus.acts) + RxQos2Acts(id, old(bus.inbox), old(bus.receipts))
    ensures exists acts, o, copies: nat ::
              && bus.acts == old(bus.acts) + acts
              && Delivers(old(bus.inbox), old(bus.receipts), id, o, copies)
              && Rx2Does(id, acts, old(bus.receipts), o, copies)
    ensures outcome == Completed <==>
            var (o, copies) := Delivery(old(bus.inbox), old(bus.receipts), id);
            o == Completed && copies + 1 < |old(bus.receipts)| && old(bus.receipts)[copies + 1]
  {
    hide BytesOf, Delivery, Copies, Delivers, Rx2Does;
    Rx2Means(id, bus.inbox, bus.receipts);
    ghost var start := bus.acts;
    var packet := new Packet(OfAck(Acks.PubRec, id));
    outcome := CompleteToTxPacket(packet, id, bus);
    ghost var sent := bus.acts;
    if outcome != Completed {
      assert bus.acts == start + RxQos2Acts(id, old(bus.inbox), old(bus.receipts));
      return;
    }
    bus.Dispatch(Told(AffirmRxPublish(id)));
    var receipt := bus.Send(Acks.NewAck(Acks.PubComp, id));
    assert bus.acts == sent + [Told(AffirmRxPublish(id)), Wrote(Acks.NewAck(Acks.PubComp, id))];
    if receipt != Some(true) {
      return if receipt == None then Waiting else Failed;
    }
    bus.Dispatch(Told(AffirmRxId(id)));
    assert bus.acts
        == sent + ([Told(AffirmRxPublish(id)), Wrote(Acks.NewAck(Acks.PubComp, id))] + [Told(AffirmRxId(id))]);
  }

  function RxQos1Acts(id: u16, receipts: seq<bool>): seq<Act> {
    [Wrote(Acks.NewAck(Acks.PubAck, id))]
    + if receipts != [] && receipts[0] then [Told(AffirmRxPublish(id)), Told(AffirmRxId(id))] else []
  }

  /** `TaskPublishRxQos1::run`: PUBACK, and once it has its receipt both affirmations. */
  method RunRxQos1(id: u16, bus: Bus) returns (outcome: Outcome)
    modifies bus
    ensures bus.acts == old(bus.acts) + RxQos1Acts(id, old(bus.receipts))
    ensures exists data ::
              IsPlainAck(data, Acks.PubAck, id)
              && bus.acts == old(bus.acts) + [Wrote(data)]
                             + if outcome == Completed then [Told(AffirmRxPublish(id)), Told(AffirmRxId(id))] else []
    ensures outcome == Completed <==> old(bus.receipts) != [] && old(bus.receipts)[0]
  {
    PlainAckWritten(Acks.PubAck, id);
    hide IsPlainAck, Acks.NewAck;
    var data := Acks.NewAck(Acks.PubAck, id);
    var receipt := bus.Send(data);
    if receipt != Some(true) {
      return if receipt == None then Waiting else Failed;
    }
    bus.Dispatch(Told(AffirmRxPublish(id)));
    bus.Dispatch(Told(AffirmRxId(id)));
    outcome := Completed;
    assert bus.acts == old(bus.acts) + [Wrote(data)] + [Told(AffirmRxPublish(id)), Told(AffirmRxId(id))];
  }

  // ----- Order -----

  /** x happens at place i only after y. */
  ghost predicate OnlyAfter(acts: seq<Act>, x: Act, y: Act) {
    forall i :: 0 <= i < |acts| && acts[i] == x ==> exists j :: 0 <= j < i && acts[j] == y
  }

  /**
   However the exchange goes, the QoS 2 receiver writes PUBCOMP only after it has told the hub to deliver, and releases
   the id only after PUBCOMP.
   */
  lemma RxQos2Order(id: u16, inbox: seq<Moment>, receipts: seq<bool>)
    ensures var acts := RxQos2Acts(id, inbox, receipts);
            var comp := Wrote(Acks.NewAck(Acks.PubComp, id));
            OnlyAfter(acts, comp, Told(AffirmRxPublish(id))) && OnlyAfter(acts, Told(AffirmRxId(id)), comp)
  {
    var acts := RxQos2Acts(id, inbox, receipts);
    var (o, copies) := Delivery(inbox, receipts, id);
    var first := Sending(OfAck(Acks.PubRec, id), copies);
    AcksDiffer(id);
    hide Delivery, Acks.NewAck;
    assert forall i :: 0 <= i < |first| ==> first[i] == Wrote(Acks.NewAck(Acks.PubRec, id));
    if o == Completed {
      assert acts[copies + 1] == Told(AffirmRxPublish(id));
      assert acts[copies + 2] == Wrote(Acks.NewAck(Acks.PubComp, id));
    }
  }

  lemma AcksDiffer(id: u16)
    ensures Acks.NewAck(Acks.PubRec, id) != Acks.NewAck(Acks.PubComp, id)
  {
    assert Acks.NewAck(Acks.PubRec, id)[0] != Acks.NewAck(Acks.PubComp, id)[0];
  }
}
