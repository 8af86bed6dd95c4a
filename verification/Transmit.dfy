/** Sending a packet until it is acknowledged: the retransmission loop that every sending task runs. */
module Transmit {
  import opened Wire
  import opened PublishPacket
  import opened HubSteps
  import opened Framer
  import opened RoundTrips
  import Acks

  // ----- What is sent -----

  datatype Message =
    | OfPublish(publish: Publish)
    | OfAck(kind: Acks.AckKind, id: u16)
    | OfRequest(request: Request)

  function BytesOf(m: Message): Bytes {
    match m
    case OfPublish(p) => Frame(p)
    case OfAck(kind, id) => Acks.NewAck(kind, id)
    case OfRequest(r) => RequestFrame(r)
  }

  /** What a retransmission is made from: only PUBLISH has a DUP flag to set. */
  function AsDup(m: Message): Message {
    if m.OfPublish? then OfPublish(m.publish.(dup := true)) else m
  }

  /** The `PacketDup` implementations. */
  class Packet {
    var message: Message

    constructor (message: Message)
      ensures this.message == message
    {
      this.message := message;
    }

    method Data() returns (bytes: Bytes)
      ensures bytes == BytesOf(message)
    {
      var buffer := new BytesMut();
      match message {
        case OfPublish(p) => var _ := WritePublish(p, buffer);
        case OfAck(kind, id) => buffer.Extend(Acks.NewAck(kind, id));
        case OfRequest(r) => var _ := WriteRequest(r, buffer);
      }
      assert [] + BytesOf(message) == BytesOf(message);
      bytes := buffer.data;
    }

    method DupData() returns (bytes: Bytes)
      modifies this
      ensures message == AsDup(old(message))
      ensures bytes == BytesOf(AsDup(old(message)))
    {
      if message.OfPublish? {
        message := OfPublish(message.publish.(dup := true));
      }
      bytes := Data();
    }
  }

  // ----- What happens to the task -----

  /** What the task sees while it waits: an acknowledgement of its kind, the timeout, or the end of its channel. */
  datatype Moment = AckArrives(id: u16) | Elapses | Closes

  datatype Outcome = Completed | Failed | Waiting

  /** What a task does to the rest of the client: bytes to the network, a message to the hub, a result to the user. */
  datatype Act = Wrote(data: Bytes) | Told(msg: HubMsg<nat>) | Reported(trace: nat)

  /** The bus as one task sees it; a receipt is given or lost for each write, in order. */
  class Bus {
    var inbox: seq<Moment>
    var receipts: seq<bool>
    var acts: seq<Act>

    constructor (inbox: seq<Moment>, receipts: seq<bool>)
      ensures this.inbox == inbox && this.receipts == receipts && acts == []
    {
      this.inbox, this.receipts, acts := inbox, receipts, [];
    }

    /** `dispatch_event` and `tx_to_user` */
    method Dispatch(act: Act)
      modifies this`acts
      ensures acts == old(acts) + [act]
    {
      acts := acts + [act];
    }

    /** `tx_network_default`: None while the receipt is outstanding. */
    method Send(data: Bytes) returns (receipt: Option<bool>)
      modifies this
      ensures inbox == old(inbox) && acts == old(acts) + [Wrote(data)]
      ensures old(receipts) == [] ==> receipt == None && receipts == []
      ensures old(receipts) != [] ==> receipt == Some(old(receipts)[0]) && receipts == old(receipts)[1..]
    {
      acts := acts + [Wrote(data)];
      receipt := None;
      if receipts != [] {
        receipt := Some(receipts[0]);
        receipts := receipts[1..];
      }
    }

    method Receive() returns (moment: Moment)
      requires inbox != []
      modifies this
      ensures moment == old(inbox)[0] && inbox == old(inbox)[1..]
      ensures acts == old(acts) && receipts == old(receipts)
    {
      moment := inbox[0];
      inbox := inbox[1..];
    }
  }

  // ----- The specification -----

  /** The moments before the one that ends the wait: acknowledgements of other ids. */
  function Skipped(inbox: seq<Moment>, id: u16): (k: nat)
    ensures k <= |inbox|
    ensures forall j :: 0 <= j < k ==> inbox[j].AckArrives? && inbox[j].id != id
    ensures k < |inbox| ==> inbox[k] == AckArrives(id) || !inbox[k].AckArrives?
  {
    if inbox != [] && inbox[0].AckArrives? && inbox[0].id != id then 1 + Skipped(inbox[1..], id) else 0
  }

  /** How the exchange goes after the first write, and how many copies it takes. */
  function Exchange(inbox: seq<Moment>, receipts: seq<bool>, id: u16): (Outcome, nat)
    decreases |inbox|
  {
    if inbox == [] then (Waiting, 0)
    else
      match inbox[0]
      case AckArrives(i) => if i == id then (Completed, 0) else Exchange(inbox[1..], receipts, id)
      case Closes => (Failed, 0)
      case Elapses =>
        if receipts == [] then (Waiting, 1)
        else if !receipts[0] then (Failed, 1)
        else var (outcome, copies) := Exchange(inbox[1..], receipts[1..], id); (outcome, copies + 1)
  }

  /** The same from before the first write. */
  function Delivery(inbox: seq<Moment>, receipts: seq<bool>, id: u16): (Outcome, nat) {
    if receipts == [] then (Waiting, 0)
    else if !receipts[0] then (Failed, 0)
    else Exchange(inbox, receipts[1..], id)
  }

  function Copies(data: Bytes, n: nat): (r: seq<Act>)
    ensures |r| == n && forall i :: 0 <= i < n ==> r[i] == Wrote(data)
  {
    seq(n, i => Wrote(data))
  }

  // ----- What happens, moment by moment -----

  function Timeouts(moments: seq<Moment>): (n: nat)
    ensures n <= |moments|
  {
    if moments == [] then 0 else (if moments[0].Elapses? then 1 else 0) + Timeouts(moments[1..])
  }

  /** None of the first k moments ends the wait, and the receipt of the copy after each timeout among them is given. */
  ghost predicate Passes(inbox: seq<Moment>, receipts: seq<bool>, id: u16, k: nat) {
    && k <= |inbox|
    && (forall j :: 0 <= j < k ==> inbox[j] != AckArrives(id) && inbox[j] != Closes)
    && Timeouts(inbox[..k]) <= |receipts|
    && forall i :: 0 <= i < Timeouts(inbox[..k]) ==> receipts[i]
  }

  /** The k-th moment is the first to end the wait, it is the awaited acknowledgement, and no receipt before is lost. */
  ghost predicate EndsAt(inbox: seq<Moment>, receipts: seq<bool>, id: u16, k: nat) {
    Passes(inbox, receipts, id, k) && k < |inbox| && inbox[k] == AckArrives(id)
  }

  /** The channel closes, or the copy after a timeout gets a bad receipt. */
  ghost predicate FailsAt(inbox: seq<Moment>, receipts: seq<bool>, id: u16, k: nat) {
    Passes(inbox, receipts, id, k) && k < |inbox|
    && var n := Timeouts(inbox[..k]);
       inbox[k].Closes? || (inbox[k].Elapses? && n < |receipts| && !receipts[n])
  }

  /** Nothing more happens, or the receipt of the copy after a timeout is outstanding. */
  ghost predicate WaitsAt(inbox: seq<Moment>, receipts: seq<bool>, id: u16, k: nat) {
    Passes(inbox, receipts, id, k)
    && (k == |inbox| || (inbox[k].Elapses? && Timeouts(inbox[..k]) == |receipts|))
  }

  /** How it ends after the first write has been given its receipt, and with how many copies written by then. */
  ghost predicate Concludes(inbox: seq<Moment>, receipts: seq<bool>, id: u16, outcome: Outcome, copies: nat) {
    exists k: nat ::
      && k <= |inbox|
      && copies == Timeouts(inbox[..k]) + (if k < |inbox| && inbox[k].Elapses? then 1 else 0)
      && match outcome
         case Completed => EndsAt(inbox, receipts, id, k)
         case Failed => FailsAt(inbox, receipts, id, k)
         case Waiting => WaitsAt(inbox, receipts, id, k)
  }

  /** The same from before the first write. */
  ghost predicate Delivers(inbox: seq<Moment>, receipts: seq<bool>, id: u16, outcome: Outcome, copies: nat) {
    if receipts == [] then outcome == Waiting && copies == 0
    else if !receipts[0] then outcome == Failed && copies == 0
    else Concludes(inbox, receipts[1..], id, outcome, copies)
  }

  lemma {:induction false} TimeoutsSnoc(moments: seq<Moment>, last: Moment)
    ensures Timeouts(moments + [last]) == Timeouts(moments) + if last.Elapses? then 1 else 0
    decreases |moments|
  {
    if moments == [] {
      assert [] + [last] == [last] && [last][1..] == [];
    } else {
      TimeoutsSnoc(moments[1..], last);
      assert (moments + [last])[1..] == moments[1..] + [last];
    }
  }

  /** While moments are passed the exchange stays the same but for what is behind and the copies so far. */
  lemma {:induction false} PassesTo(inbox: seq<Moment>, receipts: seq<bool>, id: u16, k: nat)
    requires Passes(inbox, receipts, id, k)
    ensures var n := Timeouts(inbox[..k]);
            var (o, more) := Exchange(inbox[k..], receipts[n..], id);
            Exchange(inbox, receipts, id) == (o, n + more)
    decreases k
  {
    if k == 0 {
      assert inbox[..0] == [] && inbox[0..] == inbox && receipts[0..] == receipts;
    } else {
      var j := k - 1;
      assert inbox[..k] == inbox[..j] + [inbox[j]];
      TimeoutsSnoc(inbox[..j], inbox[j]);
      PassesTo(inbox, receipts, id, j);
      var n := Timeouts(inbox[..j]);
      assert inbox[j..][1..] == inbox[k..];
      assert inbox[j].Elapses? ==> receipts[n..][1..] == receipts[n + 1..] && receipts[n..][0];
    }
  }

  /** The moment that is not passed decides. */
  lemma DecidedAt(inbox: seq<Moment>, receipts: seq<bool>, id: u16, k: nat)
    requires Passes(inbox, receipts, id, k)
    ensures var n := Timeouts(inbox[..k]);
            && (EndsAt(inbox, receipts, id, k) ==> Exchange(inbox, receipts, id) == (Completed, n))
            && (FailsAt(inbox, receipts, id, k) ==>
                  Exchange(inbox, receipts, id) == (Failed, n + if inbox[k].Elapses? then 1 else 0))
            && (WaitsAt(inbox, receipts, id, k) ==>
                  Exchange(inbox, receipts, id) == (Waiting, n + if k < |inbox| then 1 else 0))
  {
    PassesTo(inbox, receipts, id, k);
  }

  /** Some moment decides, or the end of them. */
  lemma {:induction false} SomeDecides(inbox: seq<Moment>, receipts: seq<bool>, id: u16, k: nat) returns (m: nat)
    requires Passes(inbox, receipts, id, k)
    ensures EndsAt(inbox, receipts, id, m) || FailsAt(inbox, receipts, id, m) || WaitsAt(inbox, receipts, id, m)
    decreases |inbox| - k
  {
    m := k;
    if k < |inbox| && !EndsAt(inbox, receipts, id, k) && !FailsAt(inbox, receipts, id, k)
       && !WaitsAt(inbox, receipts, id, k) {
      assert inbox[..k + 1] == inbox[..k] + [inbox[k]];
      TimeoutsSnoc(inbox[..k], inbox[k]);
      m := SomeDecides(inbox, receipts, id, k + 1);
    }
  }

  lemma ExchangeMeans(inbox: seq<Moment>, receipts: seq<bool>, id: u16)
    ensures forall o, n: nat :: Exchange(inbox, receipts, id) == (o, n) <==> Concludes(inbox, receipts, id, o, n)
  {
    assert inbox[..0] == [];
    var m := SomeDecides(inbox, receipts, id, 0);
    DecidedAt(inbox, receipts, id, m);
    hide Exchange, Timeouts, EndsAt, FailsAt, WaitsAt;
    forall o, n: nat | Concludes(inbox, receipts, id, o, n) ensures Exchange(inbox, receipts, id) == (o, n) {
      ConcludesOnce(inbox, receipts, id, o, n);
    }
    var o := if EndsAt(inbox, receipts, id, m) then Completed
             else if FailsAt(inbox, receipts, id, m) then Failed else Waiting;
    DecisionConcludes(inbox, receipts, id, m, o);
  }

  lemma ConcludesOnce(inbox: seq<Moment>, receipts: seq<bool>, id: u16, o: Outcome, n: nat)
    requires Concludes(inbox, receipts, id, o, n)
    ensures Exchange(inbox, receipts, id) == (o, n)
  {
    var k: nat :|
      && k <= |inbox|
      && n == Timeouts(inbox[..k]) + (if k < |inbox| && inbox[k].Elapses? then 1 else 0)
      && match o
         case Completed => EndsAt(inbox, receipts, id, k)
         case Failed => FailsAt(inbox, receipts, id, k)
         case Waiting => WaitsAt(inbox, receipts, id, k);
    DecidedAt(inbox, receipts, id, k);
    hide Exchange, Timeouts;
  }

  lemma DecisionConcludes(inbox: seq<Moment>, receipts: seq<bool>, id: u16, k: nat, o: Outcome)
    requires match o
             case Completed => EndsAt(inbox, receipts, id, k)
             case Failed => FailsAt(inbox, receipts, id, k)
             case Waiting => WaitsAt(inbox, receipts, id, k)
    ensures Concludes(inbox, receipts, id, o, Exchange(inbox, receipts, id).1)
    ensures Exchange(inbox, receipts, id).0 == o
  {
    DecidedAt(inbox, receipts, id, k);
    hide Exchange, Timeouts;
  }

  /** From before the first write: the outcome and the copies are those the moments and receipts lead to, and no others. */
  lemma DeliveryMeans(inbox: seq<Moment>, receipts: seq<bool>, id: u16)
    ensures forall o, n: nat :: Delivery(inbox, receipts, id) == (o, n) <==> Delivers(inbox, receipts, id, o, n)
  {
    hide Exchange, Concludes;
    if receipts != [] && receipts[0] {
      ExchangeMeans(inbox, receipts[1..], id);
    }
  }

  lemma DeliveryIs(inbox: seq<Moment>, receipts: seq<bool>, id: u16)
    ensures var (o, n) := Delivery(inbox, receipts, id); Delivers(inbox, receipts, id, o, n)
  {
    DeliveryMeans(inbox, receipts, id);
    hide Delivers, Exchange;
    var (o, n) := Delivery(inbox, receipts, id);
    assert Delivery(inbox, receipts, id) == (o, n);
  }

  // ----- The loops -----

  /** `timeout_rx` under its timeout: the moment that ended it, or None while nothing has. */
  method TimeoutRx(bus: Bus, id: u16) returns (moment: Option<Moment>)
    modifies bus
    ensures bus.acts == old(bus.acts) && bus.receipts == old(bus.receipts)
    ensures var k := Skipped(old(bus.inbox), id);
            if k == |old(bus.inbox)| then moment == None && bus.inbox == []
            else moment == Some(old(bus.inbox)[k]) && bus.inbox == old(bus.inbox)[k + 1..]
  {
    ghost var start := bus.inbox;
    ghost var n := 0;
    while bus.inbox != []
      invariant n <= |start| && bus.inbox == start[n..]
      invariant Skipped(start, id) == n + Skipped(bus.inbox, id)
      invariant bus.acts == old(bus.acts) && bus.receipts == old(bus.receipts)
      decreases |bus.inbox|
    {
      var next := bus.Receive();
      if next == AckArrives(id) || !next.AckArrives? {
        return Some(next);
      }
      n := n + 1;
    }
    moment := None;
  }

  lemma {:induction false} ExchangeSkips(inbox: seq<Moment>, receipts: seq<bool>, id: u16)
    ensures Exchange(inbox, receipts, id) == Exchange(inbox[Skipped(inbox, id)..], receipts, id)
    decreases |inbox|
  {
    if inbox != [] && inbox[0].AckArrives? && inbox[0].id != id {
      ExchangeSkips(inbox[1..], receipts, id);
      assert inbox[1..][Skipped(inbox[1..], id)..] == inbox[Skipped(inbox, id)..];
    } else {
      assert inbox[0..] == inbox;
    }
  }

  /** The exchange turns on the first moment that is not an acknowledgement of another id. */
  lemma ExchangeAt(inbox: seq<Moment>, receipts: seq<bool>, id: u16)
    ensures var rest := inbox[Skipped(inbox, id)..];
            Exchange(inbox, receipts, id)
            == if rest == [] then (Waiting, 0)
               else if rest[0].AckArrives? then if rest[0].id == id then (Completed, 0) else Exchange(rest, receipts, id)
               else if rest[0].Closes? then (Failed, 0)
               else if receipts == [] then (Waiting, 1)
               else if !receipts[0] then (Failed, 1)
               else
                 var (outcome, copies) := Exchange(rest[1..], receipts[1..], id);
                 (outcome, copies + 1)
  {
    ExchangeSkips(inbox, receipts, id);
  }

  lemma CopiesSnoc(data: Bytes, n: nat)
    ensures Copies(data, n) + [Wrote(data)] == Copies(data, n + 1)
  {
  }

  /**
   `complete_to_tx_packet`: the packet, then a copy of its duplicate form after each timeout, cached after the first,
   until the acknowledgement with its packet id.
   */
  method CompleteToTxPacket(packet: Packet, id: u16, bus: Bus) returns (outcome: Outcome)
    modifies packet, bus
    ensures var m := old(packet.message);
            var (o, copies) := Delivery(old(bus.inbox), old(bus.receipts), id);
            && outcome == o
            && bus.acts == old(bus.acts) + [Wrote(BytesOf(m))] + Copies(BytesOf(AsDup(m)), copies)
            && packet.message == (if copies == 0 then m else AsDup(m))
            && (o == Completed ==>
                  copies + 1 <= |old(bus.receipts)| && bus.receipts == old(bus.receipts)[copies + 1..])
    ensures Delivers(old(bus.inbox), old(bus.receipts), id, outcome, |bus.acts| - |old(bus.acts)| - 1)
  {
    hide BytesOf, Exchange, Delivers;
    DeliveryIs(bus.inbox, bus.receipts, id);
    ghost var dup := BytesOf(AsDup(packet.message));
    var data := packet.Data();
    ghost var first := bus.acts + [Wrote(data)];
    var dupData: Option<Bytes> := None;
    var receipt := bus.Send(data);
    assert first + Copies(dup, 0) == first;
    if receipt != Some(true) {
      return if receipt == None then Waiting else Failed;
    }
    ghost var copies := 0;
    ghost var all := Exchange(bus.inbox, bus.receipts, id);
    while true
      invariant bus.acts == first + Copies(dup, copies)
      invariant var (o, more) := Exchange(bus.inbox, bus.receipts, id); all == (o, copies + more)
      invariant copies + 1 <= |old(bus.receipts)| && bus.receipts == old(bus.receipts)[copies + 1..]
      invariant dupData == if copies == 0 then None else Some(dup)
      invariant packet.message == if copies == 0 then old(packet.message) else AsDup(old(packet.message))
      decreases |bus.inbox|
    {
      ExchangeAt(bus.inbox, bus.receipts, id);
      var moment := TimeoutRx(bus, id);
      if moment.None? {
        return Waiting;
      } else if moment.value.AckArrives? {
        return Completed;
      } else if moment.value.Closes? {
        return Failed;
      }
      if dupData.Some? {
        data := dupData.value;
      } else {
        data := packet.DupData();
        dupData := Some(data);
      }
      receipt := bus.Send(data);
      CopiesSnoc(dup, copies);
      copies := copies + 1;
      if receipt != Some(true) {
        return if receipt == None then Waiting else Failed;
      }
    }
  }

  // ----- What the trace means -----

  /**
   The task succeeds exactly on the first acknowledgement with its packet id, after skipping all others, and by then
   has written one copy for each timeout.
   */
  lemma CompletesExactlyOnItsAck(inbox: seq<Moment>, receipts: seq<bool>, id: u16)
    ensures Delivery(inbox, receipts, id).0 == Completed
            <==> receipts != [] && receipts[0] && exists k: nat :: EndsAt(inbox, receipts[1..], id, k)
    ensures receipts != [] && receipts[0] ==>
              forall k: nat :: EndsAt(inbox, receipts[1..], id, k) ==>
                Delivery(inbox, receipts, id) == (Completed, Timeouts(inbox[..k]))
  {
    if receipts != [] && receipts[0] {
      var rest := receipts[1..];
      ExchangeMeans(inbox, rest, id);
      hide Exchange, Timeouts, Passes;
      forall k: nat | EndsAt(inbox, rest, id, k)
        ensures Delivery(inbox, receipts, id) == (Completed, Timeouts(inbox[..k]))
      {
        DecidedAt(inbox, rest, id, k);
      }
      if Delivery(inbox, receipts, id).0 == Completed {
        assert Concludes(inbox, rest, id, Completed, Exchange(inbox, rest, id).1);
      }
    }
  }

  /** A retransmission is the same packet but for the DUP bit of a PUBLISH: section 3.3.1.1 of MQTT 3.1.1. */
  lemma CopyDiffersInDupBit(m: Message)
    ensures if m.OfPublish? && !m.publish.dup
            then BytesOf(AsDup(m)) == BytesOf(m)[0 := BytesOf(m)[0] + 8] && BytesOf(m)[0] / 8 % 2 == 0
            else BytesOf(AsDup(m)) == BytesOf(m)
  {
    hide Frame;
    if m.OfPublish? && !m.publish.dup {
      DupChangesOneBit(m.publish);
    }
  }

  /** Every copy of a PUBLISH that can be sent reads back as the same message with the same packet id, marked DUP. */
  lemma CopyReadsBack(p: Publish, rest: Bytes)
    requires Transmittable(p)
    ensures ReadFromNetwork(BytesOf(AsDup(OfPublish(p))) + rest, p.protocol)
            == (Ok(Some(PublishReceived(p.(dup := true)))), rest)
  {
    assert Transmittable(p.(dup := true));
    hide Frame, Transmittable, ReadFromNetwork;
    PublishRoundTrip(p.(dup := true), rest);
  }
}
