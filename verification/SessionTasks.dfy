/**
 The tasks of module Session against the `run` bodies of module TaskRuns: turn by turn, in whatever order the turns come,
 a task writes and tells the hub what its body does, in the order of the body.
 */
module SessionTasks {
  import opened Wire
  import opened HubSteps
  import opened Session
  import opened Projections
  import opened Transmit
  import opened TaskRuns
  import opened Properties
  import Acks

  datatype Out = Writes | Tells(msg: HubMsg<nat>)

  /** A turn of a task that lives: to write, to read what a state of the system has for it, or to dispatch. */
  datatype Turn = ToWrite | ToRead(seen: System) | ToDispatch

  function OutOf(t: Task, turn: Turn): seq<Out> {
    match turn
    case ToWrite => if WriteOf(t).Some? then [Writes] else []
    case ToRead(_) => []
    case ToDispatch => if DispatchOf(t) == [] then [] else [Tells(DispatchOf(t)[0].msg)]
  }

  function AfterTurn(t: Task, turn: Turn): Option<Task> {
    match turn
    case ToWrite => if WriteOf(t).Some? then Some(WriteOf(t).value.1) else Some(t)
    case ToRead(s) => Some(ReadOf(s, t))
    case ToDispatch => DispatchedOf(t)
  }

  /** What a task puts out over some turns, and the task after them; None once it has ended. */
  function Outs(t: Task, turns: seq<Turn>): (seq<Out>, Option<Task>) {
    if turns == [] then ([], Some(t))
    else
      var (outs, after) := Outs(t, turns[..|turns| - 1]);
      if after.None? then (outs, None)
      else
        var last := turns[|turns| - 1];
        (outs + OutOf(after.value, last), AfterTurn(after.value, last))
  }

  /** The acts of a body, as far as module Session has them: what is reported to the user is not in it. */
  function ShapeOf(acts: seq<Act>): seq<Out> {
    if acts == [] then [] else ShapeOfOne(acts[0]) + ShapeOf(acts[1..])
  }

  function ShapeOfOne(act: Act): seq<Out> {
    match act
    case Wrote(_) => [Writes]
    case Told(msg) => [Tells(msg)]
    case Reported(_) => []
  }

  lemma ShapeCons(act: Act, rest: seq<Act>)
    ensures ShapeOf([act] + rest) == ShapeOfOne(act) + ShapeOf(rest)
  {
    assert ([act] + rest)[1..] == rest;
  }

  lemma ShapeOfLast(act: Act)
    ensures ShapeOf([act]) == ShapeOfOne(act)
  {
    assert [act][1..] == [];
  }

  lemma ShapeOfTwo(a: Act, b: Act)
    ensures ShapeOf([a, b]) == ShapeOfOne(a) + ShapeOfOne(b)
  {
    hide ShapeOf, ShapeOfOne;
    ShapeOfLast(b);
    ShapeCons(a, [b]);
    assert [a] + [b] == [a, b];
  }

  lemma ShapeOfThree(a: Act, b: Act, c: Act)
    ensures ShapeOf([a]) == ShapeOfOne(a)
    ensures ShapeOf([a, b]) == ShapeOfOne(a) + ShapeOfOne(b)
    ensures ShapeOf([a, b, c]) == ShapeOfOne(a) + ShapeOfOne(b) + ShapeOfOne(c)
  {
    hide ShapeOf, ShapeOfOne;
    ShapeOfLast(a);
    ShapeOfTwo(a, b);
    ShapeOfTwo(b, c);
    ShapeCons(a, [b, c]);
    assert [a] + [b, c] == [a, b, c];
    Reassociate(ShapeOfOne(a), ShapeOfOne(b), ShapeOfOne(c));
  }

  function Times(n: nat): (r: seq<Out>)
    ensures |r| == n && forall i :: 0 <= i < n ==> r[i] == Writes
  {
    seq(n, i => Writes)
  }

  lemma TimesSnoc(n: nat)
    ensures Times(n) + [Writes] == Times(n + 1) && [Writes] + Times(n) == Times(n + 1)
  {
  }

  /** An exchange in which the acknowledgement comes after n timeouts, and every receipt is given. */
  lemma {:induction false} SomeExchange(id: u16, n: nat) returns (inbox: seq<Moment>, receipts: seq<bool>)
    ensures Exchange(inbox, receipts, id) == (Completed, n) && |receipts| == n + 1 && receipts[n]
    decreases n
  {
    if n == 0 {
      inbox, receipts := [AckArrives(id)], [true];
    } else {
      var inbox', receipts' := SomeExchange(id, n - 1);
      inbox, receipts := [Elapses] + inbox', [true] + receipts';
      assert inbox[1..] == inbox' && receipts[1..] == receipts';
    }
  }

  /** The same from before the first write, with one receipt to spare. */
  lemma SomeDelivery(id: u16, n: nat) returns (inbox: seq<Moment>, receipts: seq<bool>)
    ensures Delivery(inbox, receipts, id) == (Completed, n) && n + 1 < |receipts| && receipts[n + 1]
  {
    var more: seq<bool>;
    inbox, more := SomeExchange(id, n);
    receipts := [true] + more;
    assert receipts[1..] == more;
  }

  // ----- Senders -----

  function KindOfSender(sender: Sender): SendKind {
    match sender
    case QoS1Sender(_, _) => Publish1
    case QoS2Sender(_) => Publish2
    case RelSender(_) => Release
    case SubscribeSender(_, _) => Subscribing
    case UnsubscribeSender(_, _) => Unsubscribing
  }

  function GivesBack(kind: SendKind, id: u16): seq<Out> {
    if kind == Publish1 then [Tells(RecoverId(id)), Tells(RecoverId(id))] else [Tells(RecoverId(id))]
  }

  /** Where a sender is after n writes, and what it has put out by then. */
  ghost predicate SenderAt(outs: seq<Out>, t: Option<Task>, kind: SendKind, id: u16, n: nat) {
    match t
    case None => n > 0 && outs == Times(n) + GivesBack(kind, id)
    case Some(t) =>
      && t.Send? && t.kind == kind && t.id == id
      && match t.sendPc
         case Start => n == 0 && outs == []
         case Waiting => n > 0 && outs == Times(n)
         case Acked => n > 0 && outs == Times(n)
         case AckedAgain => n > 0 && kind == Publish1 && outs == Times(n) + [Tells(RecoverId(id))]
         case Report => n > 0 && outs == Times(n) + GivesBack(kind, id)
  }

  lemma SenderTurn(outs: seq<Out>, t: Task, turn: Turn, kind: SendKind, id: u16, n: nat)
    requires SenderAt(outs, Some(t), kind, id, n)
    ensures SenderAt(outs + OutOf(t, turn), AfterTurn(t, turn), kind, id,
                     if turn.ToWrite? && WriteOf(t).Some? then n + 1 else n)
  {
    TimesSnoc(n);
    assert outs + [] == outs && [] + [Writes] == [Writes];
    if t.sendPc.AckedAgain? {
      var r := [Tells(RecoverId(id))];
      assert Times(n) + r + r == Times(n) + GivesBack(kind, id);
    }
  }

  lemma {:induction false} SenderFollows(kind: SendKind, id: u16, uid: nat, now: nat, turns: seq<Turn>) returns (n: nat)
    ensures var (outs, t) := Outs(Send(kind, id, uid, Start, now), turns); SenderAt(outs, t, kind, id, n)
    decreases |turns|
  {
    if turns == [] {
      n := 0;
    } else {
      var t0, init, last := Send(kind, id, uid, Start, now), turns[..|turns| - 1], turns[|turns| - 1];
      n := SenderFollows(kind, id, uid, now, init);
      var (outs, t) := Outs(t0, init);
      hide SenderAt;
      if t.Some? {
        SenderTurn(outs, t.value, last, kind, id, n);
        n := if last.ToWrite? && WriteOf(t.value).Some? then n + 1 else n;
      }
    }
  }

  /** A send task that has ended has put out exactly what the body it stands for does in some exchange. */
  lemma EndedSenderDidItsBody(sender: Sender, id: u16, uid: nat, now: nat, turns: seq<Turn>)
    returns (inbox: seq<Moment>, receipts: seq<bool>)
    requires Outs(Send(KindOfSender(sender), id, uid, Start, now), turns).1 == None
    ensures Delivery(inbox, receipts, id).0 == Completed
    ensures Outs(Send(KindOfSender(sender), id, uid, Start, now), turns).0
            == ShapeOf(Sending(MessageOf(sender, id), Delivery(inbox, receipts, id).1) + Finish(sender, id))
  {
    var n := SenderFollows(KindOfSender(sender), id, uid, now, turns);
    inbox, receipts := SomeDelivery(id, n - 1);
    ShapeOfSending(MessageOf(sender, id), n - 1, Finish(sender, id));
    ShapeOfFinish(sender, id);
  }

  lemma ShapeOfFinish(sender: Sender, id: u16)
    ensures ShapeOf(Finish(sender, id)) == GivesBack(KindOfSender(sender), id)
  {
    var r: Act := Told(RecoverId(id));
    match sender {
      case QoS1Sender(_, trace) => ShapeOfThree(r, r, Reported(trace));
      case QoS2Sender(_) => ShapeOfThree(r, r, r);
      case RelSender(trace) => ShapeOfThree(r, Reported(trace), r);
      case SubscribeSender(_, trace) => ShapeOfThree(r, Reported(trace), r);
      case UnsubscribeSender(_, trace) => ShapeOfThree(r, Reported(trace), r);
    }
  }

  lemma {:induction false} ShapeOfCopies(data: Bytes, n: nat, rest: seq<Act>)
    ensures ShapeOf(Copies(data, n) + rest) == Times(n) + ShapeOf(rest)
    decreases n
  {
    hide ShapeOf, Copies, Times;
    if n == 0 {
      assert Copies(data, 0) + rest == rest && Times(0) + ShapeOf(rest) == ShapeOf(rest);
    } else {
      var w := Wrote(data);
      ShapeOfCopies(data, n - 1, rest);
      ShapeCons(w, Copies(data, n - 1) + rest);
      TimesSnoc(n - 1);
      assert Copies(data, n) == [w] + Copies(data, n - 1);
      Reassociate([w], Copies(data, n - 1), rest);
      Reassociate([Writes], Times(n - 1), ShapeOf(rest));
    }
  }

  lemma ShapeOfSending(m: Message, copies: nat, rest: seq<Act>)
    ensures ShapeOf(Sending(m, copies) + rest) == Times(copies + 1) + ShapeOf(rest)
  {
    hide ShapeOf, Copies, Times, BytesOf, AsDup;
    var w, more := Wrote(BytesOf(m)), Copies(BytesOf(AsDup(m)), copies);
    ShapeOfCopies(BytesOf(AsDup(m)), copies, rest);
    ShapeCons(w, more + rest);
    TimesSnoc(copies);
    Reassociate([w], more, rest);
    Reassociate([Writes], Times(copies), ShapeOf(rest));
  }

  // ----- The QoS 2 receiver -----

  ghost predicate ReceiverAt(outs: seq<Out>, t: Option<Task>, id: u16, n: nat) {
    var deliver, free := [Tells(AffirmRxPublish(id))], [Tells(AffirmRxId(id))];
    match t
    case None => n > 0 && outs == Times(n) + (deliver + [Writes] + free)
    case Some(t) =>
      && t.Receive? && t.qos2 && t.id == id
      && match t.receivePc
         case First => n == 0 && outs == []
         case AwaitRel => n > 0 && outs == Times(n)
         case Affirm => n > 0 && outs == Times(n)
         case Complete => n > 0 && outs == Times(n) + deliver
         case Free => n > 0 && outs == Times(n) + (deliver + [Writes])
  }

  lemma ReceiverTakesTurn(outs: seq<Out>, t: Task, turn: Turn, id: u16, n: nat)
    requires ReceiverAt(outs, Some(t), id, n)
    ensures ReceiverAt(outs + OutOf(t, turn), AfterTurn(t, turn), id,
                       if turn.ToWrite? && (t.receivePc.First? || t.receivePc.AwaitRel?) then n + 1 else n)
  {
    TimesSnoc(n);
    assert outs + [] == outs && [] + [Writes] == [Writes];
    var deliver, free := [Tells(AffirmRxPublish(id))], [Tells(AffirmRxId(id))];
    assert Times(n) + deliver + [Writes] == Times(n) + (deliver + [Writes]);
    assert Times(n) + (deliver + [Writes]) + free == Times(n) + (deliver + [Writes] + free);
  }

  lemma {:induction false} ReceiverFollows(id: u16, uid: nat, now: nat, turns: seq<Turn>) returns (n: nat)
    ensures var (outs, t) := Outs(Receive(true, id, uid, First, now), turns); ReceiverAt(outs, t, id, n)
    decreases |turns|
  {
    if turns == [] {
      n := 0;
    } else {
      var t0, init, last := Receive(true, id, uid, First, now), turns[..|turns| - 1], turns[|turns| - 1];
      n := ReceiverFollows(id, uid, now, init);
      var (outs, t) := Outs(t0, init);
      if t.Some? {
        ReceiverTakesTurn(outs, t.value, last, id, n);
        n := if last.ToWrite? && (t.value.receivePc.First? || t.value.receivePc.AwaitRel?) then n + 1 else n;
      }
    }
  }

  /** A QoS 2 receive task that has ended has put out exactly what its body does in some exchange. */
  lemma EndedReceiverDidItsBody(id: u16, uid: nat, now: nat, turns: seq<Turn>)
    returns (inbox: seq<Moment>, receipts: seq<bool>)
    requires Outs(Receive(true, id, uid, First, now), turns).1 == None
    ensures Delivery(inbox, receipts, id).0 == Completed
    ensures Outs(Receive(true, id, uid, First, now), turns).0 == ShapeOf(RxQos2Acts(id, inbox, receipts))
  {
    var n := ReceiverFollows(id, uid, now, turns);
    inbox, receipts := SomeDelivery(id, n - 1);
    var deliver: Act, free: Act := Told(AffirmRxPublish(id)), Told(AffirmRxId(id));
    var comp := Wrote(Acks.NewAck(Acks.PubComp, id));
    assert [deliver, comp] + [free] == [deliver, comp, free];
    ShapeOfSending(OfAck(Acks.PubRec, id), n - 1, [deliver, comp, free]);
    ShapeOfThree(deliver, comp, free);
  }

  // ----- The QoS 1 receiver -----

  /** One write, the two affirmations, and nothing else. */
  ghost predicate Receiver1At(outs: seq<Out>, t: Option<Task>, id: u16) {
    match t
    case None => outs == [Writes, Tells(AffirmRxPublish(id)), Tells(AffirmRxId(id))]
    case Some(t) =>
      && t.Receive? && !t.qos2 && t.id == id
      && match t.receivePc
         case First => outs == []
         case Affirm => outs == [Writes]
         case Free => outs == [Writes, Tells(AffirmRxPublish(id))]
         case _ => false
  }

  lemma {:induction false} Receiver1Follows(id: u16, uid: nat, now: nat, turns: seq<Turn>)
    ensures var (outs, t) := Outs(Receive(false, id, uid, First, now), turns); Receiver1At(outs, t, id)
    decreases |turns|
  {
    if turns != [] {
      var init, last := turns[..|turns| - 1], turns[|turns| - 1];
      Receiver1Follows(id, uid, now, init);
      var (outs, t) := Outs(Receive(false, id, uid, First, now), init);
      if t.Some? {
        assert outs + [] == outs;
      }
    }
  }

  /** A QoS 1 receive task that has ended has put out exactly what its body does when its PUBACK gets its receipt. */
  lemma EndedReceiver1DidItsBody(id: u16, uid: nat, now: nat, turns: seq<Turn>)
    requires Outs(Receive(false, id, uid, First, now), turns).1 == None
    ensures Outs(Receive(false, id, uid, First, now), turns).0 == ShapeOf(RxQos1Acts(id, [true]))
  {
    Receiver1Follows(id, uid, now, turns);
    var w := Wrote(Acks.NewAck(Acks.PubAck, id));
    var deliver: Act, free: Act := Told(AffirmRxPublish(id)), Told(AffirmRxId(id));
    assert RxQos1Acts(id, [true]) == [w, deliver, free];
    ShapeOfThree(w, deliver, free);
  }

  /** Short of its end it has put out what the body has before the receipt, or a part of it after. */
  lemma LiveReceiver1IsInItsBody(id: u16, uid: nat, now: nat, turns: seq<Turn>)
    ensures Outs(Receive(false, id, uid, First, now), turns).0 <= ShapeOf(RxQos1Acts(id, [true]))
  {
    Receiver1Follows(id, uid, now, turns);
    var w := Wrote(Acks.NewAck(Acks.PubAck, id));
    var deliver: Act, free: Act := Told(AffirmRxPublish(id)), Told(AffirmRxId(id));
    assert RxQos1Acts(id, [true]) == [w, deliver, free];
    ShapeOfThree(w, deliver, free);
  }
}
