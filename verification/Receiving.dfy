/**
 The receiving side over every run: no message is handed to the user twice, a packet id is held until its message has
 been delivered, and no QoS 2 message is completed but lost. Section 4.3.3 of MQTT 3.1.1.
 */
module Receiving {
  import opened Wire
  import opened PublishPacket
  import opened HubSteps
  import opened Session
  import opened Projections

  // ----- What the queue holds for one incoming id -----

  datatype Affirmation = Publishes | Frees

  function AffirmOf(e: Event, x: u16): seq<Affirmation> {
    if e.FromClient? then []
    else if e.msg == AffirmRxPublish(x) then [Publishes]
    else if e.msg == AffirmRxId(x) then [Frees]
    else []
  }

  function AffirmsIn(q: seq<Event>, x: u16): seq<Affirmation> {
    if q == [] then [] else AffirmOf(q[0], x) + AffirmsIn(q[1..], x)
  }

  function MessageOf(e: Event): seq<nat> {
    if e.FromTask? && e.msg.RxPublish? then [e.msg.message] else []
  }

  /** The messages that wait in the queue to be accepted. */
  function MessagesIn(q: seq<Event>): seq<nat> {
    if q == [] then [] else MessageOf(q[0]) + MessagesIn(q[1..])
  }

  lemma {:induction false} AffirmsAppend(q: seq<Event>, e: Event, x: u16)
    ensures AffirmsIn(q + [e], x) == AffirmsIn(q, x) + AffirmOf(e, x)
  {
    if q != [] {
      AffirmsAppend(q[1..], e, x);
      assert (q + [e])[1..] == q[1..] + [e];
    } else {
      assert AffirmsIn([e][1..], x) == [];
    }
  }

  lemma {:induction false} MessagesAppend(q: seq<Event>, e: Event)
    ensures MessagesIn(q + [e]) == MessagesIn(q) + MessageOf(e)
  {
    if q != [] {
      MessagesAppend(q[1..], e);
      assert (q + [e])[1..] == q[1..] + [e];
    } else {
      assert MessagesIn([e][1..]) == [];
    }
  }

  // ----- The invariant -----

  /** The four stages an id can be in as seen in the queue; Frees alone means its message has been delivered. */
  ghost predicate IdOk(s: System, x: u16) {
    var a := AffirmsIn(s.queue, x);
    && (x in s.hub.rxPublish ==> x in s.hub.rxPublishId)
    && (|| a == []
        || (a == [Publishes] && x in s.hub.rxPublish)
        || (a == [Publishes, Frees] && x in s.hub.rxPublish)
        || (a == [Frees] && x in s.hub.rxPublishId && x !in s.hub.rxPublish))
  }

  ghost predicate Holds(s: System, x: u16, uid: nat) {
    x in s.hub.rxPublish && s.hub.rxPublish[x] == uid
  }

  /** Delivered, or next in line: the hub holds the message and its AffirmRxPublish is queued. */
  ghost predicate Secured(s: System, x: u16, uid: nat) {
    || (Holds(s, x, uid) && AffirmsIn(s.queue, x) != [])
    || uid in s.delivered
  }

  predicate BeforeAffirm(t: Task)
    requires t.Receive?
  {
    t.receivePc.First? || t.receivePc.AwaitRel? || t.receivePc.Affirm?
  }

  ghost predicate TaskOk(s: System, t: Task)
    requires t.Receive?
  {
    && t.id in s.hub.rxPublishId
    && (BeforeAffirm(t) ==> AffirmsIn(s.queue, t.id) == [] && Holds(s, t.id, t.uid))
    && (!BeforeAffirm(t) ==>
          || (AffirmsIn(s.queue, t.id) == [Publishes] && Holds(s, t.id, t.uid))
          || (AffirmsIn(s.queue, t.id) == [] && t.id !in s.hub.rxPublish && t.uid in s.delivered))
  }

  /** The packets a task has written by the time it is where it is. */
  ghost predicate Answered(s: System, t: Task)
    requires t.Receive?
  {
    && (t.qos2 && !t.receivePc.First? ==> WrotePubRec(t.uid) in s.written)
    && (t.qos2 && t.receivePc.Free? ==> WrotePubComp(t.uid) in s.written)
    && (!t.qos2 && !t.receivePc.First? ==> WrotePubAck(t.uid) in s.written)
    && (!t.qos2 ==> !t.receivePc.AwaitRel? && !t.receivePc.Complete?)
  }

  ghost predicate TasksOk(s: System) {
    && (forall t :: t in s.tasks && s.tasks[t].Receive? ==> TaskOk(s, s.tasks[t]) && Answered(s, s.tasks[t]))
    && (forall t, t' :: t in s.tasks && t' in s.tasks && t != t' && s.tasks[t].Receive? && s.tasks[t'].Receive?
          ==> s.tasks[t].id != s.tasks[t'].id)
  }

  ghost predicate Rising(ms: seq<nat>, bound: nat) {
    && (forall i, j :: 0 <= i < j < |ms| ==> ms[i] < ms[j])
    && (forall m :: m in ms ==> m < bound)
  }

  ghost predicate NoRepeats(ms: seq<nat>) {
    forall i, j :: 0 <= i < j < |ms| ==> ms[i] != ms[j]
  }

  /** A message is in one place: waiting to be accepted, held by the hub, or delivered. */
  ghost predicate MessagesOk(s: System) {
    var waiting := MessagesIn(s.queue);
    && Rising(waiting, s.arrivals)
    && (forall x :: x in s.hub.rxPublish ==>
          var m := s.hub.rxPublish[x]; m < s.arrivals && m !in s.delivered && m !in waiting)
    && (forall x, y :: x in s.hub.rxPublish && y in s.hub.rxPublish && x != y ==>
          s.hub.rxPublish[x] != s.hub.rxPublish[y])
    && NoRepeats(s.delivered)
    && (forall m :: m in s.delivered ==> m < s.arrivals && m !in waiting)
  }

  ghost predicate CompletedOk(s: System) {
    forall m :: WrotePubComp(m) in s.written ==> exists x :: Secured(s, x, m)
  }

  ghost predicate ReceiveInv(s: System) {
    && (forall x :: IdOk(s, x))
    && TasksOk(s)
    && MessagesOk(s)
    && CompletedOk(s)
  }

  // ----- Steps that do not concern the receiving side -----

  predicate Concerns(e: Event) {
    e.FromTask? && (e.msg.AffirmRxPublish? || e.msg.AffirmRxId? || e.msg.RxPublish?)
  }

  ghost predicate SameReceives(s: System, s': System) {
    && (forall t :: t in s.tasks && s.tasks[t].Receive? ==> t in s'.tasks && s'.tasks[t] == s.tasks[t])
    && (forall t :: t in s'.tasks && s'.tasks[t].Receive? ==> t in s.tasks && s'.tasks[t] == s.tasks[t])
  }

  ghost predicate SameRest(s: System, s': System) {
    && s'.hub.rxPublish == s.hub.rxPublish && s'.hub.rxPublishId == s.hub.rxPublishId
    && s'.delivered == s.delivered && s'.arrivals == s.arrivals
    && (forall w :: w in s.written ==> w in s'.written)
    && (forall m :: WrotePubComp(m) in s'.written ==> WrotePubComp(m) in s.written)
  }

  ghost predicate SameQueue(s: System, s': System) {
    (forall x :: AffirmsIn(s'.queue, x) == AffirmsIn(s.queue, x)) && MessagesIn(s'.queue) == MessagesIn(s.queue)
  }

  lemma Undisturbed(s: System, s': System)
    requires ReceiveInv(s) && SameRest(s, s') && SameQueue(s, s') && SameReceives(s, s')
    ensures ReceiveInv(s')
  {
    hide AffirmsIn, MessagesIn, Rising, NoRepeats;
    forall x ensures IdOk(s', x) {
      assert IdOk(s, x);
    }
    forall m | WrotePubComp(m) in s'.written ensures exists x :: Secured(s', x, m) {
      var x :| Secured(s, x, m);
      assert Secured(s', x, m);
    }
  }

  lemma QueueAppended(s: System, s': System)
    requires s'.queue == s.queue || (s'.queue != [] && s'.queue[..|s'.queue| - 1] == s.queue
                                     && !Concerns(s'.queue[|s'.queue| - 1]))
    ensures SameQueue(s, s')
  {
    hide AffirmsIn, MessagesIn;
    if s'.queue != s.queue {
      var e := s'.queue[|s'.queue| - 1];
      assert s'.queue == s.queue + [e];
      MessagesAppend(s.queue, e);
      forall x ensures AffirmsIn(s'.queue, x) == AffirmsIn(s.queue, x) {
        AffirmsAppend(s.queue, e, x);
      }
    }
  }

  lemma QueuePopped(s: System, s': System)
    requires s.queue != [] && s'.queue == s.queue[1..] && !Concerns(s.queue[0])
    ensures SameQueue(s, s')
  {
    forall x ensures AffirmsIn(s'.queue, x) == AffirmsIn(s.queue, x) {
      assert AffirmOf(s.queue[0], x) == [];
    }
  }

  predicate Elsewhere(s: System, a: Action) {
    if Taking(s, a) then !Concerns(s.queue[0])
    else if Moves(s, a) then !s.tasks[a.task].Receive?
    else !a.BrokerPublishes?
  }

  lemma StepElsewhere(s: System, a: Action)
    requires Fresh(s) && ReceiveInv(s) && Elsewhere(s, a)
    ensures ReceiveInv(Next(s, a))
  {
    hide Next, ReceiveInv, SameRest, SameReceives, SameQueue, Fresh;
    ElsewhereQueue(s, a);
    ElsewhereTasks(s, a);
    ElsewhereRest(s, a);
    Undisturbed(s, Next(s, a));
  }

  lemma ElsewhereQueue(s: System, a: Action)
    requires Elsewhere(s, a)
    ensures SameQueue(s, Next(s, a))
  {
    NextQueue(s, a);
    if Taking(s, a) {
      hide Next, AffirmsIn, MessagesIn;
      QueuePopped(s, Next(s, a));
    } else {
      ElsewhereAppends(s, a);
      hide Next, AffirmsIn, MessagesIn, Appended, Concerns;
      if Appended(s, a) == [] {
        assert s.queue + [] == s.queue;
      } else {
        var e := Appended(s, a)[0];
        assert Appended(s, a) == [e];
        assert (s.queue + [e])[..|s.queue|] == s.queue;
      }
      QueueAppended(s, Next(s, a));
    }
  }

  lemma ElsewhereAppends(s: System, a: Action)
    requires Elsewhere(s, a) && !Taking(s, a)
    ensures |Appended(s, a)| <= 1 && forall e :: e in Appended(s, a) ==> !Concerns(e)
  {
  }

  lemma ElsewhereTasks(s: System, a: Action)
    requires Fresh(s) && Elsewhere(s, a)
    ensures SameReceives(s, Next(s, a))
  {
    hide Next;
    NextTasks(s, a);
    if Moves(s, a) {
      if Moved(s, a).Some? {
        MovesKeepSort(s, a);
      }
    } else {
      ElsewhereStarts(s, a);
    }
    hide Started, Moved, Spawn;
  }

  lemma MovesKeepSort(s: System, a: Action)
    requires Moves(s, a) && Moved(s, a).Some?
    ensures Moved(s, a).value.Receive? == s.tasks[a.task].Receive?
  {
  }

  lemma ElsewhereStarts(s: System, a: Action)
    requires Elsewhere(s, a)
    ensures forall i :: 0 <= i < |Started(s, a)| ==> !Started(s, a)[i].Receive?
  {
    hide ClientDataStep, RecoverStep, ConnectStep;
  }

  lemma ElsewhereRest(s: System, a: Action)
    requires Elsewhere(s, a)
    ensures SameRest(s, Next(s, a))
  {
    NextHub(s, a);
    NextWritten(s, a);
    NextDelivered(s, a);
    hide Next, RecoverStep, ClientDataStep, CommandStep, NetworkStep, DisconnectStep, CommandWhileConnectingStep;
    if Taking(s, a) {
      ElsewhereMessage(s);
    } else {
      ElsewhereHub(s, a);
    }
    hide HubNext;
  }

  lemma ElsewhereMessage(s: System)
    requires Taking(s, HubTakes) && !Concerns(s.queue[0])
    ensures HubNext(s, HubTakes).rxPublish == s.hub.rxPublish && HubNext(s, HubTakes).rxPublishId == s.hub.rxPublishId
    ensures DeliveredBy(s, HubTakes) == []
  {
    hide HubMsgStep, ClientDataStep;
    if s.queue[0].FromTask? {
      MessageKeeps(s.hub, s.queue[0].msg);
    } else {
      RequestKeeps<nat, nat>(s.hub, ClientData(s.queue[0].request, |s.log|));
    }
  }

  lemma ElsewhereHub(s: System, a: Action)
    requires !Taking(s, a)
    ensures HubNext(s, a).rxPublish == s.hub.rxPublish && HubNext(s, a).rxPublishId == s.hub.rxPublishId
    ensures DeliveredBy(s, a) == []
  {
  }

  // ----- A message arrives and is taken -----

  lemma StepArrives(s: System, qos: QoSWithPacketId)
    requires ReceiveInv(s)
    ensures ReceiveInv(Next(s, BrokerPublishes(qos)))
  {
    hide AffirmsIn, MessagesIn, NoRepeats;
    var s' := Next(s, BrokerPublishes(qos));
    var e := FromTask(RxPublish(qos, s.arrivals), NoTag);
    MessagesAppend(s.queue, e);
    RisingAppend(MessagesIn(s.queue), s.arrivals);
    hide Rising;
    assert MessagesOk(s');
    forall x ensures AffirmsIn(s'.queue, x) == AffirmsIn(s.queue, x) && IdOk(s', x) {
      AffirmsAppend(s.queue, e, x);
      assert IdOk(s, x);
    }
    forall m | WrotePubComp(m) in s'.written ensures exists x :: Secured(s', x, m) {
      var x :| Secured(s, x, m);
      assert Secured(s', x, m);
    }
  }

  /** Of the front of the queue. */
  lemma QueueFront(q: seq<Event>)
    requires q != []
    ensures forall x :: AffirmsIn(q, x) == AffirmOf(q[0], x) + AffirmsIn(q[1..], x)
    ensures MessagesIn(q) == MessageOf(q[0]) + MessagesIn(q[1..])
  {
  }

  lemma StepAccepts(s: System)
    requires Fresh(s) && ReceiveInv(s) && Taking(s, HubTakes) && s.queue[0].FromTask? && s.queue[0].msg.RxPublish?
    ensures ReceiveInv(Next(s, HubTakes))
  {
    var s' := Next(s, HubTakes);
    TakesMessage(s);
    QueueFront(s.queue);
    hide Next, AffirmsIn, MessagesIn, NoRepeats, Rising, ReceiveStep, StartedBy;
    assert HubMsgStep(s.hub, s.queue[0].msg) == ReceiveStep(s.hub, s.queue[0].msg.qos, s.queue[0].msg.message);
    forall x ensures AffirmsIn(s'.queue, x) == AffirmsIn(s.queue, x) {
      assert AffirmOf(s.queue[0], x) == [];
    }
    AcceptsMessages(s, s');
    hide MessagesOk;
    AcceptsIds(s, s');
    AcceptsTasks(s, s');
    hide TasksOk, IdOk, AffirmsIn;
    forall w | WrotePubComp(w) in s'.written ensures exists x :: Secured(s', x, w) {
      var x :| Secured(s, x, w);
      AcceptsSecured(s, s', x, w);
    }
  }

  ghost predicate Accepts(s: System, s': System) {
    && s.queue != [] && s.queue[0].FromTask? && s.queue[0].msg.RxPublish?
    && s'.hub == ReceiveStep(s.hub, s.queue[0].msg.qos, s.queue[0].msg.message).0
    && s'.delivered == s.delivered + ReceiveStep(s.hub, s.queue[0].msg.qos, s.queue[0].msg.message).1.delivered
    && (forall x :: AffirmsIn(s'.queue, x) == AffirmsIn(s.queue, x))
    && s'.tasks == Spawn(s.tasks, s.nextTask, StartedBy(s, s.queue[0])) && s'.written == s.written
  }

  lemma AcceptsIds(s: System, s': System)
    requires ReceiveInv(s) && Accepts(s, s')
    ensures forall x :: IdOk(s', x)
  {
    hide AffirmsIn, MessagesIn, MessagesOk, TasksOk, CompletedOk;
    forall x ensures IdOk(s', x) {
      assert IdOk(s, x);
    }
  }

  lemma AcceptsTasks(s: System, s': System)
    requires Fresh(s) && ReceiveInv(s) && Accepts(s, s')
    ensures TasksOk(s')
  {
    hide AffirmsIn, MessagesIn, MessagesOk, CompletedOk, Spawn;
    var qos := s.queue[0].msg.qos;
    if !qos.AtMostOnce? {
      assert IdOk(s, qos.id);
    }
    assert |StartedBy(s, s.queue[0])| <= 1;
    forall t | t in s'.tasks && s'.tasks[t].Receive? ensures TaskOk(s', s'.tasks[t]) && Answered(s', s'.tasks[t]) {
      if t in s.tasks {
        AcceptsTask(s, s', s.tasks[t]);
      }
    }
  }

  lemma AcceptsTask(s: System, s': System, t: Task)
    requires Accepts(s, s') && t.Receive? && TaskOk(s, t) && Answered(s, t) && IdOk(s, t.id)
    ensures TaskOk(s', t) && Answered(s', t)
  {
    hide AffirmsIn, StartedBy, Spawn;
  }

  lemma AcceptsSecured(s: System, s': System, x: u16, m: nat)
    requires ReceiveInv(s) && Accepts(s, s') && Secured(s, x, m)
    ensures Secured(s', x, m)
  {
    assert IdOk(s, x);
    hide AffirmsIn, MessagesIn, MessagesOk, CompletedOk, TasksOk;
  }

  lemma AcceptsMessages(s: System, s': System)
    requires MessagesOk(s) && Taking(s, HubTakes) && s.queue[0].FromTask? && s.queue[0].msg.RxPublish?
    requires MessagesIn(s.queue) == MessageOf(s.queue[0]) + MessagesIn(s'.queue)
    requires s'.delivered == s.delivered + ReceiveStep(s.hub, s.queue[0].msg.qos, s.queue[0].msg.message).1.delivered
    requires s'.hub == ReceiveStep(s.hub, s.queue[0].msg.qos, s.queue[0].msg.message).0 && s'.arrivals == s.arrivals
    ensures MessagesOk(s')
  {
    hide MessagesIn, Rising, NoRepeats;
    var m, waiting' := s.queue[0].msg.message, MessagesIn(s'.queue);
    RisingTail(m, waiting', s.arrivals);
    if s'.delivered != s.delivered {
      NoRepeatsAppend(s.delivered, m);
    }
  }

  lemma RisingTail(m: nat, ms: seq<nat>, bound: nat)
    requires Rising([m] + ms, bound)
    ensures Rising(ms, bound) && m !in ms && m < bound && m in [m] + ms
    ensures forall k :: k in ms ==> k in [m] + ms
  {
    var all := [m] + ms;
    assert all[0] == m && m in all;
    assert all[1..] == ms;
    forall k | k in ms ensures k in all && m < k {
      var i :| 0 <= i < |ms| && ms[i] == k;
      assert all[i + 1] == k;
    }
    forall i, j | 0 <= i < j < |ms| ensures ms[i] < ms[j] {
      assert all[i + 1] == ms[i] && all[j + 1] == ms[j];
    }
  }

  lemma RisingAppend(ms: seq<nat>, bound: nat)
    requires Rising(ms, bound)
    ensures Rising(ms + [bound], bound + 1)
  {
    assert forall i :: 0 <= i < |ms| ==> ms[i] in ms;
  }

  lemma NoRepeatsAppend(ms: seq<nat>, m: nat)
    requires NoRepeats(ms) && m !in ms
    ensures NoRepeats(ms + [m])
  {
  }

  // ----- The hub takes an affirmation -----

  /** What is left in the queue for one id once its first affirmation has been taken. */
  lemma AffirmTaken(q: seq<Event>, x: u16, a: Affirmation)
    requires q != [] && AffirmOf(q[0], x) == [a]
    ensures AffirmsIn(q, x) == [a] + AffirmsIn(q[1..], x) && AffirmsIn(q, x)[1..] == AffirmsIn(q[1..], x)
    ensures forall y :: y != x ==> AffirmsIn(q[1..], y) == AffirmsIn(q, y)
    ensures MessagesIn(q[1..]) == MessagesIn(q)
  {
    assert forall y :: y != x ==> AffirmOf(q[0], y) == [];
  }

  /** Taking an AffirmRxPublish delivers the message the hub holds for the id. */
  ghost predicate Delivers(s: System, s': System, x: u16) {
    && AffirmsIn(s.queue, x) == [Publishes] + AffirmsIn(s'.queue, x) && MessagesIn(s'.queue) == MessagesIn(s.queue)
    && (forall y :: y != x ==> AffirmsIn(s'.queue, y) == AffirmsIn(s.queue, y))
    && x in s.hub.rxPublish
    && s'.hub.rxPublish == s.hub.rxPublish - {x} && s'.hub.rxPublishId == s.hub.rxPublishId
    && s'.delivered == s.delivered + [s.hub.rxPublish[x]]
    && s'.tasks == s.tasks && s'.written == s.written && s'.arrivals == s.arrivals
  }

  lemma DeliversKeeps(s: System, s': System, x: u16)
    requires ReceiveInv(s) && Delivers(s, s', x)
    ensures ReceiveInv(s')
  {
    hide AffirmsIn, MessagesIn, NoRepeats, Rising;
    var m := s.hub.rxPublish[x];
    assert AffirmsIn(s.queue, x)[0] == Publishes;
    assert AffirmsIn(s.queue, x)[1..] == AffirmsIn(s'.queue, x);
    NoRepeatsAppend(s.delivered, m);
    assert MessagesOk(s');
    hide MessagesOk;
    forall y ensures IdOk(s', y) {
      assert IdOk(s, x) && IdOk(s, y);
    }
    forall t | t in s'.tasks && s'.tasks[t].Receive? ensures TaskOk(s', s'.tasks[t]) {
      assert TaskOk(s, s.tasks[t]) && IdOk(s, x);
    }
    forall w | WrotePubComp(w) in s'.written ensures exists y :: Secured(s', y, w) {
      var y :| Secured(s, y, w);
      assert Secured(s', y, w);
    }
  }

  lemma StepDelivers(s: System)
    requires ReceiveInv(s) && Taking(s, HubTakes) && s.queue[0].FromTask? && s.queue[0].msg.AffirmRxPublish?
    ensures Delivers(s, Next(s, HubTakes), s.queue[0].msg.id)
  {
    var x := s.queue[0].msg.id;
    AffirmTaken(s.queue, x, Publishes);
    TakesMessage(s);
    AboutToDeliver(s, x);
    hide Next, AffirmsIn, MessagesIn, ReceiveInv;
  }

  lemma AboutToDeliver(s: System, x: u16)
    requires ReceiveInv(s) && AffirmsIn(s.queue, x) != [] && AffirmsIn(s.queue, x)[0] == Publishes
    ensures x in s.hub.rxPublish
  {
    hide AffirmsIn, MessagesOk, TasksOk, CompletedOk;
    assert IdOk(s, x);
  }

  /** What taking a message of the receiving side leaves alone. */
  lemma TakesMessage(s: System)
    requires Taking(s, HubTakes) && s.queue[0].FromTask?
    ensures var s', (h, e) := Next(s, HubTakes), HubMsgStep(s.hub, s.queue[0].msg);
            && s'.hub == h && s'.queue == s.queue[1..] && s'.delivered == s.delivered + e.delivered
            && s'.written == s.written && s'.arrivals == s.arrivals
            && (s.queue[0].msg.AffirmRxPublish? || s.queue[0].msg.AffirmRxId? ==> s'.tasks == s.tasks)
            && (s.queue[0].msg.RxPublish? ==> s'.tasks == Spawn(s.tasks, s.nextTask, StartedBy(s, s.queue[0])))
  {
    NextHub(s, HubTakes);
    NextQueue(s, HubTakes);
    NextTasks(s, HubTakes);
    NextDelivered(s, HubTakes);
    NextWritten(s, HubTakes);
    hide Next, HubMsgStep;
    assert s.written + [] == s.written;
  }

  /** Taking an AffirmRxId releases the id. */
  ghost predicate Releases(s: System, s': System, x: u16) {
    && AffirmsIn(s.queue, x) == [Frees] + AffirmsIn(s'.queue, x) && MessagesIn(s'.queue) == MessagesIn(s.queue)
    && (forall y :: y != x ==> AffirmsIn(s'.queue, y) == AffirmsIn(s.queue, y))
    && s'.hub.rxPublish == s.hub.rxPublish && s'.hub.rxPublishId == s.hub.rxPublishId - {x}
    && s'.delivered == s.delivered && s'.tasks == s.tasks && s'.written == s.written && s'.arrivals == s.arrivals
  }

  lemma ReleasesKeeps(s: System, s': System, x: u16)
    requires ReceiveInv(s) && Releases(s, s', x)
    ensures ReceiveInv(s') && AffirmsIn(s.queue, x) == [Frees] && x in s.hub.rxPublishId && x !in s.hub.rxPublish
  {
    hide AffirmsIn, MessagesIn, NoRepeats, Rising;
    assert AffirmsIn(s.queue, x)[0] == Frees;
    assert AffirmsIn(s.queue, x)[1..] == AffirmsIn(s'.queue, x);
    assert IdOk(s, x);
    assert MessagesOk(s');
    hide MessagesOk;
    forall y ensures IdOk(s', y) {
      assert IdOk(s, y);
    }
    forall t | t in s'.tasks && s'.tasks[t].Receive? ensures TaskOk(s', s'.tasks[t]) {
      assert TaskOk(s, s.tasks[t]);
    }
    forall w | WrotePubComp(w) in s'.written ensures exists y :: Secured(s', y, w) {
      var y :| Secured(s, y, w);
      assert Secured(s', y, w);
    }
  }

  lemma StepReleases(s: System)
    requires ReceiveInv(s) && Taking(s, HubTakes) && s.queue[0].FromTask? && s.queue[0].msg.AffirmRxId?
    ensures Releases(s, Next(s, HubTakes), s.queue[0].msg.id)
  {
    var x := s.queue[0].msg.id;
    AffirmTaken(s.queue, x, Frees);
    TakesMessage(s);
    hide Next, AffirmsIn, MessagesIn, MessagesOk, TasksOk;
    assert s.delivered + [] == s.delivered;
  }

  // ----- A receive task takes its turn -----

  predicate ReceiverMoves(s: System, a: Action) {
    Moves(s, a) && s.tasks[a.task].Receive?
  }

  /** Its id and message stay; what it sends to the hub moves it past or out of the stages before the affirmation. */
  lemma ReceiverTurn(s: System, a: Action)
    requires ReceiverMoves(s, a)
    ensures var t := s.tasks[a.task];
            var after := Moved(s, a);
            && (after.Some? ==> after.value.Receive? && after.value.id == t.id && after.value.uid == t.uid
                                && after.value.qos2 == t.qos2)
            && (Appended(s, a) == [] && after.Some? ==> BeforeAffirm(after.value) == BeforeAffirm(t))
            && (Appended(s, a) == [FromTask(AffirmRxPublish(t.id), NoTag)] ==>
                  BeforeAffirm(t) && after.Some? && !BeforeAffirm(after.value))
            && (Appended(s, a) == [FromTask(AffirmRxId(t.id), NoTag)] ==> !BeforeAffirm(t) && after.None?)
            && (|| Appended(s, a) == []
                || Appended(s, a) == [FromTask(AffirmRxPublish(t.id), NoTag)]
                || Appended(s, a) == [FromTask(AffirmRxId(t.id), NoTag)])
            && (forall m :: WrotePubComp(m) in WrittenBy(s, a) ==> m == t.uid && !BeforeAffirm(t))
  {
  }

  lemma ReceiverAnswers(s: System, a: Action)
    requires ReceiverMoves(s, a) && Answered(s, s.tasks[a.task]) && Moved(s, a).Some? && Moved(s, a).value.Receive?
    ensures Answered(s.(written := s.written + WrittenBy(s, a)), Moved(s, a).value)
  {
  }

  ghost predicate TurnOf(s: System, s': System, a: Action)
    requires ReceiverMoves(s, a)
  {
    && s'.hub.rxPublish == s.hub.rxPublish && s'.hub.rxPublishId == s.hub.rxPublishId
    && s'.delivered == s.delivered && s'.arrivals == s.arrivals && s'.written == s.written + WrittenBy(s, a)
    && s'.queue == s.queue + Appended(s, a)
    && s'.tasks == match Moved(s, a) case Some(t) => s.tasks[a.task := t] case None => s.tasks - {a.task}
  }

  lemma ReceiverQueue(s: System, a: Action)
    requires ReceiverMoves(s, a)
    ensures var q := s.queue + Appended(s, a);
            && MessagesIn(q) == MessagesIn(s.queue)
            && (forall x :: x != s.tasks[a.task].id ==> AffirmsIn(q, x) == AffirmsIn(s.queue, x))
            && var x := s.tasks[a.task].id;
               AffirmsIn(q, x) == AffirmsIn(s.queue, x)
                                  + (if Appended(s, a) == [] then [] else AffirmOf(Appended(s, a)[0], x))
  {
    ReceiverTurn(s, a);
    hide AffirmsIn, MessagesIn;
    if Appended(s, a) == [] {
      assert s.queue + [] == s.queue;
    } else {
      var e := Appended(s, a)[0];
      MessagesAppend(s.queue, e);
      forall x ensures AffirmsIn(s.queue + [e], x) == AffirmsIn(s.queue, x) + AffirmOf(e, x) {
        AffirmsAppend(s.queue, e, x);
      }
      assert Appended(s, a) == [e];
    }
  }

  lemma TurnKeepsIds(s: System, s': System, a: Action)
    requires ReceiveInv(s) && ReceiverMoves(s, a) && TurnOf(s, s', a)
    ensures (forall x :: IdOk(s', x)) && MessagesOk(s')
  {
    hide AffirmsIn, MessagesIn, NoRepeats, Rising, Appended, Moved, WrittenBy, TaskOk, IdOk, Answered;
    ReceiverQueue(s, a);
    forall x ensures IdOk(s', x) {
      assert IdOk(s, x) && TaskOk(s, s.tasks[a.task]);
      TurnKeepsId(s, s', a, x);
    }
  }

  lemma TurnKeepsId(s: System, s': System, a: Action, x: u16)
    requires ReceiverMoves(s, a) && TaskOk(s, s.tasks[a.task]) && TurnOf(s, s', a) && IdOk(s, x)
    ensures IdOk(s', x)
  {
    ReceiverTurn(s, a);
    ReceiverQueue(s, a);
    hide AffirmsIn, MessagesIn, Appended, Moved, WrittenBy;
  }

  lemma TurnKeepsTasks(s: System, s': System, a: Action)
    requires ReceiveInv(s) && ReceiverMoves(s, a) && TurnOf(s, s', a)
    ensures TasksOk(s')
  {
    hide AffirmsIn, MessagesIn, MessagesOk, CompletedOk, Appended, Moved, WrittenBy, TaskOk, Answered;
    ReceiverTurn(s, a);
    forall k | k in s'.tasks && s'.tasks[k].Receive? ensures TaskOk(s', s'.tasks[k]) && Answered(s', s'.tasks[k]) {
      if k == a.task {
        TurnKeepsOwn(s, s', a);
      } else {
        TurnKeepsOther(s, s', a, k);
      }
    }
  }

  lemma TurnKeepsOwn(s: System, s': System, a: Action)
    requires ReceiverMoves(s, a) && TaskOk(s, s.tasks[a.task]) && Answered(s, s.tasks[a.task])
    requires TurnOf(s, s', a) && Moved(s, a).Some?
    ensures Moved(s, a).value.Receive? && TaskOk(s', Moved(s, a).value) && Answered(s', Moved(s, a).value)
  {
    ReceiverTurn(s, a);
    ReceiverQueue(s, a);
    ReceiverAnswers(s, a);
    hide AffirmsIn, MessagesIn, Appended, Moved, WrittenBy;
  }

  lemma TurnKeepsOther(s: System, s': System, a: Action, k: nat)
    requires ReceiverMoves(s, a) && TurnOf(s, s', a) && k in s.tasks && k != a.task && s.tasks[k].Receive?
    requires TaskOk(s, s.tasks[k]) && Answered(s, s.tasks[k]) && s.tasks[k].id != s.tasks[a.task].id
    ensures TaskOk(s', s.tasks[k]) && Answered(s', s.tasks[k])
  {
    ReceiverQueue(s, a);
    hide AffirmsIn, MessagesIn, Appended, Moved, WrittenBy;
  }

  lemma TurnKeepsCompleted(s: System, s': System, a: Action)
    requires ReceiveInv(s) && ReceiverMoves(s, a) && TurnOf(s, s', a)
    ensures CompletedOk(s')
  {
    ReceiverTurn(s, a);
    ReceiverQueue(s, a);
    var t := s.tasks[a.task];
    assert TaskOk(s, t);
    hide AffirmsIn, MessagesIn, MessagesOk, TasksOk, IdOk, Appended, Moved, WrittenBy;
    forall m | WrotePubComp(m) in s'.written ensures exists x :: Secured(s', x, m) {
      if WrotePubComp(m) in s.written {
        var x :| Secured(s, x, m);
        assert Secured(s', x, m);
      } else {
        assert Secured(s', t.id, m);
      }
    }
  }

  lemma StepReceiver(s: System, a: Action)
    requires ReceiveInv(s) && ReceiverMoves(s, a)
    ensures ReceiveInv(Next(s, a))
  {
    NextHub(s, a);
    NextQueue(s, a);
    NextTasks(s, a);
    NextDelivered(s, a);
    NextWritten(s, a);
    hide Next, ReceiveInv;
    assert s.delivered + [] == s.delivered;
    TurnKeepsIds(s, Next(s, a), a);
    TurnKeepsTasks(s, Next(s, a), a);
    TurnKeepsCompleted(s, Next(s, a), a);
    ReceiveParts(Next(s, a));
  }

  lemma ReceiveParts(s: System)
    requires (forall x :: IdOk(s, x)) && TasksOk(s) && MessagesOk(s) && CompletedOk(s)
    ensures ReceiveInv(s)
  {
  }

  // ----- Every run -----

  lemma StepReceive(s: System, a: Action)
    requires Fresh(s) && ReceiveInv(s)
    ensures ReceiveInv(Next(s, a))
  {
    hide Next, ReceiveInv, Fresh, Appended, Moved, Delivers, Releases;
    if Elsewhere(s, a) {
      StepElsewhere(s, a);
    } else if Taking(s, a) {
      if s.queue[0].msg.RxPublish? {
        StepAccepts(s);
      } else if s.queue[0].msg.AffirmRxPublish? {
        StepDelivers(s);
        DeliversKeeps(s, Next(s, a), s.queue[0].msg.id);
      } else {
        StepReleases(s);
        ReleasesKeeps(s, Next(s, a), s.queue[0].msg.id);
      }
    } else if Moves(s, a) {
      StepReceiver(s, a);
    } else {
      StepArrives(s, a.qos);
    }
  }

  lemma {:induction false} ReceiveInEveryRun(autoReconnect: bool, actions: seq<Action>)
    ensures ReceiveInv(Run(autoReconnect, actions))
    decreases |actions|
  {
    if actions == [] {
    } else {
      hide Next, ReceiveInv, Fresh;
      ReceiveInEveryRun(autoReconnect, actions[..|actions| - 1]);
      FreshInEveryRun(autoReconnect, actions[..|actions| - 1]);
      StepReceive(Run(autoReconnect, actions[..|actions| - 1]), actions[|actions| - 1]);
    }
  }

  /** At most once, in every reachable state: read off the invariant. */
  lemma AtMostOnce(autoReconnect: bool, actions: seq<Action>)
    ensures var s := Run(autoReconnect, actions);
            && NoRepeats(s.delivered)
            && s.hub.rxPublish.Keys <= s.hub.rxPublishId.Keys
            && (forall x :: x in s.hub.rxPublish ==> s.hub.rxPublish[x] !in s.delivered)
            && (forall t, t' :: t in s.tasks && t' in s.tasks && t != t' && s.tasks[t].Receive? && s.tasks[t'].Receive?
                  ==> s.tasks[t].id != s.tasks[t'].id)
            && (forall x :: |AffirmsIn(s.queue, x)| <= 2 && NoTwice(AffirmsIn(s.queue, x)))
  {
    var s := Run(autoReconnect, actions);
    ReceiveInEveryRun(autoReconnect, actions);
    hide Run, AffirmsIn, NoRepeats, Rising;
    forall x ensures |AffirmsIn(s.queue, x)| <= 2 && NoTwice(AffirmsIn(s.queue, x)) {
      assert IdOk(s, x);
    }
    forall x | x in s.hub.rxPublish.Keys ensures x in s.hub.rxPublishId.Keys {
      assert IdOk(s, x);
    }
  }

  /** Publishes before Frees, each at most once. */
  predicate NoTwice(a: seq<Affirmation>) {
    a == [] || a == [Publishes] || a == [Frees] || a == [Publishes, Frees]
  }

  /** A repeat of an id still held changes nothing: no delivery, no task, no answer. */
  lemma RepeatIgnored(s: System)
    requires Taking(s, HubTakes) && s.queue[0].FromTask? && s.queue[0].msg.RxPublish?
    requires !s.queue[0].msg.qos.AtMostOnce? && s.queue[0].msg.qos.id in s.hub.rxPublishId
    ensures Next(s, HubTakes) == s.(queue := s.queue[1..])
  {
    assert s.delivered + [] == s.delivered && s.sleeping + [] == s.sleeping;
    assert SendTasks([], |s.acks|) + [] == [];
  }

  /** No QoS 2 message is completed but lost: it is delivered, or its AffirmRxPublish is queued first for its id. */
  lemma CompletedIsNotLost(autoReconnect: bool, actions: seq<Action>, m: nat)
    requires WrotePubComp(m) in Run(autoReconnect, actions).written
    ensures var s := Run(autoReconnect, actions);
            m in s.delivered
            || exists x :: Holds(s, x, m) && AffirmsIn(s.queue, x) != [] && AffirmsIn(s.queue, x)[0] == Publishes
  {
    ReceiveInEveryRun(autoReconnect, actions);
    var s := Run(autoReconnect, actions);
    hide Run, AffirmsIn, MessagesOk, TasksOk;
    var x :| Secured(s, x, m);
    assert IdOk(s, x);
    if m !in s.delivered {
      assert Holds(s, x, m) && AffirmsIn(s.queue, x) != [] && AffirmsIn(s.queue, x)[0] == Publishes;
    }
  }

  /** When the hub is about to release an id, it holds no message for it, and no task or event concerns it but this one. */
  lemma AboutToRelease(s: System, x: u16)
    requires ReceiveInv(s) && s.queue != [] && s.queue[0].FromTask? && s.queue[0].msg == AffirmRxId(x)
    ensures AffirmsIn(s.queue, x) == [Frees] && AffirmsIn(s.queue[1..], x) == []
    ensures x in s.hub.rxPublishId && x !in s.hub.rxPublish
    ensures forall t :: t in s.tasks && s.tasks[t].Receive? ==> s.tasks[t].id != x
  {
    AffirmTaken(s.queue, x, Frees);
    hide AffirmsIn, MessagesOk;
    assert IdOk(s, x);
    assert AffirmsIn(s.queue, x)[0] == Frees && AffirmsIn(s.queue, x)[1..] == AffirmsIn(s.queue[1..], x);
    forall t | t in s.tasks && s.tasks[t].Receive? ensures s.tasks[t].id != x {
      assert TaskOk(s, s.tasks[t]);
    }
  }

  // ----- From acceptance to release -----

  ghost predicate NoTask(s: System, x: u16) {
    forall t :: t in s.tasks && s.tasks[t].Receive? ==> s.tasks[t].id != x
  }

  /** What one step can do to an id that is held but has no task any more. */
  ghost predicate IdleStep(s: System, s': System, x: u16) {
    var b, b' := AffirmsIn(s.queue, x), AffirmsIn(s'.queue, x);
    || (b' == b && x in s'.hub.rxPublishId && NoTask(s', x) && (forall m :: Holds(s', x, m) <==> Holds(s, x, m)))
    || (b == [Publishes] + b' && x in s'.hub.rxPublishId && NoTask(s', x) && x in s.hub.rxPublish
        && x !in s'.hub.rxPublish && s.hub.rxPublish[x] in s'.delivered)
    || (b == [Frees] + b' && x !in s.hub.rxPublish)
  }

  lemma AcceptsIdle(s: System, x: u16)
    requires Taking(s, HubTakes) && s.queue[0].FromTask? && s.queue[0].msg.RxPublish?
    requires x in s.hub.rxPublishId && NoTask(s, x)
    ensures IdleStep(s, Next(s, HubTakes), x)
  {
    TakesMessage(s);
    AcceptsHolds(s, x);
    QueueFront(s.queue);
    AcceptsNoTask(s, x);
    hide Next, AffirmsIn, NoTask, Spawn, StartedBy, HubMsgStep;
    assert AffirmOf(s.queue[0], x) == [];
  }

  lemma AcceptsHolds(s: System, x: u16)
    requires Taking(s, HubTakes) && s.queue[0].FromTask? && s.queue[0].msg.RxPublish? && x in s.hub.rxPublishId
    ensures var h := HubMsgStep(s.hub, s.queue[0].msg).0;
            && x in h.rxPublishId && (x in h.rxPublish <==> x in s.hub.rxPublish)
            && (x in h.rxPublish ==> h.rxPublish[x] == s.hub.rxPublish[x])
  {
  }

  lemma AcceptsNoTask(s: System, x: u16)
    requires Taking(s, HubTakes) && s.queue[0].FromTask? && s.queue[0].msg.RxPublish?
    requires x in s.hub.rxPublishId && NoTask(s, x)
    ensures NoTask(Next(s, HubTakes), x)
  {
    NextTasks(s, HubTakes);
    hide Next, Spawn;
    assert |StartedBy(s, s.queue[0])| <= 1;
  }

  lemma ArrivesQueue(s: System, qos: QoSWithPacketId, x: u16)
    ensures AffirmsIn(s.queue + Appended(s, BrokerPublishes(qos)), x) == AffirmsIn(s.queue, x)
  {
    hide AffirmsIn;
    var e := FromTask(RxPublish(qos, s.arrivals), NoTag);
    AffirmsAppend(s.queue, e, x);
  }

  lemma StepIdle(s: System, a: Action, x: u16)
    requires Fresh(s) && ReceiveInv(s) && x in s.hub.rxPublishId && NoTask(s, x)
    ensures IdleStep(s, Next(s, a), x)
  {
    NextTasks(s, a);
    hide Next, AffirmsIn, MessagesIn, MessagesOk, Appended, Moved, ReceiveInv;
    if Elsewhere(s, a) {
      ElsewhereQueue(s, a);
      ElsewhereTasks(s, a);
      ElsewhereRest(s, a);
    } else if Taking(s, a) {
      if s.queue[0].msg.RxPublish? {
        AcceptsIdle(s, x);
      } else if s.queue[0].msg.AffirmRxPublish? {
        StepDelivers(s);
      } else {
        StepReleases(s);
        ReleasesKeeps(s, Next(s, a), s.queue[0].msg.id);
      }
    } else if Moves(s, a) {
      NextHub(s, a);
      NextQueue(s, a);
      ReceiverTurn(s, a);
      ReceiverQueue(s, a);
    } else {
      NextHub(s, a);
      NextQueue(s, a);
      ArrivesQueue(s, a.qos, x);
    }
  }

  /** The acknowledgement that ends the exchange for a message: PUBCOMP for QoS 2, PUBACK for QoS 1. */
  ghost predicate Acknowledged(s: System, uid: nat, qos2: bool) {
    (if qos2 then WrotePubComp(uid) else WrotePubAck(uid)) in s.written
  }

  ghost predicate HasTask(s: System, t: nat, x: u16, uid: nat, qos2: bool) {
    t in s.tasks && s.tasks[t].Receive? && s.tasks[t].id == x && s.tasks[t].uid == uid && s.tasks[t].qos2 == qos2
  }

  ghost predicate Done(s: System, uid: nat, qos2: bool) {
    uid in s.delivered && Acknowledged(s, uid, qos2)
  }

  /** From the start of task t on: still running, or gone without or with its AffirmRxId, or over. */
  ghost predicate InHand(s: System, t: nat, x: u16, uid: nat, qos2: bool) {
    || Done(s, uid, qos2)
    || (x in s.hub.rxPublishId && HasTask(s, t, x, uid, qos2))
    || (x in s.hub.rxPublishId && NoTask(s, x)
        && (Frees in AffirmsIn(s.queue, x) ==> Acknowledged(s, uid, qos2) && Secured(s, x, uid)))
  }

  lemma OnlyMore(s: System, a: Action)
    ensures forall m :: m in s.delivered ==> m in Next(s, a).delivered
    ensures forall w :: w in s.written ==> w in Next(s, a).written
  {
    hide Next;
    NextDelivered(s, a);
    NextWritten(s, a);
  }

  lemma StepWithTask(s: System, a: Action, t: nat, x: u16, uid: nat, qos2: bool)
    requires Fresh(s) && ReceiveInv(s) && HasTask(s, t, x, uid, qos2)
    ensures InHand(Next(s, a), t, x, uid, qos2)
  {
    var s' := Next(s, a);
    if Moves(s, a) && a.task == t {
      StepOfItsTask(s, a, x);
    } else {
      NextTasks(s, a);
      StepReceive(s, a);
      hide Next, AffirmsIn, MessagesIn, MessagesOk, Appended, Moved, Started, IdOk;
      assert HasTask(s', t, x, uid, qos2);
      assert TaskOk(s', s'.tasks[t]);
    }
  }

  lemma StepOfItsTask(s: System, a: Action, x: u16)
    requires Fresh(s) && ReceiveInv(s) && ReceiverMoves(s, a) && s.tasks[a.task].id == x
    ensures InHand(Next(s, a), a.task, x, s.tasks[a.task].uid, s.tasks[a.task].qos2)
  {
    NextHub(s, a);
    assert TaskOk(s, s.tasks[a.task]);
    if Moved(s, a).Some? {
      GoesOn(s, a);
    } else {
      Ends(s, a);
      EndsAnswered(s, a);
    }
    hide Next, AffirmsIn, Moved, ReceiveInv, Fresh, TaskOk, Acknowledged, Secured, HasTask, NoTask;
  }

  lemma GoesOn(s: System, a: Action)
    requires ReceiverMoves(s, a) && Moved(s, a).Some?
    ensures var t := s.tasks[a.task]; HasTask(Next(s, a), a.task, t.id, t.uid, t.qos2)
  {
    NextTasks(s, a);
    ReceiverTurn(s, a);
    hide Next, Moved, Appended, WrittenBy;
  }

  lemma Ends(s: System, a: Action)
    requires TasksOk(s) && ReceiverMoves(s, a) && Moved(s, a).None?
    ensures NoTask(Next(s, a), s.tasks[a.task].id)
  {
    NextTasks(s, a);
    hide Next, Moved, TaskOk, Answered;
  }

  /** A receive task that ends has sent AffirmRxId as its last message only after its acknowledgement. */
  lemma EndsAnswered(s: System, a: Action)
    requires ReceiveInv(s) && ReceiverMoves(s, a) && Moved(s, a).None?
    ensures var s', t := Next(s, a), s.tasks[a.task];
            Frees in AffirmsIn(s'.queue, t.id) ==> Acknowledged(s', t.uid, t.qos2) && Secured(s', t.id, t.uid)
  {
    var t := s.tasks[a.task];
    assert TaskOk(s, t) && Answered(s, t);
    OnlyMore(s, a);
    ReceiverTurn(s, a);
    EndsAcknowledged(s, a);
    EndsQueue(s, a);
    hide Next, AffirmsIn, Appended, Moved, WrittenBy, ReceiveInv, Answered, BeforeAffirm;
  }

  lemma EndsQueue(s: System, a: Action)
    requires ReceiverMoves(s, a)
    ensures var x := s.tasks[a.task].id;
            && (forall m :: Holds(Next(s, a), x, m) <==> Holds(s, x, m))
            && (Appended(s, a) == [] ==> AffirmsIn(Next(s, a).queue, x) == AffirmsIn(s.queue, x))
            && (Appended(s, a) == [FromTask(AffirmRxPublish(x), NoTag)] ==>
                  AffirmsIn(Next(s, a).queue, x) == AffirmsIn(s.queue, x) + [Publishes])
            && (Appended(s, a) == [FromTask(AffirmRxId(x), NoTag)] ==>
                  AffirmsIn(Next(s, a).queue, x) == AffirmsIn(s.queue, x) + [Frees])
  {
    NextHub(s, a);
    NextQueue(s, a);
    ReceiverQueue(s, a);
    hide Next, AffirmsIn, Appended;
  }

  lemma EndsAcknowledged(s: System, a: Action)
    requires ReceiverMoves(s, a) && Answered(s, s.tasks[a.task])
    ensures var t := s.tasks[a.task];
            Appended(s, a) == [FromTask(AffirmRxId(t.id), NoTag)] ==> Acknowledged(s, t.uid, t.qos2)
  {
  }

  lemma StepInHand(s: System, a: Action, t: nat, x: u16, uid: nat, qos2: bool)
    requires Fresh(s) && ReceiveInv(s) && InHand(s, t, x, uid, qos2)
    ensures InHand(Next(s, a), t, x, uid, qos2)
  {
    hide Next, AffirmsIn, ReceiveInv;
    OnlyMore(s, a);
    if Done(s, uid, qos2) {
    } else if HasTask(s, t, x, uid, qos2) {
      StepWithTask(s, a, t, x, uid, qos2);
    } else {
      StepIdle(s, a, x);
    }
  }

  lemma {:induction false} StaysInHand(s: System, actions: seq<Action>, t: nat, x: u16, uid: nat, qos2: bool)
    requires Fresh(s) && ReceiveInv(s) && InHand(s, t, x, uid, qos2)
    ensures var s' := RunFrom(s, actions); Fresh(s') && ReceiveInv(s') && InHand(s', t, x, uid, qos2)
    decreases |actions|
  {
    if actions != [] {
      hide Next, ReceiveInv, Fresh, InHand;
      var mid := RunFrom(s, actions[..|actions| - 1]);
      StaysInHand(s, actions[..|actions| - 1], t, x, uid, qos2);
      StepFresh(mid, actions[|actions| - 1]);
      StepReceive(mid, actions[|actions| - 1]);
      StepInHand(mid, actions[|actions| - 1], t, x, uid, qos2);
    }
  }

  /**
   Once a message has been accepted under an id, every run keeps the id held until that message has been handed to
   the user and its PUBCOMP (QoS 2) or PUBACK (QoS 1) has been written: no other message can use the id before.
   */
  lemma HeldUntilDone(autoReconnect: bool, before: seq<Action>, t: nat, after: seq<Action>)
    requires t in Run(autoReconnect, before).tasks && Run(autoReconnect, before).tasks[t].Receive?
    ensures var task := Run(autoReconnect, before).tasks[t];
            var s' := RunFrom(Run(autoReconnect, before), after);
            task.id in s'.hub.rxPublishId || Done(s', task.uid, task.qos2)
  {
    var s := Run(autoReconnect, before);
    FreshInEveryRun(autoReconnect, before);
    ReceiveInEveryRun(autoReconnect, before);
    hide Run, RunFrom, AffirmsIn, MessagesOk;
    var task := s.tasks[t];
    assert TaskOk(s, task);
    hide ReceiveInv;
    StaysInHand(s, after, t, task.id, task.uid, task.qos2);
  }

  /**
   So when the hub is about to release an id, every message that was ever accepted under it has been handed to the user
   and its exchange acknowledged, and nothing else concerns the id.
   */
  lemma ReleasedAfterDelivery(autoReconnect: bool, before: seq<Action>, t: nat, after: seq<Action>)
    requires t in Run(autoReconnect, before).tasks && Run(autoReconnect, before).tasks[t].Receive?
    requires var s' := RunFrom(Run(autoReconnect, before), after);
             && Taking(s', HubTakes) && s'.queue[0].FromTask?
             && s'.queue[0].msg == AffirmRxId(Run(autoReconnect, before).tasks[t].id)
    ensures var task := Run(autoReconnect, before).tasks[t];
            var s' := RunFrom(Run(autoReconnect, before), after);
            && task.uid in s'.delivered && Acknowledged(s', task.uid, task.qos2)
            && task.id in s'.hub.rxPublishId && task.id !in s'.hub.rxPublish && NoTask(s', task.id)
            && AffirmsIn(s'.queue[1..], task.id) == []
  {
    var s := Run(autoReconnect, before);
    FreshInEveryRun(autoReconnect, before);
    ReceiveInEveryRun(autoReconnect, before);
    var task := s.tasks[t];
    assert TaskOk(s, task);
    hide Run, RunFrom, AffirmsIn, MessagesOk, ReceiveInv, IdOk;
    StaysInHand(s, after, t, task.id, task.uid, task.qos2);
    ReleaseMeans(RunFrom(s, after), t, task.id, task.uid, task.qos2);
  }

  lemma ReleaseMeans(s: System, t: nat, x: u16, uid: nat, qos2: bool)
    requires ReceiveInv(s) && InHand(s, t, x, uid, qos2)
    requires s.queue != [] && s.queue[0].FromTask? && s.queue[0].msg == AffirmRxId(x)
    ensures uid in s.delivered && Acknowledged(s, uid, qos2)
    ensures x in s.hub.rxPublishId && x !in s.hub.rxPublish && NoTask(s, x) && AffirmsIn(s.queue[1..], x) == []
  {
    AboutToRelease(s, x);
    hide AffirmsIn, MessagesOk, Acknowledged;
    assert AffirmsIn(s.queue, x)[0] == Frees;
  }

  // ----- A receive task that dies -----

  /** Held, with no task and nothing queued for the id. */
  ghost predicate Stranded(s: System, x: u16) {
    x in s.hub.rxPublishId && NoTask(s, x) && AffirmsIn(s.queue, x) == []
  }

  /** Such an id stays held for good, and the message it holds, if any, is never delivered. */
  lemma {:induction false} StrandedForever(s: System, actions: seq<Action>, x: u16)
    requires Fresh(s) && ReceiveInv(s) && Stranded(s, x)
    ensures var s' := RunFrom(s, actions);
            && Fresh(s') && ReceiveInv(s') && Stranded(s', x)
            && (forall m :: Holds(s', x, m) <==> Holds(s, x, m))
            && (forall m :: Holds(s, x, m) ==> m !in s'.delivered)
    decreases |actions|
  {
    hide AffirmsIn;
    if actions != [] {
      hide Next, ReceiveInv, Fresh;
      var mid, a := RunFrom(s, actions[..|actions| - 1]), actions[|actions| - 1];
      StrandedForever(s, actions[..|actions| - 1], x);
      StepFresh(mid, a);
      StepReceive(mid, a);
      StepIdle(mid, a, x);
      HeldIsUndelivered(Next(mid, a));
    }
  }

  lemma HeldIsUndelivered(s: System)
    requires ReceiveInv(s)
    ensures forall x, m :: Holds(s, x, m) ==> m !in s.delivered
  {
  }

  /**
   So QoS 1 has no counterpart of CompletedIsNotLost: a task that dies on the receipt of its PUBACK leaves a message
   acknowledged to the broker and never delivered, whatever happens after.
   */
  lemma PubAckThenLost(after: seq<Action>)
    ensures var run := [HubConnects(NetConnected(false)), BrokerPublishes(AtLeastOnce(7)), HubTakes, TaskDies(0, true)];
            var s' := RunFrom(Run(true, run), after);
            WrotePubAck(0) in Run(true, run).written && 0 !in s'.delivered && 7 in s'.hub.rxPublishId
  {
    var run := [HubConnects(NetConnected(false)), BrokerPublishes(AtLeastOnce(7)), HubTakes, TaskDies(0, true)];
    FreshInEveryRun(true, run);
    ReceiveInEveryRun(true, run);
    hide ReceiveInv, Fresh, RunFrom, Init, Next;
    FourSteps(Init(true), run[0], run[1], run[2], run[3]);
    LossConnects();
    var s1 := Next(Init(true), run[0]);
    LossArrives(s1);
    LossAccepts(Next(s1, run[1]));
    LossDies(Next(Next(s1, run[1]), run[2]));
    StrandedForever(Run(true, run), after, 7);
  }

  /** Connected, and nothing has arrived yet. */
  ghost predicate Quiet(s: System) {
    && s.hub.phase.Connected? && s.hub.rxPublishId == map[] && s.tasks == map[] && s.nextTask == 0 && s.arrivals == 0
  }

  lemma LossConnects()
    ensures var s := Next(Init(true), HubConnects(NetConnected(false))); Quiet(s) && s.queue == []
  {
    var s0, a := Init(true), HubConnects(NetConnected(false));
    hide FullRing, Spawn;
    NextHub(s0, a);
    NextTasks(s0, a);
    NextQueue(s0, a);
    NextWritten(s0, a);
    hide Next;
  }

  lemma LossArrives(s: System)
    requires Quiet(s) && s.queue == []
    ensures var s' := Next(s, BrokerPublishes(AtLeastOnce(7)));
            && s'.hub == s.hub && s'.tasks == map[] && s'.nextTask == 0
            && s'.queue == [FromTask(RxPublish(AtLeastOnce(7), 0), NoTag)]
  {
  }

  lemma LossDies(s: System)
    requires s.tasks == map[0 := Receive(false, 7, 0, First, |s.acks|)] && s.queue == []
    requires 7 in s.hub.rxPublishId && Holds(s, 7, 0)
    ensures var s' := Next(s, TaskDies(0, true)); WrotePubAck(0) in s'.written && Stranded(s', 7) && Holds(s', 7, 0)
  {
    var a := TaskDies(0, true);
    NextTasks(s, a);
    NextQueue(s, a);
    NextHub(s, a);
    NextWritten(s, a);
    hide Next;
    assert WrittenBy(s, a) == [WrotePubAck(0)] && Moved(s, a) == None && Appended(s, a) == [];
    hide WrittenBy, Moved, Appended;
    assert Next(s, a).written[|s.written|] == WrotePubAck(0);
    assert Next(s, a).tasks == map[] && Next(s, a).queue == [];
  }

  lemma LossAccepts(s: System)
    requires s.hub.phase.Connected? && s.queue == [FromTask(RxPublish(AtLeastOnce(7), 0), NoTag)]
    requires s.hub.rxPublishId == map[] && s.tasks == map[] && s.nextTask == 0
    ensures var s' := Next(s, HubTakes);
            && s'.tasks == map[0 := Receive(false, 7, 0, First, |s.acks|)] && s'.queue == []
            && 7 in s'.hub.rxPublishId && Holds(s', 7, 0)
  {
    NextTasks(s, HubTakes);
    NextQueue(s, HubTakes);
    NextHub(s, HubTakes);
    hide Next;
  }

  lemma FourSteps(s: System, a: Action, b: Action, c: Action, d: Action)
    ensures RunFrom(s, [a, b, c, d]) == Next(Next(Next(Next(s, a), b), c), d)
  {
    RunSnoc(s, [], a);
    RunSnoc(s, [a], b);
    RunSnoc(s, [a, b], c);
    RunSnoc(s, [a, b, c], d);
    hide Next;
    assert [] + [a] == [a] && [a] + [b] == [a, b];
    assert [a, b] + [c] == [a, b, c] && [a, b, c] + [d] == [a, b, c, d];
  }
}
