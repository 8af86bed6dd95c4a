/**
 What taking an incoming message does, by its QoS, and the fate of QoS 0 messages, which the hub hands over at once and
 keeps nothing of.
 */
module Arrivals {
  import opened Wire
  import opened PublishPacket
  import opened HubSteps
  import opened Session
  import opened Projections
  import opened Receiving
  import opened Lifecycle
  import opened Deliveries
  import opened Fates

  /** The k-th event is QoS 0 message m. */
  predicate Waits0(s: System, m: nat, k: nat) {
    k < |s.queue| && s.queue[k].FromTask? && s.queue[k].msg == RxPublish(AtMostOnce, m)
  }

  /** QoS 0: the message is delivered in this very step, and nothing else changes. */
  lemma QoS0Taken(s: System, m: nat)
    requires Taking(s, HubTakes) && Waits0(s, m, 0)
    ensures Next(s, HubTakes) == s.(queue := s.queue[1..], delivered := s.delivered + [m])
  {
    assert s.sleeping + [] == s.sleeping;
    assert SendTasks([], |s.acks|) + [] == [];
  }

  /**
   QoS 1 and 2, with an id that is not held: the message is held under its id and one task starts for it, of its QoS and
   id; nothing is delivered, and nothing else changes.
   */
  lemma HigherQoSTaken(s: System, m: nat, qos: QoSWithPacketId)
    requires Taking(s, HubTakes) && s.queue[0].FromTask? && s.queue[0].msg == RxPublish(qos, m)
    requires !qos.AtMostOnce? && qos.id !in s.hub.rxPublishId
    ensures var task := Receive(qos.ExactlyOnce?, qos.id, m, First, |s.acks|);
            Next(s, HubTakes)
            == s.(queue := s.queue[1..],
                  hub := s.hub.(rxPublish := s.hub.rxPublish[qos.id := m],
                                rxPublishId := s.hub.rxPublishId[qos.id := qos.id]),
                  tasks := s.tasks[s.nextTask := task],
                  nextTask := s.nextTask + 1)
  {
    assert s.sleeping + [] == s.sleeping && s.delivered + [] == s.delivered;
    var task := Receive(qos.ExactlyOnce?, qos.id, m, First, |s.acks|);
    assert SendTasks([], |s.acks|) + [task] == [task];
    OneSpawned(s.tasks, s.nextTask, task);
  }

  lemma OneSpawned(tasks: map<nat, Task>, next: nat, t: Task)
    ensures Spawn(tasks, next, [t]) == tasks[next := t]
  {
    assert [t][1..] == [];
  }

  lemma WaitsInQueue(q: seq<Event>, k: nat)
    requires k < |q| && q[k].FromTask? && q[k].msg.RxPublish?
    ensures q[k].msg.message in MessagesIn(q)
  {
    if k > 0 {
      WaitsInQueue(q[1..], k - 1);
    }
  }

  /** Over every run: a QoS 0 message that the hub is about to take has not been delivered before. */
  lemma QoS0TakenOnce(autoReconnect: bool, before: seq<Action>, m: nat, k: nat)
    requires Waits0(Run(autoReconnect, before), m, k)
    ensures m !in Run(autoReconnect, before).delivered
  {
    ReceiveInEveryRun(autoReconnect, before);
    hide Run;
    WaitsInQueue(Run(autoReconnect, before).queue, k);
  }

  /** With k events in front of it, a QoS 0 message is delivered in exactly the runs in which the hub takes more than k. */
  lemma {:induction false} QoS0DeliveredExactlyWhenTaken(s: System, actions: seq<Action>, m: nat, k: nat)
    requires Fresh(s) && ReceiveInv(s) && Waits0(s, m, k)
    ensures var s', n := RunFrom(s, actions), Takes(s, actions);
            && Fresh(s') && ReceiveInv(s')
            && (if n <= k then Waits0(s', m, k - n) && m !in s'.delivered else m in s'.delivered)
    decreases |actions|
  {
    hide RunFrom, Takes, Taking, Next, Fresh, ReceiveInv, Waits0;
    if actions == [] {
      NothingTaken(s);
    } else {
      var init, a := actions[..|actions| - 1], actions[|actions| - 1];
      assert actions == init + [a];
      RunSnoc(s, init, a);
      TakesSnoc(s, init, a);
      QoS0DeliveredExactlyWhenTaken(s, init, m, k);
      var mid := RunFrom(s, init);
      StepFresh(mid, a);
      StepReceive(mid, a);
      OnlyMore(mid, a);
      if Takes(s, init) <= k {
        StepWaits0(mid, a, m, k - Takes(s, init));
      }
    }
    WaitsUndelivered(RunFrom(s, actions), m);
  }

  lemma StepWaits0(s: System, a: Action, m: nat, k: nat)
    requires Waits0(s, m, k)
    ensures if Taking(s, a) && k == 0 then m in Next(s, a).delivered
            else Waits0(Next(s, a), m, if Taking(s, a) then k - 1 else k)
  {
    NextQueue(s, a);
    if Taking(s, a) && k == 0 {
      QoS0Taken(s, m);
      hide Next;
      assert Next(s, a).delivered[|s.delivered|] == m;
    }
    hide Next, Appended;
  }

  lemma WaitsUndelivered(s: System, m: nat)
    requires ReceiveInv(s)
    ensures forall k: nat :: Waits0(s, m, k) ==> m !in s.delivered
  {
    forall k: nat | Waits0(s, m, k) ensures m !in s.delivered {
      WaitsInQueue(s.queue, k);
    }
  }

  /** Over every run: no continuation delivers it if and only if the hub has stopped, or is bound to before it gets there. */
  lemma QoS0Fate(autoReconnect: bool, before: seq<Action>, m: nat, k: nat)
    requires Waits0(Run(autoReconnect, before), m, k)
    ensures var s := Run(autoReconnect, before);
            && (forall after :: m in RunFrom(s, after).delivered <==> Takes(s, after) > k)
            && (NeverDelivered(s, m) <==> Blocked(s, k))
  {
    var s := Run(autoReconnect, before);
    FreshInEveryRun(autoReconnect, before);
    ReceiveInEveryRun(autoReconnect, before);
    hide Run, RunFrom, Takes, Fresh, ReceiveInv, Blocked, Pump, IsPingFail;
    forall after ensures m in RunFrom(s, after).delivered <==> Takes(s, after) > k {
      QoS0DeliveredExactlyWhenTaken(s, after, m, k);
    }
    WaitsIsNoFailure(s, m, k);
    if Blocked(s, k) {
      forall after ensures m !in RunFrom(s, after).delivered {
        BlockedTakesFew(s, after, k);
      }
    } else {
      SomeRunTakes(s, k);
      assert m in RunFrom(s, Pump(k + 1)).delivered;
    }
  }

  lemma WaitsIsNoFailure(s: System, m: nat, k: nat)
    requires Waits0(s, m, k)
    ensures !IsPingFail(s.queue[k])
  {
  }
}
