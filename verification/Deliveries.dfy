/**
 What becomes of an incoming message once the broker has been told that it arrived. A message whose affirmation is
 queued is delivered exactly when the hub takes that far; the module says when the hub never will, and when a message
 never gets into the queue.
 */
module Deliveries {
  import opened Wire
  import opened PublishPacket
  import opened HubSteps
  import opened Session
  import opened Projections
  import opened Receiving
  import opened Lifecycle

  predicate IsAffirm(e: Event, x: u16) {
    e.FromTask? && e.msg == AffirmRxPublish(x)
  }

  /** The hub holds message m under id x, and the event that will deliver it has k events in front of it. */
  ghost predicate Ahead(s: System, x: u16, m: nat, k: nat) {
    && Holds(s, x, m) && k < |s.queue| && IsAffirm(s.queue[k], x)
    && forall i :: 0 <= i < k ==> !IsAffirm(s.queue[i], x)
  }

  /** How many events the hub takes in a run from s. */
  ghost function Takes(s: System, actions: seq<Action>): nat
    decreases |actions|
  {
    if actions == [] then 0
    else
      var n := |actions| - 1;
      Takes(s, actions[..n]) + if Taking(RunFrom(s, actions[..n]), actions[n]) then 1 else 0
  }

  lemma TakesSnoc(s: System, actions: seq<Action>, a: Action)
    ensures Takes(s, actions + [a]) == Takes(s, actions) + if Taking(RunFrom(s, actions), a) then 1 else 0
  {
    assert (actions + [a])[..|actions|] == actions;
    hide RunFrom, Taking;
  }

  // ----- Delivered exactly when taken -----

  lemma StepHolds(s: System, a: Action, x: u16, m: nat)
    requires ReceiveInv(s) && Holds(s, x, m) && !(Taking(s, a) && IsAffirm(s.queue[0], x))
    ensures Holds(Next(s, a), x, m)
  {
    assert IdOk(s, x);
    NextHub(s, a);
    hide Next, ReceiveInv, IdOk, RecoverStep, ClientDataStep, ConnectStep, NetworkStep, CommandStep, DisconnectStep;
    if Taking(s, a) {
      TakenHolds(s, x);
    } else {
      QuietHolds(s, a);
    }
    hide HubNext;
  }

  lemma TakenHolds(s: System, x: u16)
    requires Taking(s, HubTakes) && x in s.hub.rxPublish && x in s.hub.rxPublishId && !IsAffirm(s.queue[0], x)
    ensures var h := HubNext(s, HubTakes); x in h.rxPublish && h.rxPublish[x] == s.hub.rxPublish[x]
  {
    hide ClientDataStep, ReceiveStep, RecoverStep;
    if s.queue[0].FromClient? {
      RequestKeeps<nat, nat>(s.hub, ClientData(s.queue[0].request, |s.log|));
    } else if s.queue[0].msg.RxPublish? {
      ReceiveKeeps(s.hub, s.queue[0].msg.qos, s.queue[0].msg.message);
    } else if !s.queue[0].msg.AffirmRxPublish? {
      MessageKeeps(s.hub, s.queue[0].msg);
    }
  }

  lemma QuietHolds(s: System, a: Action)
    requires !Taking(s, a)
    ensures HubNext(s, a).rxPublish == s.hub.rxPublish
  {
  }

  lemma StepAhead(s: System, a: Action, x: u16, m: nat, k: nat)
    requires ReceiveInv(s) && Ahead(s, x, m, k)
    ensures if Taking(s, a) && k == 0 then m in Next(s, a).delivered
            else Ahead(Next(s, a), x, m, if Taking(s, a) then k - 1 else k)
  {
    NextQueue(s, a);
    if Taking(s, a) && k == 0 {
      NextDelivered(s, a);
      hide Next, ReceiveInv;
      assert DeliveredBy(s, a) == [m];
      assert Next(s, a).delivered[|s.delivered|] == m;
    } else {
      StepHolds(s, a, x, m);
      hide Next, ReceiveInv, Appended;
    }
  }

  /** The message is delivered exactly when the hub has taken more events than there were in front of it. */
  lemma {:induction false} DeliveredExactlyWhenTaken(s: System, actions: seq<Action>, x: u16, m: nat, k: nat)
    requires Fresh(s) && ReceiveInv(s) && Ahead(s, x, m, k)
    ensures var s', n := RunFrom(s, actions), Takes(s, actions);
            && Fresh(s') && ReceiveInv(s')
            && (if n <= k then Ahead(s', x, m, k - n) && m !in s'.delivered else m in s'.delivered)
    decreases |actions|
  {
    hide ReceiveInv, Fresh, Ahead;
    if actions == [] {
      assert Ahead(RunFrom(s, []), x, m, k);
    } else {
      var init, a := actions[..|actions| - 1], actions[|actions| - 1];
      DeliveredExactlyWhenTaken(s, init, x, m, k);
      assert RunFrom(s, actions) == Next(RunFrom(s, init), a);
      hide Next, RunFrom;
      var mid := RunFrom(s, init);
      StepFresh(mid, a);
      StepReceive(mid, a);
      OnlyMore(mid, a);
      if Takes(s, init) <= k {
        StepAhead(mid, a, x, m, k - Takes(s, init));
      }
    }
    AheadIsUndelivered(RunFrom(s, actions), x, m);
  }

  lemma AheadIsUndelivered(s: System, x: u16, m: nat)
    requires ReceiveInv(s)
    ensures forall k :: Ahead(s, x, m, k) ==> m !in s.delivered
  {
    HeldIsUndelivered(s);
  }

  function FirstAffirm(q: seq<Event>, x: u16): (k: nat)
    ensures k <= |q|
    ensures k < |q| ==> IsAffirm(q[k], x)
    ensures forall i :: 0 <= i < k ==> !IsAffirm(q[i], x)
  {
    if q == [] || IsAffirm(q[0], x) then 0 else 1 + FirstAffirm(q[1..], x)
  }

  lemma {:induction false} AffirmIsThere(q: seq<Event>, x: u16)
    ensures FirstAffirm(q, x) < |q| <==> Publishes in AffirmsIn(q, x)
  {
    if q != [] {
      AffirmIsThere(q[1..], x);
      assert AffirmsIn(q, x) == AffirmOf(q[0], x) + AffirmsIn(q[1..], x);
    }
  }

  lemma SecuredIsAhead(s: System, x: u16, m: nat)
    requires ReceiveInv(s) && Secured(s, x, m) && m !in s.delivered
    ensures Ahead(s, x, m, FirstAffirm(s.queue, x))
  {
    assert IdOk(s, x);
    AffirmIsThere(s.queue, x);
    hide AffirmsIn, FirstAffirm;
    assert AffirmsIn(s.queue, x)[0] == Publishes;
  }

  // ----- When the hub never takes that far -----

  /** The hub takes nothing any more, whatever happens. */
  predicate Halted(h: Hub<nat, nat>) {
    h.phase.Disconnected? || (h.phase.ToDisconnect? && (h.phase.reason == ClientCommand || !h.autoReconnect))
  }

  lemma StepHalted(s: System, a: Action)
    requires Halted(s.hub)
    ensures Halted(Next(s, a).hub) && !Taking(s, a)
  {
    NextHub(s, a);
    hide Next, HubMsgStep, ClientDataStep, ConnectStep, NetworkStep, CommandStep;
  }

  lemma {:induction false} HaltedTakesNothing(s: System, actions: seq<Action>)
    requires Halted(s.hub)
    ensures Halted(RunFrom(s, actions).hub) && Takes(s, actions) == 0
    decreases |actions|
  {
    if actions != [] {
      hide Next, Taking;
      HaltedTakesNothing(s, actions[..|actions| - 1]);
      StepHalted(RunFrom(s, actions[..|actions| - 1]), actions[|actions| - 1]);
    }
  }

  /** After n events have been taken: the failed ping is j - n places from the front, or has just stopped the hub. */
  ghost predicate FailureComes(s: System, j: nat, n: nat) {
    if n <= j then !s.hub.autoReconnect && j - n < |s.queue| && IsPingFail(s.queue[j - n])
    else n == j + 1 && Halted(s.hub)
  }

  lemma StepToFailure(s: System, a: Action, j: nat, n: nat)
    requires FailureComes(s, j, n)
    ensures FailureComes(Next(s, a), j, if Taking(s, a) then n + 1 else n)
  {
    NextHub(s, a);
    NextQueue(s, a);
    SameOption(s, a);
    if n > j {
      StepHalted(s, a);
    } else if Taking(s, a) {
      TakeKeeps(s);
    }
    hide Next, Appended, HubNext;
  }

  /** Without automatic reconnection a failed ping in the queue is the last event the hub takes. */
  lemma {:induction false} FailureIsLast(s: System, actions: seq<Action>, j: nat)
    requires !s.hub.autoReconnect && j < |s.queue| && IsPingFail(s.queue[j])
    ensures FailureComes(RunFrom(s, actions), j, Takes(s, actions))
    decreases |actions|
  {
    hide IsPingFail;
    if actions == [] {
      NothingTaken(s);
    } else {
      var init, a := actions[..|actions| - 1], actions[|actions| - 1];
      FailureIsLast(s, init, j);
      assert RunFrom(s, actions) == Next(RunFrom(s, init), a);
      assert Takes(s, actions) == Takes(s, init) + if Taking(RunFrom(s, init), a) then 1 else 0;
      hide Next, RunFrom, Takes, Taking, FailureComes;
      StepToFailure(RunFrom(s, init), a, j, Takes(s, init));
    }
  }

  /** The hub has stopped for good, or is bound to before it takes the k-th event. */
  ghost predicate Blocked(s: System, k: nat) {
    Halted(s.hub) || (!s.hub.autoReconnect && exists j :: 0 <= j < k && j < |s.queue| && IsPingFail(s.queue[j]))
  }

  lemma BlockedTakesFew(s: System, actions: seq<Action>, k: nat)
    requires Blocked(s, k)
    ensures Takes(s, actions) <= k
  {
    hide Takes, RunFrom;
    if Halted(s.hub) {
      HaltedTakesNothing(s, actions);
    } else {
      var j :| 0 <= j < k && j < |s.queue| && IsPingFail(s.queue[j]);
      FailureIsLast(s, actions, j);
    }
  }

  // ----- Otherwise some run gets there -----

  /** Reconnect if need be, and take one event, n times over. */
  function Pump(n: nat): seq<Action> {
    if n == 0 then [] else Pump(n - 1) + [HubCloses] + [HubConnects(NetConnected(true))] + [HubTakes]
  }

  lemma ReadyAgain(s: System)
    requires !Halted(s.hub)
    ensures var s' := Next(Next(s, HubCloses), HubConnects(NetConnected(true)));
            s'.hub.phase.Connected? && s'.hub.autoReconnect == s.hub.autoReconnect && s'.queue == s.queue
    ensures Next(s, HubCloses).queue == s.queue
  {
    var s1 := Next(s, HubCloses);
    NextHub(s, HubCloses);
    NextQueue(s, HubCloses);
    NextHub(s1, HubConnects(NetConnected(true)));
    NextQueue(s1, HubConnects(NetConnected(true)));
    hide Next;
    assert s.queue + [] == s.queue;
  }

  lemma TakesOne(s: System)
    requires Taking(s, HubTakes)
    ensures var s' := Next(s, HubTakes);
            && s'.queue == s.queue[1..] && s'.hub.autoReconnect == s.hub.autoReconnect
            && (s.hub.autoReconnect || !IsPingFail(s.queue[0]) ==> !Halted(s'.hub))
  {
    NextHub(s, HubTakes);
    NextQueue(s, HubTakes);
    hide Next, Find, ReceiveStep;
    TakeKeeps(s);
    hide HubNext;
  }

  lemma {:induction false} PumpTakes(s: System, n: nat)
    requires n <= |s.queue| && !Halted(s.hub)
    requires s.hub.autoReconnect || forall j :: 0 <= j < n ==> !IsPingFail(s.queue[j])
    ensures var s' := RunFrom(s, Pump(n));
            && Takes(s, Pump(n)) == n && s'.queue == s.queue[n..] && !Halted(s'.hub)
            && s'.hub.autoReconnect == s.hub.autoReconnect
    decreases n
  {
    hide Next, RunFrom, Takes, Halted, IsPingFail;
    if n == 0 {
      assert Pump(0) == [] && RunFrom(s, []) == s && Takes(s, []) == 0 by { NothingTaken(s); }
    } else {
      PumpTakes(s, n - 1);
      var run := Pump(n - 1);
      var s0 := RunFrom(s, run);
      RunSnoc(s, run, HubCloses);
      TakesSnoc(s, run, HubCloses);
      RunSnoc(s, run + [HubCloses], HubConnects(NetConnected(true)));
      TakesSnoc(s, run + [HubCloses], HubConnects(NetConnected(true)));
      ReadyAgain(s0);
      var s2 := Next(Next(s0, HubCloses), HubConnects(NetConnected(true)));
      RunSnoc(s, run + [HubCloses] + [HubConnects(NetConnected(true))], HubTakes);
      TakesSnoc(s, run + [HubCloses] + [HubConnects(NetConnected(true))], HubTakes);
      assert s2.queue[0] == s.queue[n - 1];
      TakesOne(s2);
      assert s.queue[n - 1..][1..] == s.queue[n..];
    }
  }

  lemma NothingTaken(s: System)
    ensures RunFrom(s, []) == s && Takes(s, []) == 0
  {
  }

  /** An event stays queued until the hub has taken the j events in front of it. */
  lemma {:induction false} EventWaits(s: System, actions: seq<Action>, j: nat)
    requires j < |s.queue| && Takes(s, actions) <= j
    ensures var q, k := RunFrom(s, actions).queue, j - Takes(s, actions); k < |q| && q[k] == s.queue[j]
    decreases |actions|
  {
    hide RunFrom, Takes, Taking, Next, Appended;
    if actions == [] {
      NothingTaken(s);
    } else {
      var init, a := actions[..|actions| - 1], actions[|actions| - 1];
      assert actions == init + [a];
      RunSnoc(s, init, a);
      TakesSnoc(s, init, a);
      EventWaits(s, init, j);
      NextQueue(RunFrom(s, init), a);
      TakingIsTakes(RunFrom(s, init), a);
    }
  }

  lemma TakingIsTakes(s: System, a: Action)
    ensures Taking(s, a) ==> a.HubTakes? && s.queue != []
  {
  }

  // ----- The fate of a message whose affirmation is queued -----

  /** With k events in front of it: when it is delivered, and when it never will be. */
  ghost predicate Fate(s: System, m: nat, k: nat) {
    && (forall after :: m in RunFrom(s, after).delivered <==> Takes(s, after) > k)
    && ((forall after :: m !in RunFrom(s, after).delivered) <==> Blocked(s, k))
  }

  lemma DeliveredIffTaken(s: System, after: seq<Action>, x: u16, m: nat, k: nat)
    requires Fresh(s) && ReceiveInv(s) && Ahead(s, x, m, k)
    ensures m in RunFrom(s, after).delivered <==> Takes(s, after) > k
  {
    hide RunFrom, Takes, ReceiveInv, Fresh, Ahead;
    DeliveredExactlyWhenTaken(s, after, x, m, k);
  }

  lemma SomeRunTakes(s: System, k: nat)
    requires !Blocked(s, k) && k < |s.queue| && !IsPingFail(s.queue[k])
    ensures Takes(s, Pump(k + 1)) == k + 1
  {
    hide RunFrom, Takes, IsPingFail, Halted, Pump;
    PumpTakes(s, k + 1);
  }

  lemma AheadFate(s: System, x: u16, m: nat, k: nat)
    requires Fresh(s) && ReceiveInv(s) && Ahead(s, x, m, k)
    ensures Fate(s, m, k)
  {
    assert k < |s.queue| && !IsPingFail(s.queue[k]);
    hide RunFrom, Takes, ReceiveInv, Fresh, Ahead, IsPingFail, Blocked, Pump;
    forall after ensures m in RunFrom(s, after).delivered <==> Takes(s, after) > k {
      DeliveredIffTaken(s, after, x, m, k);
    }
    if Blocked(s, k) {
      forall after ensures m !in RunFrom(s, after).delivered {
        BlockedTakesFew(s, after, k);
      }
    } else {
      SomeRunTakes(s, k);
      assert m in RunFrom(s, Pump(k + 1)).delivered;
    }
  }

  /**
   After PUBCOMP: the message is delivered, or k events are in front of the one that delivers it. Then it is delivered
   exactly in the runs in which the hub takes more than k events, and in none exactly if the hub has stopped for good or
   is bound to before it gets there.
   */
  lemma CompletedFate(autoReconnect: bool, before: seq<Action>, m: nat)
    requires WrotePubComp(m) in Run(autoReconnect, before).written
    ensures var s := Run(autoReconnect, before);
            m in s.delivered || exists x, k: nat :: Ahead(s, x, m, k) && Fate(s, m, k)
  {
    var s := Run(autoReconnect, before);
    FreshInEveryRun(autoReconnect, before);
    ReceiveInEveryRun(autoReconnect, before);
    hide Run, Fate, Ahead, Fresh;
    if m !in s.delivered {
      var x :| Secured(s, x, m);
      hide ReceiveInv, Secured;
      SecuredIsAhead(s, x, m);
      AheadFate(s, x, m, FirstAffirm(s.queue, x));
    }
  }

  // ----- PUBCOMP written, and never delivered -----

  /** Connected without automatic reconnection, and nothing has arrived. */
  ghost predicate Quiet7(s: System) {
    && s.hub.phase.Connected? && !s.hub.autoReconnect && s.queue == [] && s.acks == [] && s.arrivals == 0
    && s.hub.rxPublish == map[] && s.hub.rxPublishId == map[] && s.tasks == map[] && s.nextTask == 0
  }

  lemma Connects7()
    ensures Quiet7(Next(Init(false), HubConnects(NetConnected(false))))
  {
    var s0, a := Init(false), HubConnects(NetConnected(false));
    hide FullRing, Spawn;
    NextHub(s0, a);
    NextTasks(s0, a);
    NextQueue(s0, a);
    NextWritten(s0, a);
    NextHistory(s0, a);
    hide Next;
  }

  lemma Arrives7(s: System, qos: QoSWithPacketId)
    requires Quiet7(s)
    ensures Next(s, BrokerPublishes(qos)) == s.(queue := [FromTask(RxPublish(qos, 0), NoTag)], arrivals := 1)
  {
  }

  /** Message 0 has been accepted under id 7, and its task stands at pc with nothing queued. */
  ghost predicate Receiving7(s: System, qos2: bool, pc: ReceivePc, read: nat) {
    && s.hub.phase.Connected? && !s.hub.autoReconnect && s.queue == []
    && s.hub.rxPublish == map[7 := 0] && s.hub.rxPublishId == map[7 := 7]
    && s.tasks == map[0 := Receive(qos2, 7, 0, pc, read)]
  }

  lemma Accepts7(s: System, qos2: bool)
    requires Quiet7(s.(queue := [], arrivals := 0))
    requires s.queue == [FromTask(RxPublish(if qos2 then ExactlyOnce(7) else AtLeastOnce(7), 0), NoTag)]
    ensures Receiving7(Next(s, HubTakes), qos2, First, 0) && Next(s, HubTakes).acks == []
  {
    NextHub(s, HubTakes);
    NextTasks(s, HubTakes);
    NextQueue(s, HubTakes);
    NextHistory(s, HubTakes);
    hide Next;
    assert Started(s, HubTakes) == [Receive(qos2, 7, 0, First, 0)];
    hide Started;
  }

  lemma Answers7(s: System, qos2: bool)
    requires Receiving7(s, qos2, First, 0) && s.acks == []
    ensures var s' := Next(s, TaskWrites(0));
            && Receiving7(s', qos2, if qos2 then AwaitRel else Affirm, 0) && s'.acks == []
            && s'.written == s.written + [if qos2 then WrotePubRec(0) else WrotePubAck(0)]
  {
  }

  lemma Released7(s: System)
    requires Receiving7(s, true, AwaitRel, 0) && s.acks == [RelOf(7)]
    ensures Receiving7(Next(s, TaskReads(0)), true, Affirm, 1)
  {
  }

  lemma Affirms7(s: System)
    requires Receiving7(s, true, Affirm, 1)
    ensures var s' := Next(s, TaskDispatches(0));
            && s'.hub == s.hub && s'.queue == [FromTask(AffirmRxPublish(7), NoTag)]
            && s'.tasks == map[0 := Receive(true, 7, 0, Complete, 1)]
  {
  }

  /** PUBCOMP is written and the affirmation queued. */
  ghost predicate Completed7(s: System) {
    && s.queue == [FromTask(AffirmRxPublish(7), NoTag)] && s.hub.rxPublish == map[7 := 0] && 7 in s.hub.rxPublishId
    && !s.hub.autoReconnect && WrotePubComp(0) in s.written
  }

  lemma Completes7(s: System)
    requires s.tasks == map[0 := Receive(true, 7, 0, Complete, 1)]
    ensures var s' := Next(s, TaskWrites(0));
            s'.hub == s.hub && s'.queue == s.queue && WrotePubComp(0) in s'.written
  {
    assert Next(s, TaskWrites(0)).written[|s.written|] == WrotePubComp(0);
  }

  lemma Disconnects7(s: System)
    requires s.hub.phase.Connected? && Completed7(s)
    ensures var s' := Next(s, HubNetwork(BrokerDisconnect));
            s'.hub.phase.Disconnected? && Completed7(s') && Ahead(s', 7, 0, 0)
  {
  }

  lemma Completed7Reached() returns (run: seq<Action>, s: System)
    ensures RunFrom(Init(false), run) == s && s.hub.phase.Connected? && Completed7(s)
  {
    var s0 := Init(false);
    NothingTaken(s0);
    hide RunFrom, Next, Init;
    Connects7();
    run, s := RunThen(s0, [], s0, HubConnects(NetConnected(false)));
    Arrives7(s, ExactlyOnce(7));
    run, s := RunThen(s0, run, s, BrokerPublishes(ExactlyOnce(7)));
    Accepts7(s, true);
    run, s := RunThen(s0, run, s, HubTakes);
    Answers7(s, true);
    run, s := RunThen(s0, run, s, TaskWrites(0));
    RelArrives(s);
    run, s := RunThen(s0, run, s, BrokerAcks(RelOf(7)));
    Released7(s);
    run, s := RunThen(s0, run, s, TaskReads(0));
    Affirms7(s);
    run, s := RunThen(s0, run, s, TaskDispatches(0));
    Completes7(s);
    run, s := RunThen(s0, run, s, TaskWrites(0));
  }

  lemma RelArrives(s: System)
    requires s.acks == []
    ensures Next(s, BrokerAcks(RelOf(7))) == s.(acks := [RelOf(7)])
  {
  }

  /**
   So a completed QoS 2 message can still be lost: without automatic reconnection the broker closes the connection
   after PUBCOMP and before the hub has come to the affirmation. Nothing that happens later delivers it.
   */
  lemma CompletedThenLost() returns (run: seq<Action>)
    ensures WrotePubComp(0) in Run(false, run).written
    ensures forall after :: var s' := RunFrom(Run(false, run), after);
                            0 !in s'.delivered && 7 in s'.hub.rxPublishId
  {
    var s: System;
    run, s := Completed7Reached();
    Disconnects7(s);
    run, s := RunThen(Init(false), run, s, HubNetwork(BrokerDisconnect));
    FreshInEveryRun(false, run);
    ReceiveInEveryRun(false, run);
    hide RunFrom, Init, Ahead, Fresh, ReceiveInv, Takes;
    forall after ensures var s' := RunFrom(s, after); 0 !in s'.delivered && 7 in s'.hub.rxPublishId {
      HaltedTakesNothing(s, after);
      DeliveredExactlyWhenTaken(s, after, 7, 0, 0);
      StoppedForever(s, after);
    }
  }

  // ----- PUBACK written: still carried, or left behind -----

  ghost predicate Affirming(s: System, t: nat, m: nat) {
    && t in s.tasks && s.tasks[t].Receive? && !s.tasks[t].qos2
    && s.tasks[t].receivePc.Affirm? && s.tasks[t].uid == m
  }

  /** Delivered, or its affirmation is queued, or a task is about to queue it: whether the hub comes to it or not. */
  ghost predicate Carried(s: System, m: nat) {
    m in s.delivered || (exists x, k: nat :: Ahead(s, x, m, k)) || (exists t :: Affirming(s, t, m))
  }

  /** Held, with nothing left that could deliver it. */
  ghost predicate Lost(s: System, m: nat) {
    exists x :: Holds(s, x, m) && Stranded(s, x)
  }

  /** The QoS 1 task of message m ends on the receipt of its PUBACK, which has gone out. */
  ghost predicate DiesUnanswered(s: System, a: Action, m: nat) {
    && a.TaskDies? && a.wrote && a.task in s.tasks && s.tasks[a.task].Receive? && !s.tasks[a.task].qos2
    && s.tasks[a.task].receivePc.First? && s.tasks[a.task].uid == m
  }

  lemma AffirmingTurn(s: System, a: Action, t: nat, m: nat)
    requires Fresh(s) && ReceiveInv(s) && Affirming(s, t, m)
    ensures Carried(Next(s, a), m)
  {
    if a.TaskDispatches? && a.task == t {
      AffirmingTells(s, t, m);
    } else {
      AffirmingStays(s, a, t, m);
    }
    hide Next, Fresh, ReceiveInv, Ahead, Affirming;
  }

  /** A task that sends its affirmation puts it behind everything queued. */
  lemma AffirmingTells(s: System, t: nat, m: nat)
    requires ReceiveInv(s) && t in s.tasks && s.tasks[t].Receive? && s.tasks[t].receivePc.Affirm? && s.tasks[t].uid == m
    ensures Ahead(Next(s, TaskDispatches(t)), s.tasks[t].id, m, |s.queue|)
  {
    var x := s.tasks[t].id;
    assert TaskOk(s, s.tasks[t]);
    NextQueue(s, TaskDispatches(t));
    NextHub(s, TaskDispatches(t));
    NoneQueued(s, x);
    hide Next, ReceiveInv, AffirmsIn;
    assert Appended(s, TaskDispatches(t)) == [FromTask(AffirmRxPublish(x), NoTag)];
  }

  lemma AffirmingStays(s: System, a: Action, t: nat, m: nat)
    requires Fresh(s) && Affirming(s, t, m) && !(a.TaskDispatches? && a.task == t)
    ensures Affirming(Next(s, a), t, m)
  {
    NextTasks(s, a);
    hide Next, Started, Spawn;
  }

  lemma NoneQueued(s: System, x: u16)
    requires AffirmsIn(s.queue, x) == []
    ensures forall i :: 0 <= i < |s.queue| ==> !IsAffirm(s.queue[i], x)
  {
    AffirmIsThere(s.queue, x);
    assert FirstAffirm(s.queue, x) == |s.queue|;
  }

  /** What is carried stays carried, through every step. */
  lemma StepCarried(s: System, a: Action, m: nat)
    requires Fresh(s) && ReceiveInv(s) && Carried(s, m)
    ensures Carried(Next(s, a), m)
  {
    OnlyMore(s, a);
    hide Next, Ahead, ReceiveInv, Affirming;
    if m in s.delivered {
    } else if t :| Affirming(s, t, m) {
      AffirmingTurn(s, a, t, m);
    } else {
      var x, k: nat :| Ahead(s, x, m, k);
      StepAhead(s, a, x, m, k);
    }
  }

  lemma StepLost(s: System, a: Action, m: nat)
    requires Fresh(s) && ReceiveInv(s) && Lost(s, m)
    ensures Lost(Next(s, a), m)
  {
    hide Next, ReceiveInv, AffirmsIn;
    var x :| Holds(s, x, m) && Stranded(s, x);
    StepIdle(s, a, x);
    assert Holds(Next(s, a), x, m) && Stranded(Next(s, a), x);
  }

  lemma NeverBoth(s: System, m: nat)
    requires ReceiveInv(s)
    ensures !(Carried(s, m) && Lost(s, m))
  {
    if Lost(s, m) {
      var x :| Holds(s, x, m) && Stranded(s, x);
      NoneQueued(s, x);
      HeldIsUndelivered(s);
      forall x', k: nat ensures !Ahead(s, x', m, k) {
        assert Ahead(s, x', m, k) ==> x' == x;
      }
      forall t ensures !Affirming(s, t, m) {
      }
    }
  }

  /** PUBACK is written first by a task at its first position, which then affirms, or dies on the receipt. */
  lemma FirstPubAck(s: System, a: Action, m: nat)
    requires Fresh(s) && ReceiveInv(s) && WrotePubAck(m) !in s.written && WrotePubAck(m) in Next(s, a).written
    ensures if DiesUnanswered(s, a, m) then Lost(Next(s, a), m) else Carried(Next(s, a), m)
  {
    NextWritten(s, a);
    NextTasks(s, a);
    NextQueue(s, a);
    NextHub(s, a);
    hide Next, AffirmsIn, MessagesOk, IdOk;
    assert WrotePubAck(m) in WrittenBy(s, a);
    var t := s.tasks[a.task];
    assert t.Receive? && t.uid == m && !t.qos2 && t.receivePc.First?;
    assert TaskOk(s, t);
    assert s.queue + [] == s.queue;
    if a.TaskWrites? {
      assert Affirming(Next(s, a), a.task, m);
    } else {
      assert NoTask(Next(s, a), t.id);
      assert Holds(Next(s, a), t.id, m) && Stranded(Next(s, a), t.id);
    }
  }

  lemma DeathLoses(s: System, a: Action, m: nat)
    requires Fresh(s) && ReceiveInv(s) && DiesUnanswered(s, a, m)
    ensures Lost(Next(s, a), m)
  {
    NextTasks(s, a);
    NextQueue(s, a);
    NextHub(s, a);
    hide Next, AffirmsIn, MessagesOk, IdOk;
    var t := s.tasks[a.task];
    assert TaskOk(s, t);
    assert s.queue + [] == s.queue;
    assert NoTask(Next(s, a), t.id);
    assert Holds(Next(s, a), t.id, m) && Stranded(Next(s, a), t.id);
  }

  /** At some point of the run the task of message m dies like that. */
  ghost predicate DiedUnanswered(autoReconnect: bool, actions: seq<Action>, m: nat)
    decreases |actions|
  {
    actions != []
    && (DiedUnanswered(autoReconnect, actions[..|actions| - 1], m)
        || DiesUnanswered(Run(autoReconnect, actions[..|actions| - 1]), actions[|actions| - 1], m))
  }

  /**
   After PUBACK, over every run: the message is delivered or carried, or else it is left behind; and it is left behind
   exactly if the task that wrote its PUBACK died on the receipt. When a carried message is never delivered either is
   said in module Fates.
   */
  lemma {:induction false} AcknowledgedFate(autoReconnect: bool, actions: seq<Action>, m: nat)
    ensures var s := Run(autoReconnect, actions);
            && (WrotePubAck(m) in s.written ==> (Carried(s, m) <==> !Lost(s, m)))
            && (WrotePubAck(m) in s.written && Lost(s, m) <==> DiedUnanswered(autoReconnect, actions, m))
    decreases |actions|
  {
    if actions != [] {
      var init, a := actions[..|actions| - 1], actions[|actions| - 1];
      var s := Run(autoReconnect, init);
      AcknowledgedFate(autoReconnect, init, m);
      FreshInEveryRun(autoReconnect, init);
      ReceiveInEveryRun(autoReconnect, init);
      hide Next, ReceiveInv, Fresh, Carried, Lost, DiesUnanswered;
      StepFate(s, a, m);
    }
  }

  lemma StepFate(s: System, a: Action, m: nat)
    requires Fresh(s) && ReceiveInv(s)
    requires WrotePubAck(m) in s.written ==> (Carried(s, m) <==> !Lost(s, m))
    ensures var s' := Next(s, a);
            && (WrotePubAck(m) in s'.written ==> (Carried(s', m) <==> !Lost(s', m)))
            && (WrotePubAck(m) in s'.written && Lost(s', m)
                <==> (WrotePubAck(m) in s.written && Lost(s, m)) || DiesUnanswered(s, a, m))
  {
    var s' := Next(s, a);
    OnlyMore(s, a);
    StepReceive(s, a);
    NeverBoth(s', m);
    hide ReceiveInv, Fresh, Carried, Lost;
    if DiesUnanswered(s, a, m) {
      DeathLoses(s, a, m);
      DeathWrites(s, a, m);
    }
    hide Next, DiesUnanswered;
    if WrotePubAck(m) in s.written {
      if Lost(s, m) {
        StepLost(s, a, m);
      } else {
        StepCarried(s, a, m);
      }
    } else if WrotePubAck(m) in s'.written {
      FirstPubAck(s, a, m);
    }
  }

  lemma DeathWrites(s: System, a: Action, m: nat)
    requires DiesUnanswered(s, a, m)
    ensures WrotePubAck(m) in Next(s, a).written
  {
    NextWritten(s, a);
    hide Next;
    assert WrittenBy(s, a) == [WrotePubAck(m)];
    assert (s.written + [WrotePubAck(m)])[|s.written|] == WrotePubAck(m);
  }

  /** What lost means: no later step delivers it or frees its id. */
  lemma LostForGood(autoReconnect: bool, before: seq<Action>, m: nat, after: seq<Action>)
    requires Lost(Run(autoReconnect, before), m)
    ensures m !in RunFrom(Run(autoReconnect, before), after).delivered
    ensures Lost(RunFrom(Run(autoReconnect, before), after), m)
  {
    var s := Run(autoReconnect, before);
    FreshInEveryRun(autoReconnect, before);
    ReceiveInEveryRun(autoReconnect, before);
    hide Run, RunFrom, ReceiveInv, Fresh, Stranded;
    var x :| Holds(s, x, m) && Stranded(s, x);
    StrandedForever(s, after, x);
    assert Holds(RunFrom(s, after), x, m) && Stranded(RunFrom(s, after), x);
  }
}
