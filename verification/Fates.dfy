/**
 The exact fate of every incoming message the hub has accepted, at either QoS and wherever its task stands: in which
 states no continuation delivers it any more.
 */
module Fates {
  import opened Wire
  import opened PublishPacket
  import opened HubSteps
  import opened Session
  import opened Projections
  import opened Receiving
  import opened Lifecycle
  import opened Deliveries

  ghost predicate NeverDelivered(s: System, m: nat) {
    forall after :: m !in RunFrom(s, after).delivered
  }

  /** A task of message m that has not sent its affirmation yet. */
  ghost predicate Working(s: System, t: nat, m: nat) {
    t in s.tasks && s.tasks[t].Receive? && s.tasks[t].uid == m && BeforeAffirm(s.tasks[t])
  }

  /**
   Left behind by its task; or the hub has stopped for good, or is bound to before it has taken what is in front of the
   affirmation: everything queued, if the affirmation is still to be sent.
   */
  ghost predicate Doomed(s: System, m: nat) {
    || Lost(s, m)
    || (exists x, k: nat :: Ahead(s, x, m, k) && Blocked(s, k))
    || (exists t :: Working(s, t, m) && Blocked(s, |s.queue|))
  }

  // ----- Where a held message can be -----

  lemma WorkingHolds(s: System, t: nat, m: nat)
    requires ReceiveInv(s) && Working(s, t, m)
    ensures Holds(s, s.tasks[t].id, m) && AffirmsIn(s.queue, s.tasks[t].id) == []
  {
    assert TaskOk(s, s.tasks[t]);
  }

  lemma HeldPlace(s: System, x: u16, m: nat)
    requires ReceiveInv(s) && Holds(s, x, m)
    ensures Lost(s, m) || (exists x, k: nat :: Ahead(s, x, m, k)) || (exists t :: Working(s, t, m))
  {
    assert IdOk(s, x);
    HeldIsUndelivered(s);
    hide AffirmsIn, MessagesOk, CompletedOk;
    if AffirmsIn(s.queue, x) != [] {
      SecuredIsAhead(s, x, m);
    } else if t :| t in s.tasks && s.tasks[t].Receive? && s.tasks[t].id == x {
      assert TaskOk(s, s.tasks[t]);
      assert Working(s, t, m);
    } else {
      assert Stranded(s, x);
    }
  }

  // ----- Not before n events have been taken -----

  /** The hub holds the message, and none of the first n events delivers it. */
  ghost predicate NotBefore(s: System, x: u16, m: nat, n: nat) {
    Holds(s, x, m) && n <= |s.queue| && forall i :: 0 <= i < n ==> !IsAffirm(s.queue[i], x)
  }

  lemma StepNotBefore(s: System, a: Action, x: u16, m: nat, n: nat)
    requires ReceiveInv(s) && NotBefore(s, x, m, n) && (Taking(s, a) ==> n > 0)
    ensures NotBefore(Next(s, a), x, m, if Taking(s, a) then n - 1 else n)
  {
    NextQueue(s, a);
    StepHolds(s, a, x, m);
    hide Next, ReceiveInv, Appended;
  }

  lemma {:induction false} StaysNotBefore(s: System, actions: seq<Action>, x: u16, m: nat, n: nat)
    requires Fresh(s) && ReceiveInv(s) && NotBefore(s, x, m, n)
    ensures var s' := RunFrom(s, actions);
            Fresh(s') && ReceiveInv(s') && (Takes(s, actions) <= n ==> NotBefore(s', x, m, n - Takes(s, actions)))
    decreases |actions|
  {
    hide RunFrom, Takes, Taking, ReceiveInv, Fresh, NotBefore, Next;
    if actions == [] {
      NothingTaken(s);
    } else {
      var init, a := actions[..|actions| - 1], actions[|actions| - 1];
      assert actions == init + [a];
      RunSnoc(s, init, a);
      TakesSnoc(s, init, a);
      StaysNotBefore(s, init, x, m, n);
      var mid := RunFrom(s, init);
      StepFresh(mid, a);
      StepReceive(mid, a);
      if Takes(s, actions) <= n {
        StepNotBefore(mid, a, x, m, n - Takes(s, init));
      }
    }
  }

  lemma BlockedNeverDelivers(s: System, x: u16, m: nat, n: nat)
    requires Fresh(s) && ReceiveInv(s) && NotBefore(s, x, m, n) && Blocked(s, n)
    ensures NeverDelivered(s, m)
  {
    hide RunFrom, Takes, Fresh, ReceiveInv, Blocked;
    forall after ensures m !in RunFrom(s, after).delivered {
      BlockedTakesFew(s, after, n);
      StaysNotBefore(s, after, x, m, n);
      HeldIsUndelivered(RunFrom(s, after));
    }
  }

  // ----- A task gets to its affirmation if the network lets it -----

  /** The same hub and queue, and the task stands at its affirmation. */
  ghost predicate ReadyToAffirm(s: System, s': System, t: nat, m: nat) {
    && s'.hub == s.hub && s'.queue == s.queue
    && t in s'.tasks && s'.tasks[t].Receive? && s'.tasks[t].receivePc.Affirm? && s'.tasks[t].uid == m
  }

  /** With its PUBREL in the log behind the cursor, the task reads until it finds one. */
  lemma {:induction false} ReadsToAffirm(s: System, t: nat, m: nat) returns (run: seq<Action>)
    requires Working(s, t, m) && s.tasks[t].receivePc.AwaitRel?
    requires s.tasks[t].receiveCursor < |s.acks| && s.acks[|s.acks| - 1] == RelOf(s.tasks[t].id)
    ensures ReadyToAffirm(s, RunFrom(s, run), t, m)
    decreases |s.acks| - s.tasks[t].receiveCursor
  {
    var s' := Next(s, TaskReads(t));
    if s.acks[s.tasks[t].receiveCursor] == RelOf(s.tasks[t].id) {
      run := [TaskReads(t)];
      RunOne(s, TaskReads(t));
    } else {
      var more := ReadsToAffirm(s', t, m);
      run := [TaskReads(t)] + more;
      RunOne(s, TaskReads(t));
      RunAppend(s, [TaskReads(t)], more);
    }
  }

  /** The broker sends PUBREL until one lies at or behind the cursor. */
  lemma {:induction false} RelComes(s: System, t: nat, m: nat) returns (run: seq<Action>)
    requires Working(s, t, m) && s.tasks[t].receivePc.AwaitRel?
    ensures ReadyToAffirm(s, RunFrom(s, run), t, m)
    decreases if s.tasks[t].receiveCursor < |s.acks| then 0 else s.tasks[t].receiveCursor - |s.acks| + 1
  {
    var a := BrokerAcks(RelOf(s.tasks[t].id));
    var s', more := Next(s, a), [];
    if s.tasks[t].receiveCursor <= |s.acks| {
      more := ReadsToAffirm(s', t, m);
    } else {
      more := RelComes(s', t, m);
    }
    run := [a] + more;
    RunOne(s, a);
    RunAppend(s, [a], more);
  }

  lemma WritesToAffirm(s: System, t: nat, m: nat) returns (run: seq<Action>)
    requires Working(s, t, m)
    ensures ReadyToAffirm(s, RunFrom(s, run), t, m)
  {
    var pc, s' := s.tasks[t].receivePc, Next(s, TaskWrites(t));
    if pc.Affirm? {
      run := [];
      NothingTaken(s);
    } else if pc.AwaitRel? {
      run := RelComes(s, t, m);
    } else {
      RunOne(s, TaskWrites(t));
      if s.tasks[t].qos2 {
        var more := RelComes(s', t, m);
        run := [TaskWrites(t)] + more;
        RunAppend(s, [TaskWrites(t)], more);
      } else {
        run := [TaskWrites(t)];
      }
    }
  }

  lemma WorkingIsNotBefore(s: System, t: nat, m: nat)
    requires ReceiveInv(s) && Working(s, t, m)
    ensures NotBefore(s, s.tasks[t].id, m, |s.queue|)
  {
    WorkingHolds(s, t, m);
    NoneQueued(s, s.tasks[t].id);
    hide ReceiveInv, AffirmsIn;
  }

  /** The affirmation goes behind what was queued, so it adds no failed ping in front of itself. */
  lemma StillUnblocked(s: System, t: nat)
    requires t in s.tasks && !Blocked(s, |s.queue|)
    ensures !Blocked(Next(s, TaskDispatches(t)), |s.queue|)
  {
    NextHub(s, TaskDispatches(t));
    NextQueue(s, TaskDispatches(t));
    hide Next, Appended;
  }

  /** A task that is not blocked gets there in some run. */
  lemma WorkingDelivers(s: System, t: nat, m: nat) returns (run: seq<Action>)
    requires Fresh(s) && ReceiveInv(s) && Working(s, t, m) && !Blocked(s, |s.queue|)
    ensures m in RunFrom(s, run).delivered
  {
    WorkingIsNotBefore(s, t, m);
    var start := WritesToAffirm(s, t, m);
    var s1 := RunFrom(s, start);
    StaysNotBefore(s, start, s.tasks[t].id, m, |s.queue|);
    hide ReceiveInv, Fresh, RunFrom, Working, NotBefore;
    AffirmingTells(s1, t, m);
    StillUnblocked(s1, t);
    StepFresh(s1, TaskDispatches(t));
    StepReceive(s1, TaskDispatches(t));
    hide Next, Blocked, Ahead;
    AheadFate(Next(s1, TaskDispatches(t)), s1.tasks[t].id, m, |s1.queue|);
    var after :| m in RunFrom(Next(s1, TaskDispatches(t)), after).delivered;
    run := start + [TaskDispatches(t)] + after;
    RunSnoc(s, start, TaskDispatches(t));
    RunAppend(s, start + [TaskDispatches(t)], after);
  }

  lemma WorkingFate(s: System, t: nat, m: nat)
    requires Fresh(s) && ReceiveInv(s) && Working(s, t, m)
    ensures NeverDelivered(s, m) <==> Blocked(s, |s.queue|)
  {
    if Blocked(s, |s.queue|) {
      WorkingIsNotBefore(s, t, m);
      BlockedNeverDelivers(s, s.tasks[t].id, m, |s.queue|);
    } else {
      var run := WorkingDelivers(s, t, m);
    }
  }

  // ----- The fate of every accepted message -----

  lemma LostIsNever(s: System, m: nat)
    requires Fresh(s) && ReceiveInv(s) && Lost(s, m)
    ensures NeverDelivered(s, m)
  {
    var x :| Holds(s, x, m) && Stranded(s, x);
    hide RunFrom, Fresh, ReceiveInv, Holds, Stranded;
    forall after ensures m !in RunFrom(s, after).delivered {
      StrandedForever(s, after, x);
    }
  }

  lemma DoomedIsNever(s: System, m: nat)
    requires Fresh(s) && ReceiveInv(s) && Doomed(s, m)
    ensures NeverDelivered(s, m)
  {
    hide Fresh, ReceiveInv, Lost, Ahead, Blocked, Working, RunFrom;
    if Lost(s, m) {
      LostIsNever(s, m);
    } else if x, k: nat :| Ahead(s, x, m, k) && Blocked(s, k) {
      AheadFate(s, x, m, k);
    } else {
      var t :| Working(s, t, m) && Blocked(s, |s.queue|);
      WorkingFate(s, t, m);
    }
  }

  lemma NeverIsDoomed(s: System, x: u16, m: nat)
    requires Fresh(s) && ReceiveInv(s) && Holds(s, x, m) && NeverDelivered(s, m)
    ensures Doomed(s, m)
  {
    HeldPlace(s, x, m);
    hide Fresh, ReceiveInv, Lost, Ahead, Blocked, Working, RunFrom;
    if Lost(s, m) {
    } else if y, k: nat :| Ahead(s, y, m, k) {
      AheadFate(s, y, m, k);
    } else {
      var t :| Working(s, t, m);
      WorkingFate(s, t, m);
    }
  }

  /** Taken by the hub at QoS 1 or 2: delivered, or held for its task. */
  ghost predicate Accepted(s: System, m: nat) {
    m in s.delivered || exists x :: Holds(s, x, m)
  }

  /** The broker has had an answer for it. */
  ghost predicate AnsweredFor(s: System, m: nat) {
    WrotePubAck(m) in s.written || WrotePubRec(m) in s.written || WrotePubComp(m) in s.written
  }

  lemma StepAccepted(s: System, a: Action, m: nat)
    requires ReceiveInv(s) && Accepted(s, m)
    ensures Accepted(Next(s, a), m)
  {
    OnlyMore(s, a);
    if m !in s.delivered {
      var x :| Holds(s, x, m);
      if Taking(s, a) && IsAffirm(s.queue[0], x) {
        NextDelivered(s, a);
        hide Next, ReceiveInv;
        assert DeliveredBy(s, a) == [m];
        assert Next(s, a).delivered[|s.delivered|] == m;
      } else {
        StepHolds(s, a, x, m);
      }
    }
  }

  /** Only the task of an accepted message answers for it. */
  lemma AnswersAccepted(s: System, a: Action, m: nat)
    requires ReceiveInv(s) && !AnsweredFor(s, m) && AnsweredFor(Next(s, a), m)
    ensures Accepted(s, m)
  {
    NextWritten(s, a);
    hide Next, AffirmsIn, MessagesOk, IdOk, CompletedOk;
    var t := s.tasks[a.task];
    assert t.Receive? && t.uid == m;
    assert TaskOk(s, t);
    assert Holds(s, t.id, m) || m in s.delivered;
  }

  lemma {:induction false} AnsweredIsAccepted(autoReconnect: bool, actions: seq<Action>, m: nat)
    ensures var s := Run(autoReconnect, actions); AnsweredFor(s, m) ==> Accepted(s, m)
    decreases |actions|
  {
    if actions != [] {
      var init, a := actions[..|actions| - 1], actions[|actions| - 1];
      var s := Run(autoReconnect, init);
      hide Next, ReceiveInv, Accepted, AnsweredFor;
      AnsweredIsAccepted(autoReconnect, init, m);
      ReceiveInEveryRun(autoReconnect, init);
      if AnsweredFor(Next(s, a), m) {
        if !AnsweredFor(s, m) {
          AnswersAccepted(s, a, m);
        }
        StepAccepted(s, a, m);
      }
    }
  }

  /**
   Over every run, for every message the hub has accepted, and so for every one that a PUBACK, PUBREC or PUBCOMP has
   been written for: no continuation delivers it if and only if it is doomed.
   */
  lemma AcceptedFate(autoReconnect: bool, before: seq<Action>, m: nat)
    requires Accepted(Run(autoReconnect, before), m) || AnsweredFor(Run(autoReconnect, before), m)
    ensures NeverDelivered(Run(autoReconnect, before), m) <==> Doomed(Run(autoReconnect, before), m)
  {
    var s := Run(autoReconnect, before);
    AnsweredIsAccepted(autoReconnect, before, m);
    FreshInEveryRun(autoReconnect, before);
    ReceiveInEveryRun(autoReconnect, before);
    NothingTaken(s);
    hide Run, RunFrom, Fresh, ReceiveInv, Doomed, AnsweredFor;
    if Doomed(s, m) {
      DoomedIsNever(s, m);
    } else if NeverDelivered(s, m) {
      assert m !in RunFrom(s, []).delivered;
      var x :| Holds(s, x, m);
      NeverIsDoomed(s, x, m);
    }
  }

  // ----- PUBACK written, the task alive, and never delivered -----

  lemma PubAckReached() returns (run: seq<Action>, s: System)
    ensures RunFrom(Init(false), run) == s && Receiving7(s, false, Affirm, 0) && WrotePubAck(0) in s.written
  {
    var s0 := Init(false);
    NothingTaken(s0);
    hide RunFrom, Next, Init;
    Connects7();
    run, s := RunThen(s0, [], s0, HubConnects(NetConnected(false)));
    Arrives7(s, AtLeastOnce(7));
    run, s := RunThen(s0, run, s, BrokerPublishes(AtLeastOnce(7)));
    Accepts7(s, false);
    run, s := RunThen(s0, run, s, HubTakes);
    Answers7(s, false);
    var written := s.written;
    run, s := RunThen(s0, run, s, TaskWrites(0));
    assert s.written[|written|] == WrotePubAck(0);
  }

  lemma ClosesOnAffirm(s: System)
    requires Receiving7(s, false, Affirm, 0)
    ensures var s' := Next(s, HubNetwork(BrokerDisconnect));
            && s'.hub.phase.Disconnected? && 7 in s'.hub.rxPublishId && s'.written == s.written
            && Affirming(s', 0, 0) && Working(s', 0, 0)
  {
  }

  /**
   The counterpart of CompletedThenLost for QoS 1: the task is alive and about to affirm, so the message is not left
   behind, but without automatic reconnection a broker that closes the connection right after PUBACK has stopped the
   hub. Nothing that happens later delivers the message or frees its id.
   */
  lemma AcknowledgedThenClosed() returns (run: seq<Action>)
    ensures var s := Run(false, run);
            && WrotePubAck(0) in s.written && Carried(s, 0) && !Lost(s, 0) && !DiedUnanswered(false, run, 0)
            && forall after :: 0 !in RunFrom(s, after).delivered && 7 in RunFrom(s, after).hub.rxPublishId
  {
    var s: System;
    run, s := PubAckReached();
    ClosesOnAffirm(s);
    run, s := RunThen(Init(false), run, s, HubNetwork(BrokerDisconnect));
    AcknowledgedFate(false, run, 0);
    AcceptedFate(false, run, 0);
    hide RunFrom, Init, Next, Lost, DiedUnanswered, Working, Affirming;
    assert Doomed(s, 0);
    forall after ensures 0 !in RunFrom(s, after).delivered && 7 in RunFrom(s, after).hub.rxPublishId {
      StoppedForever(s, after);
    }
  }
}
