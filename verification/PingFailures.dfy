/** What a ping failure that is reported twice does: it ends the connection it is about, and then the next one. */
module PingFailures {
  import opened Wire
  import opened HubSteps
  import opened Session
  import opened Projections
  import opened KeepAliveChain
  import opened Deliveries

  lemma FailureEnds(s: System)
    requires s.hub.phase.Connected? && s.queue != [] && IsPingFail(s.queue[0])
    ensures Next(s, HubTakes).hub.phase == ToDisconnect(PingFailed) && Next(s, HubTakes).queue == s.queue[1..]
  {
    NextHub(s, HubTakes);
    NextQueue(s, HubTakes);
    TakeKeeps(s);
    hide Next, HubNext;
  }

  /** A failed ping with j events in front of it ends the connection on which the hub comes to it. */
  lemma FailureEndsItsConnection(s: System, actions: seq<Action>, j: nat)
    requires j < |s.queue| && IsPingFail(s.queue[j])
    requires Takes(s, actions) == j && RunFrom(s, actions).hub.phase.Connected?
    ensures Next(RunFrom(s, actions), HubTakes).hub.phase == ToDisconnect(PingFailed)
    ensures Next(RunFrom(s, actions), HubTakes).queue == RunFrom(s, actions).queue[1..]
  {
    hide RunFrom, Takes, Next;
    EventWaits(s, actions, j);
    FailureEnds(RunFrom(s, actions));
  }

  /** A successful connection attempt in a run. */
  ghost predicate Reconnects(s: System, actions: seq<Action>) {
    exists n :: 0 <= n < |actions| && RunFrom(s, actions[..n]).hub.phase.ToConnect?
                && actions[n].HubConnects? && actions[n].event.NetConnected?
  }

  lemma OnlyConnects(s: System, a: Action)
    requires !s.hub.phase.Connected? && Next(s, a).hub.phase.Connected?
    ensures s.hub.phase.ToConnect? && a.HubConnects? && a.event.NetConnected?
  {
    NextHub(s, a);
    hide Next;
  }

  lemma {:induction false} ConnectedAgain(s: System, actions: seq<Action>)
    requires !s.hub.phase.Connected? && RunFrom(s, actions).hub.phase.Connected?
    ensures Reconnects(s, actions)
    decreases |actions|
  {
    NothingTaken(s);
    assert actions != [];
    var n := |actions| - 1;
    var init, a := actions[..n], actions[n];
    assert actions == init + [a];
    RunSnoc(s, init, a);
    hide RunFrom, Next;
    if RunFrom(s, init).hub.phase.Connected? {
      ConnectedAgain(s, init);
      var k :| 0 <= k < n && RunFrom(s, init[..k]).hub.phase.ToConnect? && init[k].HubConnects?
               && init[k].event.NetConnected?;
      assert actions[..k] == init[..k] && actions[k] == init[k];
    } else {
      OnlyConnects(RunFrom(s, init), a);
    }
  }

  /**
   Of two failed pings anywhere in the queue, each ends a connection, and not the same one: when the hub comes to the
   second, it has been connected again since the first.
   */
  lemma SecondFailureEndsAnotherConnection(s: System, first: seq<Action>, between: seq<Action>, i: nat, j: nat)
    requires i < j < |s.queue| && IsPingFail(s.queue[i]) && IsPingFail(s.queue[j])
    requires Takes(s, first) == i && RunFrom(s, first).hub.phase.Connected?
    requires var s1 := Next(RunFrom(s, first), HubTakes);
             Takes(s1, between) == j - i - 1 && RunFrom(s1, between).hub.phase.Connected?
    ensures var s1 := Next(RunFrom(s, first), HubTakes);
            && s1.hub.phase == ToDisconnect(PingFailed)
            && Reconnects(s1, between)
            && Next(RunFrom(s1, between), HubTakes).hub.phase == ToDisconnect(PingFailed)
  {
    hide RunFrom, Takes, Next, Reconnects;
    FailureEndsItsConnection(s, first, i);
    EventWaits(s, first, j);
    var s1 := Next(RunFrom(s, first), HubTakes);
    ConnectedAgain(s1, between);
    FailureEndsItsConnection(s1, between, j - i - 1);
  }

  // ----- It happens -----

  /** Connected for the first time; the ping task stands as given. */
  ghost predicate Pinging(s: System, t: Option<Task>, failures: nat) {
    && s.hub.phase.Connected? && s.hub.autoReconnect && |s.queue| == failures
    && (forall i :: 0 <= i < failures ==> s.queue[i] == FromTask(PingFail, NoTag))
    && s.tasks == if t.Some? then map[0 := t.value] else map[]
  }

  lemma TimerStarts()
    ensures var s := Next(Init(true), HubConnects(NetConnected(false)));
            Pinging(s, None, 0) && s.sleeping == [1] && s.hub.clock == 1 && s.nextTask == 0
  {
    var s0, a := Init(true), HubConnects(NetConnected(false));
    hide FullRing, Spawn;
    NextHub(s0, a);
    NextTasks(s0, a);
    NextQueue(s0, a);
    NextTimers(s0, a);
    hide Next;
  }

  lemma TimerEnds(s: System)
    requires s.sleeping == [1] && s.queue == []
    ensures Next(s, TimerFires(0)) == s.(queue := [FromTask(KeepAlive(1), NoTag)], sleeping := [])
  {
  }

  lemma PingStarts(s: System)
    requires Pinging(s.(queue := []), None, 0) && s.hub.clock == 1 && s.nextTask == 0
    requires s.queue == [FromTask(KeepAlive(1), NoTag)]
    ensures Pinging(Next(s, HubTakes), Some(Ping(true, 3)), 0)
  {
    NextHub(s, HubTakes);
    NextTasks(s, HubTakes);
    NextQueue(s, HubTakes);
    hide Next;
    assert Started(s, HubTakes) == [Ping(true, 3)];
    hide Started;
  }

  lemma SendFails(s: System, budget: nat)
    requires Pinging(s, Some(Ping(true, budget)), 0)
    ensures var s' := Next(s, PingTurns(0, false));
            if budget > 1 then Pinging(s', Some(Ping(true, budget - 1)), 0) else Pinging(s', Some(Ping(false, 0)), 1)
  {
  }

  lemma PingGivesUp(s: System)
    requires Pinging(s, Some(Ping(false, 0)), 1)
    ensures Pinging(Next(s, PingTurns(0, false)), None, 2)
  {
    assert map[0 := Ping(false, 0)] - {0} == map[];
  }

  /** A reachable state with both failures at the front, after three sends of one ping have failed. */
  lemma FailureIsDoubled() returns (run: seq<Action>)
    ensures var s := Run(true, run);
            Taking(s, HubTakes) && |s.queue| == 2 && IsPingFail(s.queue[0]) && IsPingFail(s.queue[1])
  {
    var s0, s := Init(true), Init(true);
    NothingTaken(s0);
    hide RunFrom, Next, Init;
    TimerStarts();
    run, s := RunThen(s0, [], s0, HubConnects(NetConnected(false)));
    TimerEnds(s);
    run, s := RunThen(s0, run, s, TimerFires(0));
    PingStarts(s);
    run, s := RunThen(s0, run, s, HubTakes);
    SendFails(s, 3);
    run, s := RunThen(s0, run, s, PingTurns(0, false));
    SendFails(s, 2);
    run, s := RunThen(s0, run, s, PingTurns(0, false));
    SendFails(s, 1);
    run, s := RunThen(s0, run, s, PingTurns(0, false));
    PingGivesUp(s);
    run, s := RunThen(s0, run, s, PingTurns(0, false));
  }
}
