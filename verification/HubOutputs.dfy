/** What the hub hands out, and when: to tasks, to the network and to the user; and where it goes. */
module HubOutputs {
  import opened Wire
  import opened PublishPacket
  import opened HubSteps
  import opened Session
  import opened Projections
  import opened PacketIds
  import opened RequestLog
  import opened Lifecycle

  // ----- Requests of the user -----

  /** A QoS 0 publish is handed to a task that sends it once, with its own trace; the hub keeps nothing. */
  lemma QoS0Request(s: System)
    requires Taking(s, HubTakes) && s.queue[0] == FromClient(ReqQoS0)
    ensures Next(s, HubTakes) == s.(queue := s.queue[1..])
    ensures EffectsBy(s, HubTakes) == Effects([], [|s.log|], [], 0, [], [], [], false, false)
  {
    assert s.sleeping + [] == s.sleeping && s.delivered + [] == s.delivered;
    assert SendTasks([], |s.acks|) + [] == [];
  }

  /** What each other request is kept as, and the kind of packet its task sends. */
  lemma RequestAccepted(s: System)
    requires Taking(s, HubTakes) && s.queue[0].FromClient? && s.queue[0].request != ReqQoS0 && s.hub.ring != []
    ensures var s', id, u := Next(s, HubTakes), s.hub.ring[0], |s.log|;
            var (entry: Entry<nat>, kind) := match s.queue[0].request
                                 case ReqQoS1 => (PublishQoS1(id, u), Publish1)
                                 case ReqQoS2 => (PublishQoS2(id, u), Publish2)
                                 case ReqSubscribe => (Subscribe(id, u), Subscribing)
                                 case _ => (Unsubscribe(id, u), Unsubscribing);
            && s'.hub == s.hub.(ring := s.hub.ring[1..], clientData := s.hub.clientData + [entry])
            && s'.log == s.log + [Request(kind, id, Open)]
            && s'.tasks == s.tasks[s.nextTask := Send(kind, id, u, Start, |s.acks|)] && s'.nextTask == s.nextTask + 1
  {
    NextHub(s, HubTakes);
    NextLog(s, HubTakes);
    NextTasks(s, HubTakes);
    hide Next;
    var entry := NewEntry(s.queue[0].request, s.hub.ring[0], |s.log|);
    OneToSend(entry, |s.acks|);
    OneStarts(s.tasks, s.nextTask, SendTask(entry, |s.acks|));
  }

  // ----- Packet ids that come back -----

  /** In every run, a RecoverId for the id of an unfinished request concerns that request. */
  lemma HolderIs(autoReconnect: bool, actions: seq<Action>, u: nat)
    requires var log := Run(autoReconnect, actions).log; u < |log| && log[u].status != Closed
    ensures var s := Run(autoReconnect, actions);
            var i := Find(s.hub.clientData, s.log[u].id);
            && Holder(s.log, 0, s.log[u].id) == u
            && i < |s.hub.clientData| && s.hub.clientData[i] == EntryOf(s.log[u], u)
  {
    var s := Run(autoReconnect, actions);
    RefinesInEveryRun(autoReconnect, actions);
    hide Run, Find, Holder, View, EntryOf;
    ViewContents(s.log, 0);
    FindIsHolder(s.log, 0, s.log[u].id);
    var j :| 0 <= j < |s.hub.clientData| && s.hub.clientData[j] == EntryOf(s.log[u], u);
    OneHolder(autoReconnect, actions, Find(s.hub.clientData, s.log[u].id), j);
  }

  /**
   What a RecoverId for an unfinished request does: an open QoS 2 publish is released, and its PUBREL task starts in that
   step; any other request is completed, its id is the last in the ring, and the keep-alive timer starts again.
   */
  lemma RecoveryTaken(autoReconnect: bool, actions: seq<Action>, u: nat)
    requires var s := Run(autoReconnect, actions);
             && u < |s.log| && s.log[u].status != Closed
             && Taking(s, HubTakes) && s.queue[0].FromTask? && s.queue[0].msg == RecoverId(s.log[u].id)
    ensures var s := Run(autoReconnect, actions);
            var r, s' := s.log[u], Next(s, HubTakes);
            if r.kind == Publish2 && r.status == Open then
              && s'.log == s.log[u := Request(Publish2, r.id, Released)]
              && s'.tasks == s.tasks[s.nextTask := Send(Release, r.id, u, Start, |s.acks|)]
              && s'.hub.ring == s.hub.ring && s'.sleeping == s.sleeping
            else
              && s'.log == s.log[u := Request(r.kind, r.id, Closed)]
              && s'.tasks == s.tasks
              && s'.hub.ring == s.hub.ring + [r.id] && s'.sleeping == s.sleeping + [s'.hub.clock]
  {
    var s := Run(autoReconnect, actions);
    HolderIs(autoReconnect, actions, u);
    RefinesInEveryRun(autoReconnect, actions);
    ConservedInEveryRun(autoReconnect, actions);
    InFlightAndFree(s.hub);
    hide Run, Find, Holder, View, Conserved;
    RecoveryOf(s, u);
  }

  lemma RecoveryOf(s: System, u: nat)
    requires u < |s.log| && s.log[u].status != Closed && s.log[u].kind != Release
    requires Taking(s, HubTakes) && s.queue[0].FromTask? && s.queue[0].msg == RecoverId(s.log[u].id)
    requires Holder(s.log, 0, s.log[u].id) == u && |s.hub.ring| < CAPACITY
    requires var i := Find(s.hub.clientData, s.log[u].id);
             i < |s.hub.clientData| && s.hub.clientData[i] == EntryOf(s.log[u], u)
    ensures var r, s' := s.log[u], Next(s, HubTakes);
            if r.kind == Publish2 && r.status == Open then
              && s'.log == s.log[u := Request(Publish2, r.id, Released)]
              && s'.tasks == s.tasks[s.nextTask := Send(Release, r.id, u, Start, |s.acks|)]
              && s'.hub.ring == s.hub.ring && s'.sleeping == s.sleeping
            else
              && s'.log == s.log[u := Request(r.kind, r.id, Closed)]
              && s'.tasks == s.tasks
              && s'.hub.ring == s.hub.ring + [r.id] && s'.sleeping == s.sleeping + [s'.hub.clock]
  {
    hide Find, Holder, EntryOf, Spawn, SendTasks;
    var r := s.log[u];
    RecoveryStep(s.hub, r, u);
    hide RecoverStep;
    assert s.sleeping + [] == s.sleeping;
    OneStarts(s.tasks, s.nextTask, Send(Release, r.id, u, Start, |s.acks|));
    OneToSend(PubRel(r.id, u), |s.acks|);
  }

  lemma RecoveryStep(h: Hub<nat, nat>, r: Request, u: nat)
    requires r.status != Closed && r.kind != Release && |h.ring| < CAPACITY
    requires var i := Find(h.clientData, r.id); i < |h.clientData| && h.clientData[i] == EntryOf(r, u)
    ensures var step := RecoverStep(h, r.id);
            if r.kind == Publish2 && r.status == Open then
              && step.1 == Nothing<nat, nat>().(sends := [PubRel(r.id, u)])
              && step.0.ring == h.ring
            else
              && step.1 == Nothing<nat, nat>().(timers := [step.0.clock])
              && step.0.ring == h.ring + [r.id]
  {
    hide Find;
  }

  lemma OneStarts(tasks: map<nat, Task>, next: nat, t: Task)
    ensures Spawn(tasks, next, []) == tasks && Spawn(tasks, next, [t]) == tasks[next := t]
  {
  }

  lemma OneToSend(e: Entry<nat>, now: nat)
    ensures SendTasks([], now) + [] == [] && SendTasks([e], now) + [] == [SendTask(e, now)]
  {
  }

  // ----- Notices, and the DISCONNECT packet -----

  /** The user is told of a connection with the flag the broker sent, and of nothing else in these words. */
  lemma SessionFlagIsTold(s: System, a: Action, present: bool)
    ensures SaidConnected(present) in EffectsBy(s, a).notices
            <==> a == HubConnects(NetConnected(present)) && s.hub.phase.ToConnect?
  {
    TakeIsQuiet(s, a);
    hide HubMsgStep, ClientDataStep;
  }

  lemma TakeIsQuiet(s: System, a: Action)
    ensures a.HubTakes? ==>
              var e := EffectsBy(s, a);
              !e.closesNetwork && (e.notices == [] || e.notices == [SaidConnectedErr])
  {
    if Taking(s, a) && s.queue[0].FromTask? {
      MessageKeeps(s.hub, s.queue[0].msg);
    } else if Taking(s, a) {
      RequestKeeps<nat, nat>(s.hub, ClientData(s.queue[0].request, |s.log|));
    }
    hide HubMsgStep, ClientDataStep;
  }

  /** The network is told to disconnect exactly when the hub closes the connection from ToDisconnect. */
  lemma ClosesExactly(s: System, a: Action)
    ensures EffectsBy(s, a).closesNetwork <==> a.HubCloses? && s.hub.phase.ToDisconnect?
  {
    TakeIsQuiet(s, a);
    hide HubMsgStep, ClientDataStep;
  }

  /** A failed attempt is told as what it was. */
  lemma FailedAttemptIsTold(s: System, event: NetworkEvent)
    requires s.hub.phase.ToConnect?
    ensures EffectsBy(s, HubConnects(event)).notices
            == match event
               case NetConnected(present) => [SaidConnected(present)]
               case ConnectFail => [SaidConnectFail]
               case BrokerDisconnect => [SaidConnectedErr]
               case ConnectedErr => []
  {
  }

  /** A step ends in an error in exactly these cases; that the ring of free ids is full is not one of them. */
  lemma FailsExactly(s: System, a: Action)
    requires Conserved(s.hub)
    ensures EffectsBy(s, a).failed
            <==> || (Taking(s, a) && s.queue[0].FromClient? && s.queue[0].request != ReqQoS0 && s.hub.ring == [])
                 || (a.HubCommand? && a.command.ViolenceDisconnectAndDrop?
                     && (s.hub.phase.Connected? || s.hub.phase.ToConnect?))
                 || (a.HubConnects? && s.hub.phase.ToConnect? && (a.event.ConnectFail? || a.event.BrokerDisconnect?)
                     && !s.hub.autoReconnect)
  {
    hide Conserved, HubMsgStep, ClientDataStep;
    if Taking(s, a) {
      TakeFailsExactly(s);
    }
  }

  lemma TakeFailsExactly(s: System)
    requires Conserved(s.hub) && Taking(s, HubTakes)
    ensures EffectsBy(s, HubTakes).failed
            <==> s.queue[0].FromClient? && s.queue[0].request != ReqQoS0 && s.hub.ring == []
  {
    hide Conserved, HubMsgStep;
    if s.queue[0].FromTask? {
      MessagesNeverFail(s, s.queue[0].msg);
      hide ClientDataStep;
    }
  }

  lemma MessagesNeverFail(s: System, msg: HubMsg<nat>)
    requires Conserved(s.hub)
    ensures !HubMsgStep(s.hub, msg).1.failed
  {
    if msg.RecoverId? {
      RecoverConserves(s.hub, msg.id);
    }
    hide Conserved, Find;
  }

  // ----- Where the hub goes -----

  /** Every change of phase there is, with its cause. */
  predicate Edge(s: System, a: Action, after: Phase) {
    match s.hub.phase
    case ToConnect =>
      || (after.Connected? && a.HubConnects? && a.event.NetConnected?)
      || (after.Disconnected? && a.HubCommand?)
      || (after.Disconnected? && a.HubConnects? && (a.event.ConnectFail? || a.event.BrokerDisconnect?)
          && !s.hub.autoReconnect)
    case Connected =>
      || (after == ToDisconnect(PingFailed) && a.HubTakes? && s.queue != [] && IsPingFail(s.queue[0]))
      || (after == ToDisconnect(NetworkErr) && a.HubNetwork? && a.event.ConnectedErr?)
      || (after == ToDisconnect(ClientCommand) && a.HubCommand? && a.command.DisconnectAndDrop?)
      || (after == ToConnect && a.HubNetwork? && a.event.BrokerDisconnect? && s.hub.autoReconnect)
      || (after == Disconnected && a.HubNetwork? && a.event.BrokerDisconnect? && !s.hub.autoReconnect)
      || (after == Disconnected && a.HubCommand? && a.command.ViolenceDisconnectAndDrop?)
    case ToDisconnect(reason) =>
      a.HubCloses? && after == if reason != ClientCommand && s.hub.autoReconnect then ToConnect else Disconnected
    case Disconnected => false
  }

  lemma PhaseDiagram(s: System, a: Action, after: Phase)
    requires after != s.hub.phase
    ensures Next(s, a).hub.phase == after <==> Edge(s, a, after)
  {
    NextHub(s, a);
    hide Next, HubMsgStep, ClientDataStep;
    if Taking(s, a) {
      TakeKeeps(s);
      hide HubNext;
    }
  }

  /** An orderly stop: the hub takes nothing more, closes the connection once, and is then disconnected for good. */
  lemma OrderlyStop(s: System)
    requires s.hub.phase.Connected?
    ensures var s1 := Next(s, HubCommand(DisconnectAndDrop));
            var s2 := Next(s1, HubCloses);
            && !s1.hub.phase.Connected? && EffectsBy(s1, HubCloses).closesNetwork && s2.hub.phase.Disconnected?
  {
  }
}
