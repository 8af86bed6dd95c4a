/**
 What one action does to the queue and to the tasks, apart from the rest of the state. The invariants are proved on
 these, so that no proof has to look at the whole step.
 */
module Projections {
  import opened Wire
  import opened PublishPacket
  import opened HubSteps
  import opened Session

  // ----- The queue -----

  predicate Taking(s: System, a: Action) {
    a.HubTakes? && s.hub.phase.Connected? && s.queue != []
  }

  /** The message a task sends to the hub when it is its turn to. */
  function DispatchOf(t: Task): seq<Event> {
    match t
    case Send(kind, id, uid, pc, _) =>
      if pc.Acked? || pc.AckedAgain? then [FromTask(RecoverId(id), Recovers(uid, kind, pc.AckedAgain?))] else []
    case Receive(_, id, _, pc, _) =>
      if pc.Affirm? then [FromTask(AffirmRxPublish(id), NoTag)]
      else if pc.Free? then [FromTask(AffirmRxId(id), NoTag)]
      else []
    case Ping(_, _) => []
  }

  function PingReport(t: Task, ok: bool): seq<Event> {
    if !t.Ping? then []
    else if t.sending && !ok && t.budget <= 1 then [FromTask(PingFail, NoTag)]
    else if !t.sending && t.budget == 0 then [FromTask(PingFail, NoTag)]
    else if !t.sending && ok then [FromTask(PingSuccess, NoTag)]
    else []
  }

  function Appended(s: System, a: Action): seq<Event> {
    match a
    case ClientSubmits(request) => [FromClient(request)]
    case BrokerPublishes(qos) => [FromTask(RxPublish(qos, s.arrivals), NoTag)]
    case TaskDispatches(t) => if t in s.tasks then DispatchOf(s.tasks[t]) else []
    case PingTurns(t, ok) => if t in s.tasks then PingReport(s.tasks[t], ok) else []
    case TimerFires(i) => if i < |s.sleeping| then [FromTask(KeepAlive(s.sleeping[i]), NoTag)] else []
    case _ => []
  }

  lemma NextQueue(s: System, a: Action)
    ensures Next(s, a).queue == if Taking(s, a) then s.queue[1..] else s.queue + Appended(s, a)
  {
    hide Take, Connects, Writes, Dies, Reads, CommandStep, NetworkStep, DisconnectStep, CommandWhileConnectingStep;
    assert s.queue + [] == s.queue;
  }

  predicate IsPingFail(e: Event) {
    e.FromTask? && e.msg.PingFail?
  }

  /** Taking an event moves the hub out of Connected only if the event is a failed ping. */
  lemma TakeKeeps(s: System)
    requires Taking(s, HubTakes)
    ensures HubNext(s, HubTakes).autoReconnect == s.hub.autoReconnect
    ensures HubNext(s, HubTakes).phase == if IsPingFail(s.queue[0]) then ToDisconnect(PingFailed) else Connected
  {
    hide HubMsgStep, ClientDataStep;
    if s.queue[0].FromTask? {
      MessageKeeps(s.hub, s.queue[0].msg);
    } else {
      RequestKeeps<nat, nat>(s.hub, ClientData(s.queue[0].request, |s.log|));
    }
  }

  lemma SameOption(s: System, a: Action)
    ensures HubNext(s, a).autoReconnect == s.hub.autoReconnect
  {
    if Taking(s, a) {
      TakeKeeps(s);
      hide HubNext;
    } else {
      hide HubMsgStep, ClientDataStep;
    }
  }

  // ----- The tasks -----

  predicate IsTaskAction(a: Action) {
    a.TaskWrites? || a.TaskReads? || a.TaskDispatches? || a.TaskDies? || a.PingTurns?
  }

  predicate Moves(s: System, a: Action) {
    IsTaskAction(a) && a.task in s.tasks
  }

  /** The task after its turn; None when it has ended. */
  function Moved(s: System, a: Action): Option<Task>
    requires Moves(s, a)
  {
    var t := s.tasks[a.task];
    match a
    case TaskWrites(_) => if WriteOf(t).Some? then Some(WriteOf(t).value.1) else Some(t)
    case TaskDies(_, _) => if WriteOf(t).Some? then None else Some(t)
    case TaskReads(_) => Some(ReadOf(s, t))
    case TaskDispatches(_) => DispatchedOf(t)
    case PingTurns(_, ok) => PingedOf(t, ok)
  }

  function ReadOf(s: System, t: Task): Task {
    if t.Send? && t.sendPc.Waiting? && t.sendCursor < |s.acks| then
      Send(t.kind, t.id, t.uid, if s.acks[t.sendCursor] == AckOf(t.kind, t.id) then Acked else Waiting, t.sendCursor + 1)
    else if t.Receive? && t.receivePc.AwaitRel? && t.receiveCursor < |s.acks| then
      Receive(t.qos2, t.id, t.uid, if s.acks[t.receiveCursor] == RelOf(t.id) then Affirm else AwaitRel,
              t.receiveCursor + 1)
    else t
  }

  function DispatchedOf(t: Task): Option<Task> {
    match t
    case Send(kind, id, uid, pc, cursor) =>
      if pc.Acked? then Some(Send(kind, id, uid, if kind == Publish1 then AckedAgain else Report, cursor))
      else if pc.AckedAgain? then Some(Send(kind, id, uid, Report, cursor))
      else if pc.Report? then None
      else Some(t)
    case Receive(qos2, id, uid, pc, cursor) =>
      if pc.Affirm? then Some(Receive(qos2, id, uid, if qos2 then Complete else Free, cursor))
      else if pc.Free? then None
      else Some(t)
    case Ping(_, _) => Some(t)
  }

  function PingedOf(t: Task, ok: bool): Option<Task> {
    if !t.Ping? then Some(t)
    else if t.sending then
      Some(if ok then Ping(false, t.budget) else if t.budget > 1 then Ping(true, t.budget - 1) else Ping(false, 0))
    else if t.budget == 0 || ok then None
    else Some(Ping(false, t.budget - 1))
  }

  /** The tasks a hub step starts. */
  function StartedBy(s: System, e: Event): seq<Task> {
    match e
    case FromClient(request) => SendTasks(ClientDataStep(s.hub, ClientData(request, |s.log|)).1.sends, |s.acks|)
    case FromTask(RecoverId(id), _) => SendTasks(RecoverStep(s.hub, id).1.sends, |s.acks|)
    case FromTask(RxPublish(qos, message), _) =>
      if qos.AtMostOnce? || qos.id in s.hub.rxPublishId then []
      else [Receive(qos.ExactlyOnce?, qos.id, message, First, |s.acks|)]
    case FromTask(KeepAlive(token), _) => if token == s.hub.clock then [Ping(true, 3)] else []
    case _ => []
  }

  function Started(s: System, a: Action): seq<Task> {
    if Taking(s, a) then StartedBy(s, s.queue[0])
    else if a.HubConnects? && s.hub.phase.ToConnect? then SendTasks(ConnectStep(s.hub, a.event).1.sends, |s.acks|)
    else []
  }

  lemma NextTasks(s: System, a: Action)
    ensures Moves(s, a) ==>
              && Next(s, a).nextTask == s.nextTask
              && Next(s, a).tasks == match Moved(s, a)
                                     case Some(t) => s.tasks[a.task := t]
                                     case None => s.tasks - {a.task}
    ensures !Moves(s, a) ==>
              && Next(s, a).nextTask == s.nextTask + |Started(s, a)|
              && Next(s, a).tasks == Spawn(s.tasks, s.nextTask, Started(s, a))
  {
    if Moves(s, a) {
      MovedTask(s, a);
    } else if Taking(s, a) {
      TakingStarts(s);
    } else if a.HubConnects? && s.hub.phase.ToConnect? {
      ConnectStarts(s, a.event);
      hide Next, Started, Spawn;
    } else {
      QuietTasks(s, a);
      hide Next, Started, Spawn;
    }
  }

  lemma ConnectStarts(s: System, event: NetworkEvent)
    requires s.hub.phase.ToConnect?
    ensures Starts(s, Next(s, HubConnects(event)), Started(s, HubConnects(event)))
  {
    hide ConnectStep, SendTasks, Spawn;
    var ts := Started(s, HubConnects(event));
    assert ts + [] == ts;
  }

  /** Every other action leaves the tasks alone. */
  lemma QuietTasks(s: System, a: Action)
    requires !Moves(s, a) && !Taking(s, a) && !(a.HubConnects? && s.hub.phase.ToConnect?)
    ensures Starts(s, Next(s, a), Started(s, a))
  {
    hide Take, Connects, Writes, Dies, Reads, Dispatches, PingStep, CommandStep, NetworkStep, DisconnectStep;
  }

  lemma MovedTask(s: System, a: Action)
    requires Moves(s, a)
    ensures Next(s, a).nextTask == s.nextTask
    ensures Next(s, a).tasks == match Moved(s, a)
                                case Some(t) => s.tasks[a.task := t]
                                case None => s.tasks - {a.task}
  {
    hide Take, Connects, CommandStep, NetworkStep, DisconnectStep;
    assert s.tasks[a.task := s.tasks[a.task]] == s.tasks;
  }

  /** s' starts exactly these tasks. */
  predicate Starts(s: System, s': System, ts: seq<Task>) {
    s'.nextTask == s.nextTask + |ts| && s'.tasks == Spawn(s.tasks, s.nextTask, ts)
  }

  lemma TakingStarts(s: System)
    requires Taking(s, HubTakes)
    ensures Starts(s, Next(s, HubTakes), Started(s, HubTakes))
  {
    hide TakeRequest, TakeRecover, TakePublish, TakeOther, Spawn, SendTasks, ClientDataStep, RecoverStep, HubMsgStep;
    var s0 := s.(queue := s.queue[1..]);
    match s.queue[0] {
      case FromClient(request) => RequestStarts(s0, request);
      case FromTask(msg, tag) =>
        match msg {
          case RecoverId(id) => RecoverStarts(s0, id, tag);
          case RxPublish(qos, message) => PublishStarts(s0, qos, message);
          case _ => OtherStarts(s0, msg, tag);
        }
    }
  }

  lemma RequestStarts(s: System, request: RequestKind)
    ensures Starts(s, TakeRequest(s, request), StartedBy(s, FromClient(request)))
  {
    hide ClientDataStep, SendTasks, Spawn;
    var ts := StartedBy(s, FromClient(request));
    assert ts + [] == ts;
  }

  lemma RecoverStarts(s: System, id: u16, tag: Tag)
    ensures Starts(s, TakeRecover(s, id, tag), StartedBy(s, FromTask(RecoverId(id), tag)))
  {
    hide RecoverStep, SendTasks, Spawn, Misses, Find, LogRecover;
    var ts := StartedBy(s, FromTask(RecoverId(id), tag));
    assert ts + [] == ts;
  }

  lemma PublishStarts(s: System, qos: QoSWithPacketId, message: nat)
    ensures forall tag :: Starts(s, TakePublish(s, qos, message), StartedBy(s, FromTask(RxPublish(qos, message), tag)))
  {
    hide Spawn;
    assert SendTasks([], |s.acks|) == [];
    forall ts: seq<Task> ensures [] + ts == ts {}
  }

  lemma OtherStarts(s: System, msg: HubMsg<nat>, tag: Tag)
    requires !msg.RecoverId? && !msg.RxPublish?
    ensures Starts(s, TakeOther(s, msg), StartedBy(s, FromTask(msg, tag)))
  {
    hide Spawn, RecoverStep, ReceiveStep;
    assert SendTasks([], |s.acks|) == [];
    forall ts: seq<Task> ensures [] + ts == ts {}
  }

  // ----- What is handed to the user and to the network -----

  function DeliveredBy(s: System, a: Action): seq<nat> {
    if Taking(s, a) && s.queue[0].FromTask? then HubMsgStep(s.hub, s.queue[0].msg).1.delivered else []
  }

  function WrittenBy(s: System, a: Action): seq<Written> {
    if !Moves(s, a) || WriteOf(s.tasks[a.task]).None? then []
    else if a.TaskWrites? || (a.TaskDies? && a.wrote) then [WriteOf(s.tasks[a.task]).value.0]
    else []
  }

  lemma NextWritten(s: System, a: Action)
    ensures Next(s, a).written == s.written + WrittenBy(s, a)
    ensures Next(s, a).arrivals == s.arrivals + if a.BrokerPublishes? then 1 else 0
  {
    hide Take, Connects, Reads, Dispatches, PingStep, CommandStep, NetworkStep, DisconnectStep;
    assert s.written + [] == s.written;
  }

  lemma NextDelivered(s: System, a: Action)
    ensures Next(s, a).delivered == s.delivered + DeliveredBy(s, a)
  {
    hide Writes, Dies, Reads, Dispatches, PingStep, CommandStep, NetworkStep, DisconnectStep;
    hide RecoverStep, ReceiveStep, HubMsgStep, Misses, LogRecover, Find, SendTasks, Spawn;
    assert s.delivered + [] == s.delivered;
    if Taking(s, a) && s.queue[0].FromTask? {
      HubMsgCases(s.hub, s.queue[0].msg);
    }
  }

  // ----- The history of acknowledgements -----

  predicate TakesRecover(s: System, a: Action) {
    Taking(s, a) && s.queue[0].FromTask? && s.queue[0].msg.RecoverId?
  }

  /** The acknowledgement a task consumes when it reads the one it waits for. */
  function ConsumedBy(s: System, a: Action): seq<Consumed> {
    if !Moves(s, a) || !a.TaskReads? then []
    else
      var t := s.tasks[a.task];
      if t.Send? && t.sendPc.Waiting? && t.sendCursor < |s.acks| && s.acks[t.sendCursor] == AckOf(t.kind, t.id)
      then [Consumed(t.uid, t.kind, t.sendCursor)]
      else []
  }

  function StruckBy(s: System, a: Action): set<nat> {
    if TakesRecover(s, a) && Misses(s.hub, s.queue[0].msg.id, s.queue[0].tag)
    then {s.hub.clientData[Find(s.hub.clientData, s.queue[0].msg.id)].trace}
    else {}
  }

  lemma NextHistory(s: System, a: Action)
    ensures Next(s, a).acks == s.acks + if a.BrokerAcks? then [a.ack] else []
    ensures Next(s, a).consumed == s.consumed + ConsumedBy(s, a)
    ensures Next(s, a).struck == s.struck + StruckBy(s, a)
  {
    NextConsumed(s, a);
    NextStruck(s, a);
    hide ConsumedBy, StruckBy;
    hide Take, Connects, Writes, Dies, Reads, Dispatches, PingStep, CommandStep, NetworkStep, DisconnectStep;
    assert s.acks + [] == s.acks;
  }

  lemma NextConsumed(s: System, a: Action)
    ensures Next(s, a).consumed == s.consumed + ConsumedBy(s, a)
  {
    hide Take, Connects, Writes, Dies, Dispatches, PingStep, CommandStep, NetworkStep, DisconnectStep;
    assert s.consumed + [] == s.consumed;
  }

  lemma NextStruck(s: System, a: Action)
    ensures Next(s, a).struck == s.struck + StruckBy(s, a)
  {
    hide TakeRequest, TakeRecover, TakePublish, TakeOther, Connects, Writes, Dies, Reads, Dispatches, PingStep;
    hide LogRecover, Find, Misses, CommandStep, NetworkStep, DisconnectStep, ClientDataStep, HubMsgStep;
    assert s.struck + {} == s.struck;
    if TakesRecover(s, a) {
      RecoverStrikes(s.(queue := s.queue[1..]), s.queue[0].msg.id, s.queue[0].tag);
    }
  }

  lemma RecoverStrikes(s: System, id: u16, tag: Tag)
    ensures TakeRecover(s, id, tag).struck
            == s.struck + if Misses(s.hub, id, tag) then {s.hub.clientData[Find(s.hub.clientData, id)].trace} else {}
  {
    hide RecoverStep, LogRecover, Find, Misses, SendTasks, Spawn;
  }

  // ----- A new task never takes the number of an old one -----

  ghost predicate Fresh(s: System) {
    forall t :: t in s.tasks ==> t < s.nextTask
  }

  lemma StepFresh(s: System, a: Action)
    requires Fresh(s)
    ensures Fresh(Next(s, a)) && s.nextTask <= Next(s, a).nextTask
  {
    NextTasks(s, a);
    hide Next, Moved, Started;
  }

  lemma {:induction false} FreshInEveryRun(autoReconnect: bool, actions: seq<Action>)
    ensures Fresh(Run(autoReconnect, actions))
    decreases |actions|
  {
    if actions != [] {
      hide Next, Fresh;
      FreshInEveryRun(autoReconnect, actions[..|actions| - 1]);
      StepFresh(Run(autoReconnect, actions[..|actions| - 1]), actions[|actions| - 1]);
    }
  }
}
