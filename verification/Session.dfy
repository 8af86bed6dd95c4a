/**
 The whole client as a transition system: the hub, its FIFO queue, the live tasks with a program counter each, and
 the broker and the network as an environment that may do anything. A run is a sequence of actions; an action that is
 not enabled changes nothing.
 */
module Session {
  import opened Wire
  import opened PublishPacket
  import opened HubSteps

  // ----- Tasks -----

  /** What a sending task sends, and so which acknowledgement it waits for. */
  datatype SendKind = Publish1 | Publish2 | Release | Subscribing | Unsubscribing

  /**
   Start: about to write for the first time. Waiting: written, reading acknowledgements, writing again on a timeout.
   Acked: about to send RecoverId. AckedAgain: QoS 1 only, about to send it once more. Report: about to tell the user.
   */
  datatype SendPc = Start | Waiting | Acked | AckedAgain | Report

  /** QoS 1: First (PUBACK), Affirm, Free. QoS 2: First (PUBREC), AwaitRel, Affirm, Complete (PUBCOMP), Free. */
  datatype ReceivePc = First | AwaitRel | Affirm | Complete | Free

  datatype Task =
    | Send(kind: SendKind, id: u16, uid: nat, sendPc: SendPc, sendCursor: nat)
    | Receive(qos2: bool, id: u16, uid: nat, receivePc: ReceivePc, receiveCursor: nat)
    | Ping(sending: bool, budget: nat)

  datatype BrokerAck = AckOf(kind: SendKind, id: u16) | RelOf(id: u16)

  // ----- What travels -----

  /** For which request and stage a RecoverId was sent; the hub itself only sees the packet id. */
  datatype Tag = NoTag | Recovers(uid: nat, kind: SendKind, second: bool)

  datatype Event = FromClient(request: RequestKind) | FromTask(msg: HubMsg<nat>, tag: Tag)

  datatype Written =
    | WroteRequest(kind: SendKind, id: u16, uid: nat)
    | WrotePubAck(uid: nat)
    | WrotePubRec(uid: nat)
    | WrotePubComp(uid: nat)

  /** An accepted request: what it was, the packet id it got, and how far its handshake is. */
  datatype Status = Open | Released | Closed

  datatype Request = Request(kind: SendKind, id: u16, status: Status)

  /** A task consumed, for request uid at stage kind, the acknowledgement at this position of the broker's log. */
  datatype Consumed = Consumed(uid: nat, kind: SendKind, at: nat)

  // ----- State -----

  /**
   Requests and incoming messages are numbered: a request by its place in `log`, a message by its arrival. The fields
   from `log` on are history: no step looks at them to decide what to do.
   */
  datatype System = System(
    hub: Hub<nat, nat>,
    queue: seq<Event>,
    tasks: map<nat, Task>,
    nextTask: nat,
    acks: seq<BrokerAck>,
    sleeping: seq<u32>,
    log: seq<Request>,
    consumed: seq<Consumed>,
    struck: set<nat>,
    arrivals: nat,
    delivered: seq<nat>,
    written: seq<Written>,
    tokens: nat,
    commanded: bool,
    wasConnected: bool)

  datatype Action =
    | ClientSubmits(request: RequestKind)
    | BrokerPublishes(qos: QoSWithPacketId)
    | BrokerAcks(ack: BrokerAck)
    | HubTakes
    | HubCommand(command: Command)
    | HubNetwork(event: NetworkEvent)
    | HubConnects(event: NetworkEvent)
    | HubCloses
    | TaskWrites(task: nat)
    | TaskReads(task: nat)
    | TaskDispatches(task: nat)
    | TaskDies(task: nat, wrote: bool)
    | PingTurns(task: nat, ok: bool)
    | TimerFires(index: nat)

  function Init(autoReconnect: bool): System {
    System(InitialHub(autoReconnect), [], map[], 0, [], [], [], [], {}, 0, [], [], 0, false, false)
  }

  // ----- Starting tasks -----

  function KindOf<T>(e: Entry<T>): SendKind {
    match e
    case PublishQoS1(_, _) => Publish1
    case PublishQoS2(_, _) => Publish2
    case PubRel(_, _) => Release
    case Subscribe(_, _) => Subscribing
    case Unsubscribe(_, _) => Unsubscribing
  }

  /** A task reads only acknowledgements that arrive after it has logged in to the bus. */
  function SendTask(e: Entry<nat>, now: nat): Task {
    Send(KindOf(e), e.id, e.trace, Start, now)
  }

  function SendTasks(entries: seq<Entry<nat>>, now: nat): (ts: seq<Task>)
    ensures |ts| == |entries|
    ensures forall i :: 0 <= i < |entries| ==> ts[i] == SendTask(entries[i], now)
  {
    if entries == [] then [] else [SendTask(entries[0], now)] + SendTasks(entries[1..], now)
  }

  function Spawn(tasks: map<nat, Task>, next: nat, new_: seq<Task>): (r: map<nat, Task>)
    ensures forall t :: t in r <==> t in tasks || next <= t < next + |new_|
    ensures forall t :: next <= t < next + |new_| ==> r[t] == new_[t - next]
    ensures forall t :: t in tasks && !(next <= t < next + |new_|) ==> r[t] == tasks[t]
    decreases |new_|
  {
    if new_ == [] then tasks else Spawn(tasks[next := new_[0]], next + 1, new_[1..])
  }

  /** The state after a hub step with its effects carried out; starts is the receive task to start, if any. */
  function Absorb(s: System, h: Hub<nat, nat>, e: Effects<nat, nat>, starts: seq<Task>): System {
    var new_ := SendTasks(e.sends, |s.acks|) + starts;
    s.(hub := h,
       tasks := Spawn(s.tasks, s.nextTask, new_),
       nextTask := s.nextTask + |new_|,
       sleeping := s.sleeping + e.timers,
       delivered := s.delivered + e.delivered,
       tokens := s.tokens + |e.timers|)
  }

  // ----- The request log -----

  /** The first request from k on that holds this packet id. */
  function Holder(log: seq<Request>, k: nat, id: u16): (u: nat)
    requires k <= |log|
    ensures k <= u <= |log|
    ensures u < |log| ==> log[u].id == id && log[u].status != Closed
    decreases |log| - k
  {
    if k == |log| || (log[k].id == id && log[k].status != Closed) then k else Holder(log, k + 1, id)
  }

  /** What an acknowledgement does to the request that holds the id: QoS 2 first goes from Open to Released. */
  function Advance(r: Request): Request {
    if r.kind == Publish2 && r.status == Open then r.(status := Released) else r.(status := Closed)
  }

  function LogRecover(log: seq<Request>, id: u16): (r: seq<Request>)
    ensures |r| == |log|
  {
    var u := Holder(log, 0, id);
    if u == |log| then log else log[u := Advance(log[u])]
  }

  // ----- Steps -----

  /** The RecoverId at hand finds an entry, but of another request or another stage than it was sent for. */
  predicate Misses(h: Hub<nat, nat>, id: u16, tag: Tag) {
    var i := Find(h.clientData, id);
    i < |h.clientData|
    && tag != Recovers(h.clientData[i].trace, KindOf(h.clientData[i]), false)
  }

  function TakeRequest(s: System, request: RequestKind): (r: System)
    ensures r == s.(hub := r.hub, tasks := r.tasks, nextTask := r.nextTask, sleeping := r.sleeping,
                    delivered := r.delivered, tokens := r.tokens, log := r.log)
    ensures r.hub == ClientDataStep(s.hub, ClientData(request, |s.log|)).0
  {
    var (h, e) := ClientDataStep(s.hub, ClientData(request, |s.log|));
    var s' := Absorb(s, h, e, []);
    if e.sends == [] then s' else s'.(log := s.log + [Request(KindOf(e.sends[0]), e.sends[0].id, Open)])
  }

  function TakeRecover(s: System, id: u16, tag: Tag): (r: System)
    ensures r == s.(hub := r.hub, tasks := r.tasks, nextTask := r.nextTask, sleeping := r.sleeping,
                    delivered := r.delivered, tokens := r.tokens, log := r.log, struck := r.struck)
    ensures r.hub == RecoverStep(s.hub, id).0 && r.log == LogRecover(s.log, id)
  {
    var (h, e) := RecoverStep(s.hub, id);
    var hit := if Misses(s.hub, id, tag) then {s.hub.clientData[Find(s.hub.clientData, id)].trace} else {};
    Absorb(s, h, e, []).(log := LogRecover(s.log, id), struck := s.struck + hit)
  }

  function TakePublish(s: System, qos: QoSWithPacketId, message: nat): (r: System)
    ensures r == s.(hub := r.hub, tasks := r.tasks, nextTask := r.nextTask, sleeping := r.sleeping,
                    delivered := r.delivered, tokens := r.tokens)
    ensures r.hub == ReceiveStep(s.hub, qos, message).0
  {
    var (h, e) := ReceiveStep(s.hub, qos, message);
    var starts := if e.receives == [] || qos.AtMostOnce? then []
                  else [Receive(qos.ExactlyOnce?, qos.id, message, First, |s.acks|)];
    Absorb(s, h, e, starts)
  }

  function TakeOther(s: System, msg: HubMsg<nat>): (r: System)
    ensures r == s.(hub := r.hub, tasks := r.tasks, nextTask := r.nextTask, sleeping := r.sleeping,
                    delivered := r.delivered, tokens := r.tokens)
    ensures r.hub == HubMsgStep(s.hub, msg).0
  {
    var (h, e) := HubMsgStep(s.hub, msg);
    Absorb(s, h, e, if e.pings == 0 then [] else [Ping(true, 3)])
  }

  function Take(s: System): (r: System)
    requires s.queue != []
    ensures r.queue == s.queue[1..] && r.acks == s.acks && r.consumed == s.consumed && r.written == s.written
    ensures r.arrivals == s.arrivals && r.commanded == s.commanded && r.wasConnected == s.wasConnected
  {
    var s' := s.(queue := s.queue[1..]);
    match s.queue[0]
    case FromClient(request) => TakeRequest(s', request)
    case FromTask(msg, tag) =>
      match msg
      case RecoverId(id) => TakeRecover(s', id, tag)
      case RxPublish(qos, message) => TakePublish(s', qos, message)
      case _ => TakeOther(s', msg)
  }

  function Connects(s: System, event: NetworkEvent): (r: System)
    ensures r == s.(hub := r.hub, tasks := r.tasks, nextTask := r.nextTask, sleeping := r.sleeping,
                    delivered := r.delivered, tokens := r.tokens, wasConnected := r.wasConnected)
    ensures r.hub == ConnectStep(s.hub, event).0
  {
    var (h, e) := ConnectStep(s.hub, event);
    Absorb(s, h, e, []).(wasConnected := s.wasConnected || h.phase.Connected?)
  }

  function Enqueue(s: System, msg: HubMsg<nat>, tag: Tag): System {
    s.(queue := s.queue + [FromTask(msg, tag)])
  }

  /** The packet a task at a writing position writes, and the task afterwards. */
  function WriteOf(t: Task): Option<(Written, Task)> {
    match t
    case Send(kind, id, uid, pc, _) =>
      if pc.Start? || pc.Waiting? then Some((WroteRequest(kind, id, uid), t.(sendPc := Waiting))) else None
    case Receive(qos2, _, uid, pc, _) =>
      if pc.First? then
        if qos2 then Some((WrotePubRec(uid), t.(receivePc := AwaitRel)))
        else Some((WrotePubAck(uid), t.(receivePc := Affirm)))
      else if pc.AwaitRel? then Some((WrotePubRec(uid), t))
      else if pc.Complete? then Some((WrotePubComp(uid), t.(receivePc := Free)))
      else None
    case Ping(_, _) => None
  }

  function Writes(s: System, t: nat): (r: System)
    requires t in s.tasks
    ensures r == s.(tasks := r.tasks, written := r.written)
  {
    match WriteOf(s.tasks[t])
    case None => s
    case Some((packet, after)) => s.(written := s.written + [packet], tasks := s.tasks[t := after])
  }

  /** A write whose receipt never comes ends the task; the packet may have gone out. */
  function Dies(s: System, t: nat, wrote: bool): (r: System)
    requires t in s.tasks
    ensures r == s.(tasks := r.tasks, written := r.written)
  {
    match WriteOf(s.tasks[t])
    case None => s
    case Some((packet, _)) =>
      s.(written := if wrote then s.written + [packet] else s.written, tasks := s.tasks - {t})
  }

  /** Reads the next acknowledgement: skips it, or goes on if it is the one awaited. */
  function Reads(s: System, t: nat): (r: System)
    requires t in s.tasks
    ensures r == s.(tasks := r.tasks, consumed := r.consumed)
  {
    var task := s.tasks[t];
    if task.Send? && task.sendPc.Waiting? && task.sendCursor < |s.acks| then
      var next := task.(sendCursor := task.sendCursor + 1);
      if s.acks[task.sendCursor] == AckOf(task.kind, task.id) then
        s.(tasks := s.tasks[t := next.(sendPc := Acked)],
           consumed := s.consumed + [Consumed(task.uid, task.kind, task.sendCursor)])
      else s.(tasks := s.tasks[t := next])
    else if task.Receive? && task.receivePc.AwaitRel? && task.receiveCursor < |s.acks| then
      var next := task.(receiveCursor := task.receiveCursor + 1);
      s.(tasks := s.tasks[t := if s.acks[task.receiveCursor] == RelOf(task.id) then next.(receivePc := Affirm) else next])
    else s
  }

  /** Sends the next message to the hub, or ends. */
  function Dispatches(s: System, t: nat): (r: System)
    requires t in s.tasks
    ensures r == s.(queue := r.queue, tasks := r.tasks)
  {
    var task := s.tasks[t];
    match task
    case Send(kind, id, uid, pc, _) =>
      if pc.Acked? then
        Enqueue(s, RecoverId(id), Recovers(uid, kind, false))
        .(tasks := s.tasks[t := task.(sendPc := if kind == Publish1 then AckedAgain else Report)])
      else if pc.AckedAgain? then
        Enqueue(s, RecoverId(id), Recovers(uid, kind, true)).(tasks := s.tasks[t := task.(sendPc := Report)])
      else if pc.Report? then s.(tasks := s.tasks - {t})
      else s
    case Receive(qos2, id, _, pc, _) =>
      if pc.Affirm? then
        Enqueue(s, AffirmRxPublish(id), NoTag)
        .(tasks := s.tasks[t := task.(receivePc := if qos2 then Complete else Free)])
      else if pc.Free? then Enqueue(s, AffirmRxId(id), NoTag).(tasks := s.tasks - {t})
      else s
    case Ping(_, _) => s
  }

  /**
   One attempt of the ping task: three attempts in all, first to send, then to hear the response. If all three are
   spent sending it reports the failure twice, else once.
   */
  function PingStep(s: System, t: nat, ok: bool): (r: System)
    requires t in s.tasks
    ensures r == s.(queue := r.queue, tasks := r.tasks)
  {
    var task := s.tasks[t];
    if !task.Ping? then s
    else if task.sending then
      if ok then s.(tasks := s.tasks[t := Ping(false, task.budget)])
      else if task.budget > 1 then s.(tasks := s.tasks[t := Ping(true, task.budget - 1)])
      else Enqueue(s, PingFail, NoTag).(tasks := s.tasks[t := Ping(false, 0)])
    else if task.budget == 0 then Enqueue(s, PingFail, NoTag).(tasks := s.tasks - {t})
    else if ok then Enqueue(s, PingSuccess, NoTag).(tasks := s.tasks - {t})
    else s.(tasks := s.tasks[t := Ping(false, task.budget - 1)])
  }

  function Next(s: System, a: Action): System {
    match a
    case ClientSubmits(request) => s.(queue := s.queue + [FromClient(request)])
    case BrokerPublishes(qos) =>
      Enqueue(s, RxPublish(qos, s.arrivals), NoTag).(arrivals := s.arrivals + 1)
    case BrokerAcks(ack) => s.(acks := s.acks + [ack])
    case HubTakes => if s.hub.phase.Connected? && s.queue != [] then Take(s) else s
    case HubCommand(command) =>
      if s.hub.phase.Connected? then s.(hub := CommandStep(s.hub, command).0, commanded := true)
      else if s.hub.phase.ToConnect? then
        s.(hub := CommandWhileConnectingStep(s.hub, command).0, commanded := true)
      else s
    case HubNetwork(event) => if s.hub.phase.Connected? then s.(hub := NetworkStep(s.hub, event).0) else s
    case HubConnects(event) => if s.hub.phase.ToConnect? then Connects(s, event) else s
    case HubCloses => if s.hub.phase.ToDisconnect? then s.(hub := DisconnectStep(s.hub).0) else s
    case TaskWrites(t) => if t in s.tasks then Writes(s, t) else s
    case TaskReads(t) => if t in s.tasks then Reads(s, t) else s
    case TaskDispatches(t) => if t in s.tasks then Dispatches(s, t) else s
    case TaskDies(t, wrote) => if t in s.tasks then Dies(s, t, wrote) else s
    case PingTurns(t, ok) => if t in s.tasks then PingStep(s, t, ok) else s
    case TimerFires(i) =>
      if i < |s.sleeping| then
        Enqueue(s, KeepAlive(s.sleeping[i]), NoTag).(sleeping := s.sleeping[..i] + s.sleeping[i + 1..])
      else s
  }

  /** The hub after one action. */
  function HubNext(s: System, a: Action): Hub<nat, nat> {
    match a
    case HubTakes =>
      if !s.hub.phase.Connected? || s.queue == [] then s.hub
      else if s.queue[0].FromClient? then ClientDataStep(s.hub, ClientData(s.queue[0].request, |s.log|)).0
      else HubMsgStep(s.hub, s.queue[0].msg).0
    case HubCommand(command) =>
      if s.hub.phase.Connected? then CommandStep(s.hub, command).0
      else if s.hub.phase.ToConnect? then CommandWhileConnectingStep(s.hub, command).0
      else s.hub
    case HubNetwork(event) => if s.hub.phase.Connected? then NetworkStep(s.hub, event).0 else s.hub
    case HubConnects(event) => if s.hub.phase.ToConnect? then ConnectStep(s.hub, event).0 else s.hub
    case HubCloses => if s.hub.phase.ToDisconnect? then DisconnectStep(s.hub).0 else s.hub
    case _ => s.hub
  }

  lemma NextHub(s: System, a: Action)
    ensures Next(s, a).hub == HubNext(s, a)
  {
    hide TakeRequest, TakeRecover, TakePublish, TakeOther, Connects, Writes, Dies, Reads, Dispatches, PingStep;
    hide ClientDataStep, HubMsgStep, RecoverStep, ReceiveStep, ConnectStep, LogRecover;
    if a.HubTakes? && s.hub.phase.Connected? && s.queue != [] && s.queue[0].FromTask? {
      HubMsgCases(s.hub, s.queue[0].msg);
    }
  }

  lemma HubMsgCases(h: Hub<nat, nat>, msg: HubMsg<nat>)
    ensures msg.RecoverId? ==> HubMsgStep(h, msg) == RecoverStep(h, msg.id)
    ensures msg.RxPublish? ==> HubMsgStep(h, msg) == ReceiveStep(h, msg.qos, msg.message)
  {
  }

  /** The request log after one action. */
  function LogNext(s: System, a: Action): seq<Request> {
    if !a.HubTakes? || !s.hub.phase.Connected? || s.queue == [] then s.log
    else
      match s.queue[0]
      case FromClient(request) =>
        if request == ReqQoS0 || s.hub.ring == [] then s.log
        else s.log + [Request(KindOf(NewEntry(request, s.hub.ring[0], |s.log|)), s.hub.ring[0], Open)]
      case FromTask(msg, _) => if msg.RecoverId? then LogRecover(s.log, msg.id) else s.log
  }

  lemma NextLog(s: System, a: Action)
    ensures Next(s, a).log == LogNext(s, a)
  {
    hide TakeRequest, TakeRecover, TakePublish, TakeOther, Connects, Writes, Dies, Reads, Dispatches, PingStep;
    hide HubMsgStep, RecoverStep, ReceiveStep, ConnectStep, LogRecover;
    if a.HubTakes? && s.hub.phase.Connected? && s.queue != [] && s.queue[0].FromClient? {
      LogOfRequest(s.(queue := s.queue[1..]), s.queue[0].request);
    }
  }

  lemma LogOfRequest(s: System, request: RequestKind)
    ensures TakeRequest(s, request).log
            == if request == ReqQoS0 || s.hub.ring == [] then s.log
               else s.log + [Request(KindOf(NewEntry(request, s.hub.ring[0], |s.log|)), s.hub.ring[0], Open)]
  {
    hide Spawn, SendTasks;
  }

  /** The state after a run from s. */
  function RunFrom(s: System, actions: seq<Action>): System
    decreases |actions|
  {
    if actions == [] then s else Next(RunFrom(s, actions[..|actions| - 1]), actions[|actions| - 1])
  }

  /** The state after a run from the start: every reachable state is one of these. */
  function Run(autoReconnect: bool, actions: seq<Action>): System {
    RunFrom(Init(autoReconnect), actions)
  }

  lemma RunSnoc(s: System, actions: seq<Action>, a: Action)
    ensures RunFrom(s, actions + [a]) == Next(RunFrom(s, actions), a)
  {
    hide Next;
    assert (actions + [a])[..|actions|] == actions;
  }

  /** One more action at the end of a run. */
  lemma RunThen(s0: System, run: seq<Action>, s: System, a: Action) returns (run': seq<Action>, s': System)
    requires RunFrom(s0, run) == s
    ensures RunFrom(s0, run') == s' && s' == Next(s, a)
  {
    RunSnoc(s0, run, a);
    run', s' := run + [a], Next(s, a);
  }

  lemma RunOne(s: System, a: Action)
    ensures RunFrom(s, [a]) == Next(s, a)
  {
    hide Next;
    assert [a][..0] == [];
  }

  lemma {:induction false} RunAppend(s: System, run: seq<Action>, more: seq<Action>)
    ensures RunFrom(s, run + more) == RunFrom(RunFrom(s, run), more)
    decreases |more|
  {
    hide Next;
    if more == [] {
      assert run + more == run;
    } else {
      var init, a := more[..|more| - 1], more[|more| - 1];
      RunAppend(s, run, init);
      assert (run + more)[..|run + more| - 1] == run + init;
    }
  }
}
