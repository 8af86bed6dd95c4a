/**
 The hub as a function of its state: what one event does, and what it hands to the bus.
 T identifies a client request (its trace), M is an incoming message.
 */
module HubSteps {
  import opened Wire
  import opened PublishPacket

  /** `UnacknowledgedClientData`: a request in flight. After PUBREC a QoS 2 publish is only its id and trace. */
  datatype Entry<+T> =
    | PublishQoS1(id: u16, trace: T)
    | PublishQoS2(id: u16, trace: T)
    | PubRel(id: u16, trace: T)
    | Subscribe(id: u16, trace: T)
    | Unsubscribe(id: u16, trace: T)

  datatype RequestKind = ReqSubscribe | ReqUnsubscribe | ReqQoS0 | ReqQoS1 | ReqQoS2

  datatype ClientData<+T> = ClientData(kind: RequestKind, trace: T)

  datatype HubMsg<+M> =
    | RecoverId(id: u16)
    | PingSuccess
    | PingFail
    | KeepAlive(token: u32)
    | RxPublish(qos: QoSWithPacketId, message: M)
    | AffirmRxId(id: u16)
    | AffirmRxPublish(id: u16)

  datatype NetworkEvent = NetConnected(sessionPresent: bool) | ConnectFail | ConnectedErr | BrokerDisconnect

  datatype Command = DisconnectAndDrop | ViolenceDisconnectAndDrop

  datatype Reason = PingFailed | NetworkErr | ClientCommand

  datatype Phase = ToConnect | Connected | ToDisconnect(reason: Reason) | Disconnected

  datatype Hub<T, M> = Hub(
    phase: Phase,
    ring: seq<u16>,
    clientData: seq<Entry<T>>,
    rxPublish: map<u16, M>,
    rxPublishId: map<u16, u16>,
    clock: u32,
    autoReconnect: bool)

  datatype Notice = SaidConnected(sessionPresent: bool) | SaidConnectFail | SaidConnectedErr

  /** What one step starts, delivers and reports. `failed` is a step that returned an error. */
  datatype Effects<+T, +M> = Effects(
    sends: seq<Entry<T>>,
    sendsOnce: seq<T>,
    receives: seq<QoSWithPacketId>,
    pings: nat,
    timers: seq<u32>,
    delivered: seq<M>,
    notices: seq<Notice>,
    closesNetwork: bool,
    failed: bool)

  function Nothing<T, M>(): Effects<T, M> {
    Effects([], [], [], 0, [], [], [], false, false)
  }

  const CAPACITY: nat := 65535
  const CLOCK_RANGE: nat := 0x1_0000_0000

  /** The next value of the process-wide keep-alive counter: a wrapping 32-bit increment. */
  function Tick(clock: u32): u32 {
    (clock + 1) % CLOCK_RANGE
  }

  // ----- Requests in flight -----

  /** The first entry with this packet id. */
  function Find<T>(entries: seq<Entry<T>>, id: u16): (i: nat)
    ensures i <= |entries|
    ensures i < |entries| ==> entries[i].id == id
    ensures forall j :: 0 <= j < i ==> entries[j].id != id
  {
    if entries == [] || entries[0].id == id then 0 else 1 + Find(entries[1..], id)
  }

  /** `acknowledge`: whether the request is complete, else what it turns into. */
  function Acknowledge<T>(e: Entry<T>): Option<Entry<T>> {
    if e.PublishQoS2? then Some(PubRel(e.id, e.trace)) else None
  }

  function NewEntry<T>(kind: RequestKind, id: u16, trace: T): Entry<T>
    requires kind != ReqQoS0
  {
    match kind
    case ReqSubscribe => Subscribe(id, trace)
    case ReqUnsubscribe => Unsubscribe(id, trace)
    case ReqQoS1 => PublishQoS1(id, trace)
    case ReqQoS2 => PublishQoS2(id, trace)
  }

  // ----- Steps -----

  function ClientDataStep<T, M>(h: Hub<T, M>, req: ClientData<T>): (Hub<T, M>, Effects<T, M>) {
    var none := Nothing<T, M>();
    if req.kind == ReqQoS0 then (h, none.(sendsOnce := [req.trace]))
    else if h.ring == [] then (h, none.(failed := true))
    else
      var entry := NewEntry(req.kind, h.ring[0], req.trace);
      (h.(ring := h.ring[1..], clientData := h.clientData + [entry]), none.(sends := [entry]))
  }

  function RecoverStep<T, M>(h: Hub<T, M>, id: u16): (Hub<T, M>, Effects<T, M>) {
    var none := Nothing<T, M>();
    var i := Find(h.clientData, id);
    if i == |h.clientData| then (h, none)
    else
      match Acknowledge(h.clientData[i])
      case Some(next) => (h.(clientData := h.clientData[i := next]), none.(sends := [next]))
      case None =>
        var rest := h.clientData[..i] + h.clientData[i + 1..];
        var h' := h.(clientData := rest, clock := Tick(h.clock));
        var e := none.(timers := [Tick(h.clock)]);
        if |h.ring| >= CAPACITY then (h', e.(failed := true)) else (h'.(ring := h.ring + [id]), e)
  }

  function ReceiveStep<T, M>(h: Hub<T, M>, qos: QoSWithPacketId, message: M): (Hub<T, M>, Effects<T, M>) {
    var none := Nothing<T, M>();
    if qos.AtMostOnce? then (h, none.(delivered := [message]))
    else if qos.id in h.rxPublishId then (h, none)
    else
      (h.(rxPublish := h.rxPublish[qos.id := message], rxPublishId := h.rxPublishId[qos.id := qos.id]),
       none.(receives := [qos]))
  }

  /** `deal_hub_msg` */
  function HubMsgStep<T, M>(h: Hub<T, M>, msg: HubMsg<M>): (Hub<T, M>, Effects<T, M>) {
    var none := Nothing<T, M>();
    match msg
    case RecoverId(id) => RecoverStep(h, id)
    case PingSuccess => (h.(clock := Tick(h.clock)), none.(timers := [Tick(h.clock)]))
    case PingFail => (h.(phase := ToDisconnect(PingFailed)), none.(notices := [SaidConnectedErr]))
    case KeepAlive(token) => (h, if token == h.clock then none.(pings := 1) else none)
    case RxPublish(qos, message) => ReceiveStep(h, qos, message)
    case AffirmRxId(id) => (h.(rxPublishId := h.rxPublishId - {id}), none)
    case AffirmRxPublish(id) =>
      if id in h.rxPublish then (h.(rxPublish := h.rxPublish - {id}), none.(delivered := [h.rxPublish[id]]))
      else (h, none)
  }

  /** `deal_client_command_when_connected` */
  function CommandStep<T, M>(h: Hub<T, M>, command: Command): (Hub<T, M>, Effects<T, M>) {
    var none := Nothing<T, M>();
    match command
    case DisconnectAndDrop => (h.(phase := ToDisconnect(ClientCommand)), none)
    case ViolenceDisconnectAndDrop => (h.(phase := Disconnected), none.(failed := true))
  }

  /** `try_deal_client_command_when_to_connect`, for one command. */
  function CommandWhileConnectingStep<T, M>(h: Hub<T, M>, command: Command): (Hub<T, M>, Effects<T, M>) {
    (h.(phase := Disconnected), Nothing<T, M>().(failed := command.ViolenceDisconnectAndDrop?))
  }

  /** `update_connected_state_by_network_status` */
  function NetworkStep<T, M>(h: Hub<T, M>, event: NetworkEvent): (Hub<T, M>, Effects<T, M>) {
    var none := Nothing<T, M>();
    match event
    case ConnectedErr => (h.(phase := ToDisconnect(NetworkErr)), none.(notices := [SaidConnectedErr]))
    case BrokerDisconnect =>
      (h.(phase := if h.autoReconnect then ToConnect else Disconnected), none.(notices := [SaidConnectedErr]))
    case _ => (h, none)
  }

  /** The event a connection attempt ends with; on success every request in flight is started again, in order. */
  function ConnectStep<T, M>(h: Hub<T, M>, event: NetworkEvent): (Hub<T, M>, Effects<T, M>) {
    var none := Nothing<T, M>();
    match event
    case NetConnected(sessionPresent) =>
      (h.(phase := Connected, clock := Tick(h.clock)),
       none.(timers := [Tick(h.clock)], notices := [SaidConnected(sessionPresent)], sends := h.clientData))
    case ConnectedErr => (h, none)
    case _ =>
      var e := none.(notices := [if event.ConnectFail? then SaidConnectFail else SaidConnectedErr]);
      if h.autoReconnect then (h, e) else (h.(phase := Disconnected), e.(failed := true))
  }

  /** The `ToDisconnect` arm of `run`. */
  function DisconnectStep<T, M>(h: Hub<T, M>): (Hub<T, M>, Effects<T, M>)
    requires h.phase.ToDisconnect?
  {
    var next := if h.phase.reason != ClientCommand && h.autoReconnect then ToConnect else Disconnected;
    (h.(phase := next), Nothing<T, M>().(closesNetwork := true))
  }

  /** 1..=65535, as the ring is filled. */
  function FullRing(): (ring: seq<u16>)
    ensures |ring| == 65535
    ensures forall i :: 0 <= i < 65535 ==> ring[i] == i + 1
  {
    seq(65535, (i: nat) requires i < 65535 => (i + 1) as u16)
  }

  function InitialHub<T, M>(autoReconnect: bool): Hub<T, M> {
    Hub(ToConnect, FullRing(), [], map[], map[], 0, autoReconnect)
  }

  // ----- What a step leaves alone -----

  lemma RecoverKeeps<T, M>(h: Hub<T, M>, id: u16)
    ensures var (h', e) := RecoverStep(h, id);
            && h' == h.(clientData := h'.clientData, ring := h'.ring, clock := h'.clock)
            && e.delivered == [] && e.notices == [] && !e.closesNetwork && e.sendsOnce == []
  {
    hide Find;
  }

  lemma ReceiveKeeps<T, M>(h: Hub<T, M>, qos: QoSWithPacketId, message: M)
    ensures var (h', e) := ReceiveStep(h, qos, message);
            && h' == h.(rxPublish := h'.rxPublish, rxPublishId := h'.rxPublishId)
            && (forall x :: x in h.rxPublishId && x in h.rxPublish ==>
                  x in h'.rxPublish && h'.rxPublish[x] == h.rxPublish[x])
            && e.notices == [] && !e.closesNetwork && e.sendsOnce == []
  {
  }

  /** Only a failed ping moves the hub out of its phase, and only incoming messages touch what it holds of them. */
  lemma MessageKeeps<T, M>(h: Hub<T, M>, msg: HubMsg<M>)
    ensures var (h', e) := HubMsgStep(h, msg);
            && h'.autoReconnect == h.autoReconnect
            && h'.phase == (if msg.PingFail? then ToDisconnect(PingFailed) else h.phase)
            && e.notices == (if msg.PingFail? then [SaidConnectedErr] else []) && !e.closesNetwork && e.sendsOnce == []
            && (msg.RxPublish? || msg.AffirmRxId? || msg.AffirmRxPublish?
                || (h'.rxPublish == h.rxPublish && h'.rxPublishId == h.rxPublishId && e.delivered == []))
  {
    hide RecoverStep, ReceiveStep;
    if msg.RecoverId? {
      RecoverKeeps(h, msg.id);
    } else if msg.RxPublish? {
      ReceiveKeeps(h, msg.qos, msg.message);
    }
  }

  lemma RequestKeeps<T, M>(h: Hub<T, M>, req: ClientData<T>)
    ensures var (h', e) := ClientDataStep(h, req);
            h' == h.(ring := h'.ring, clientData := h'.clientData) && e.notices == [] && !e.closesNetwork
  {
  }
}
