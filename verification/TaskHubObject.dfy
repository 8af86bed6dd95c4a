/** `TaskHub`: the object that owns the state, updated in place. Each method is one of the steps of module HubSteps. */
module TaskHubObject {
  import opened Wire
  import opened PublishPacket
  import opened HubSteps

  class TaskHub<T, M> {
    var phase: Phase
    var ring: seq<u16>
    var clientData: seq<Entry<T>>
    var rxPublish: map<u16, M>
    var rxPublishId: map<u16, u16>
    var clock: u32
    const autoReconnect: bool

    ghost function Abs(): Hub<T, M>
      reads this
    {
      Hub(phase, ring, clientData, rxPublish, rxPublishId, clock, autoReconnect)
    }

    /** `TaskHub::connect`: fills the ring with 1..=65535. */
    constructor (autoReconnect: bool)
      ensures Abs() == InitialHub(autoReconnect)
    {
      this.autoReconnect := autoReconnect;
      phase, clientData, rxPublish, rxPublishId, clock := ToConnect, [], map[], map[], 0;
      ring := [];
      new;
      var i: u16 := 0;
      while i < 65535
        invariant ring == FullRing()[..i]
        invariant this.autoReconnect == autoReconnect
        invariant phase == ToConnect && clientData == [] && rxPublish == map[] && rxPublishId == map[] && clock == 0
      {
        i := i + 1;
        ring := ring + [i];
      }
      assert FullRing()[..i] == FullRing();
    }

    /** `request_id`: pops the oldest free id. */
    method RequestId() returns (id: Option<u16>)
      modifies this`ring
      ensures old(ring) == [] ==> id == None && ring == []
      ensures old(ring) != [] ==> id == Some(old(ring)[0]) && ring == old(ring)[1..]
    {
      if ring == [] {
        return None;
      }
      id := Some(ring[0]);
      ring := ring[1..];
    }

    method InitKeepAliveCheck() returns (token: u32)
      modifies this`clock
      ensures token == clock == Tick(old(clock))
    {
      clock := (clock + 1) % CLOCK_RANGE;
      token := clock;
    }

    method DealClientData(req: ClientData<T>) returns (e: Effects<T, M>)
      modifies this
      ensures (Abs(), e) == ClientDataStep(old(Abs()), req)
    {
      e := Nothing();
      if req.kind == ReqQoS0 {
        return e.(sendsOnce := [req.trace]);
      }
      var id := RequestId();
      if id.None? {
        return e.(failed := true);
      }
      var entry := NewEntry(req.kind, id.value, req.trace);
      clientData := clientData + [entry];
      e := e.(sends := [entry]);
    }

    /** The search through `client_data`. */
    method IndexOf(id: u16) returns (i: nat)
      ensures i == Find(clientData, id)
    {
      i := 0;
      while i < |clientData| && clientData[i].id != id
        invariant i <= |clientData|
        invariant Find(clientData, id) == i + Find(clientData[i..], id)
      {
        assert clientData[i..][1..] == clientData[i + 1..];
        i := i + 1;
      }
    }

    method Recover(id: u16) returns (e: Effects<T, M>)
      modifies this
      ensures (Abs(), e) == RecoverStep(old(Abs()), id)
    {
      e := Nothing();
      var i := IndexOf(id);
      if i == |clientData| {
        return;
      }
      match Acknowledge(clientData[i]) {
        case Some(next) =>
          clientData := clientData[i := next];
          e := e.(sends := [next]);
        case None =>
          clientData := clientData[..i] + clientData[i + 1..];
          var token := InitKeepAliveCheck();
          e := e.(timers := [token]);
          if |ring| >= CAPACITY {
            return e.(failed := true);
          }
          ring := ring + [id];
      }
    }

    method Receive(qos: QoSWithPacketId, message: M) returns (e: Effects<T, M>)
      modifies this
      ensures (Abs(), e) == ReceiveStep(old(Abs()), qos, message)
      ensures e.delivered == (if qos.AtMostOnce? then [message] else [])
      ensures e.receives == if qos.AtMostOnce? || qos.id in old(rxPublishId) then [] else [qos]
      ensures e.receives == [] ==> rxPublish == old(rxPublish) && rxPublishId == old(rxPublishId)
      ensures e.receives != [] ==> rxPublish == old(rxPublish)[qos.id := message] && qos.id in rxPublishId
    {
      e := Nothing();
      match qos {
        case AtMostOnce => e := e.(delivered := [message]);
        case AtLeastOnce(id) =>
          if id !in rxPublishId {
            rxPublish := rxPublish[id := message];
            rxPublishId := rxPublishId[id := id];
            e := e.(receives := [qos]);
          }
        case ExactlyOnce(id) =>
          if id !in rxPublishId {
            e := e.(receives := [qos]);
            rxPublish := rxPublish[id := message];
            rxPublishId := rxPublishId[id := id];
          }
      }
    }

    /** `deal_hub_msg` */
    method DealHubMsg(msg: HubMsg<M>) returns (e: Effects<T, M>)
      modifies this
      ensures (Abs(), e) == HubMsgStep(old(Abs()), msg)
      ensures msg.RxPublish? && msg.qos.AtMostOnce? ==> e.delivered == [msg.message]
    {
      e := Nothing();
      match msg {
        case RecoverId(id) => e := Recover(id);
        case PingSuccess =>
          var token := InitKeepAliveCheck();
          e := e.(timers := [token]);
        case PingFail =>
          phase := ToDisconnect(PingFailed);
          e := e.(notices := [SaidConnectedErr]);
        case KeepAlive(token) =>
          if token == clock {
            e := e.(pings := 1);
          }
        case RxPublish(qos, message) => e := Receive(qos, message);
        case AffirmRxId(id) => rxPublishId := rxPublishId - {id};
        case AffirmRxPublish(id) =>
          if id in rxPublish {
            e := e.(delivered := [rxPublish[id]]);
            rxPublish := rxPublish - {id};
          }
      }
    }

    /** `deal_client_command_when_connected` */
    method DealClientCommand(command: Command) returns (e: Effects<T, M>)
      modifies this
      ensures (Abs(), e) == CommandStep(old(Abs()), command)
    {
      e := Nothing();
      match command {
        case DisconnectAndDrop => phase := ToDisconnect(ClientCommand);
        case ViolenceDisconnectAndDrop =>
          phase := Disconnected;
          e := e.(failed := true);
      }
    }

    /** `update_connected_state_by_network_status` */
    method UpdateConnectedState(event: NetworkEvent) returns (e: Effects<T, M>)
      modifies this
      ensures (Abs(), e) == NetworkStep(old(Abs()), event)
    {
      e := Nothing();
      match event {
        case ConnectedErr =>
          phase := ToDisconnect(NetworkErr);
          e := e.(notices := [SaidConnectedErr]);
        case BrokerDisconnect =>
          e := e.(notices := [SaidConnectedErr]);
          phase := if autoReconnect then ToConnect else Disconnected;
        case NetConnected(_) =>
        case ConnectFail =>
      }
    }

    /** The end of one connection attempt, and the restart loop of `run` after a successful one. */
    method FinishConnect(event: NetworkEvent) returns (e: Effects<T, M>)
      modifies this
      ensures (Abs(), e) == ConnectStep(old(Abs()), event)
    {
      e := Nothing();
      match event {
        case NetConnected(sessionPresent) =>
          phase := Connected;
          var token := InitKeepAliveCheck();
          e := e.(timers := [token], notices := [SaidConnected(sessionPresent)]);
          var i := 0;
          while i < |clientData|
            invariant i <= |clientData|
            invariant e == Effects([], [], [], 0, [token], [], [SaidConnected(sessionPresent)], false, false)
                           .(sends := clientData[..i])
          {
            e := e.(sends := e.sends + [clientData[i]]);
            assert clientData[..i] + [clientData[i]] == clientData[..i + 1];
            i := i + 1;
          }
          assert clientData[..i] == clientData;
        case ConnectedErr =>
        case ConnectFail =>
          e := e.(notices := [SaidConnectFail]);
          if !autoReconnect {
            phase := Disconnected;
            e := e.(failed := true);
          }
        case BrokerDisconnect =>
          e := e.(notices := [SaidConnectedErr]);
          if !autoReconnect {
            phase := Disconnected;
            e := e.(failed := true);
          }
      }
    }

    /** The `ToDisconnect` arm of `run`. */
    method CloseConnection() returns (e: Effects<T, M>)
      requires phase.ToDisconnect?
      modifies this
      ensures (Abs(), e) == DisconnectStep(old(Abs()))
    {
      e := Nothing().(closesNetwork := true);
      match phase.reason {
        case PingFailed => phase := if autoReconnect then ToConnect else Disconnected;
        case ClientCommand => phase := Disconnected;
        case NetworkErr => phase := if autoReconnect then ToConnect else Disconnected;
      }
    }
  }
}
