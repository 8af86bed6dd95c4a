/**
 Runs in which a RecoverId strikes a request it was not sent for. Both ways out of a clean run are real: reconnecting
 while a sender is still alive, and issuing an id between the two RecoverIds of a QoS 1 publish.
 */
module Strikes {
  import opened Wire
  import opened HubSteps
  import opened Session
  import opened Projections

  /** The part of the state these runs turn on. */
  datatype Scene = Scene(
    phase: Phase,
    entries: seq<Entry<nat>>,
    queue: seq<Event>,
    tasks: map<nat, Task>,
    nextTask: nat,
    acks: seq<BrokerAck>,
    log: seq<Request>)

  ghost function Seen(s: System): Scene {
    Scene(s.hub.phase, s.hub.clientData, s.queue, s.tasks, s.nextTask, s.acks, s.log)
  }

  lemma SeenNext(s: System, a: Action)
    ensures var h := HubNext(s, a);
            Seen(Next(s, a)) == Scene(
              h.phase,
              h.clientData,
              if Taking(s, a) then s.queue[1..] else s.queue + Appended(s, a),
              if !Moves(s, a) then Spawn(s.tasks, s.nextTask, Started(s, a))
              else match Moved(s, a) case Some(t) => s.tasks[a.task := t] case None => s.tasks - {a.task},
              s.nextTask + (if Moves(s, a) then 0 else |Started(s, a)|),
              s.acks + (if a.BrokerAcks? then [a.ack] else []),
              LogNext(s, a))
  {
    NextHub(s, a);
    NextQueue(s, a);
    NextTasks(s, a);
    NextLog(s, a);
    NextHistory(s, a);
    hide Next;
  }

  /** The scene after an action, by whom it is: a task, the outside, or the hub. */
  lemma SeenTurn(s: System, a: Action)
    requires Moves(s, a)
    ensures Next(s, a).hub == s.hub
    ensures Seen(Next(s, a)) == Seen(s).(
                                  queue := s.queue + Appended(s, a),
                                  tasks := match Moved(s, a)
                                           case Some(t) => s.tasks[a.task := t]
                                           case None => s.tasks - {a.task})
  {
    SeenNext(s, a);
    NextHub(s, a);
    hide Next, Moved, Appended;
    assert s.acks + [] == s.acks;
  }

  lemma SeenSubmit(s: System, request: RequestKind)
    ensures Next(s, ClientSubmits(request)) == s.(queue := s.queue + [FromClient(request)])
  {
  }

  lemma SeenAck(s: System, ack: BrokerAck)
    ensures Next(s, BrokerAcks(ack)) == s.(acks := s.acks + [ack])
  {
  }

  lemma SeenHub(s: System, a: Action)
    requires Taking(s, a) || a.HubConnects? || a.HubNetwork?
    ensures Next(s, a).hub == HubNext(s, a)
    ensures Seen(Next(s, a)) == Scene(
              HubNext(s, a).phase,
              HubNext(s, a).clientData,
              if Taking(s, a) then s.queue[1..] else s.queue,
              Spawn(s.tasks, s.nextTask, Started(s, a)),
              s.nextTask + |Started(s, a)|,
              s.acks,
              LogNext(s, a))
  {
    SeenNext(s, a);
    NextHub(s, a);
    hide Next, Started, LogNext, HubNext;
    assert s.acks + [] == s.acks && s.queue + [] == s.queue;
  }

  // ----- What the senders of request 0 do, under id 1 -----

  function Sender(kind: SendKind, pc: SendPc, read: nat): Task {
    Send(kind, 1, 0, pc, read)
  }

  function Recovery(kind: SendKind, second: bool): Event {
    FromTask(RecoverId(1), Recovers(0, kind, second))
  }

  lemma SenderWrites(s: System, t: nat, kind: SendKind)
    requires t in s.tasks && s.tasks[t] == Sender(kind, Start, 0)
    ensures var s' := Next(s, TaskWrites(t));
            s'.hub == s.hub && Seen(s') == Seen(s).(tasks := s.tasks[t := Sender(kind, Waiting, 0)])
  {
    SeenTurn(s, TaskWrites(t));
    hide Next;
    assert s.queue + [] == s.queue;
  }

  lemma SenderReads(s: System, t: nat, kind: SendKind)
    requires t in s.tasks && s.tasks[t] == Sender(kind, Waiting, 0) && s.acks == [AckOf(kind, 1)]
    ensures var s' := Next(s, TaskReads(t));
            s'.hub == s.hub && Seen(s') == Seen(s).(tasks := s.tasks[t := Sender(kind, Acked, 1)])
  {
    SeenTurn(s, TaskReads(t));
    hide Next;
    assert s.queue + [] == s.queue;
  }

  lemma SenderReports(s: System, t: nat, kind: SendKind)
    requires t in s.tasks && s.tasks[t] == Sender(kind, Acked, 1)
    ensures var s' := Next(s, TaskDispatches(t));
            && s'.hub == s.hub
            && Seen(s') == Seen(s).(
                             queue := s.queue + [Recovery(kind, false)],
                             tasks := s.tasks[t := Sender(kind, if kind == Publish1 then AckedAgain else Report, 1)])
  {
    SeenTurn(s, TaskDispatches(t));
    hide Next;
  }

  /** A QoS 1 publish reports a second time. */
  lemma SenderRepeats(s: System, t: nat)
    requires t in s.tasks && s.tasks[t] == Sender(Publish1, AckedAgain, 1)
    ensures var s' := Next(s, TaskDispatches(t));
            && s'.hub == s.hub
            && Seen(s') == Seen(s).(
                             queue := s.queue + [Recovery(Publish1, true)],
                             tasks := s.tasks[t := Sender(Publish1, Report, 1)])
  {
    SeenTurn(s, TaskDispatches(t));
    hide Next;
  }

  // ----- A reconnection while the first sender lives -----

  /** One QoS 2 publish is in flight. */
  function OneInFlight(phase: Phase, tasks: map<nat, Task>, nextTask: nat): Scene {
    Scene(phase, [PublishQoS2(1, 0)], [], tasks, nextTask, [], [Request(Publish2, 1, Open)])
  }

  lemma ConnectsIdle(s: System)
    requires Seen(s) == Scene(ToConnect, [], [], map[], 0, [], [])
    ensures var s' := Next(s, HubConnects(NetConnected(false)));
            && Seen(s') == Seen(s).(phase := Connected)
            && s'.hub.ring == s.hub.ring && s'.hub.autoReconnect == s.hub.autoReconnect
  {
    SeenHub(s, HubConnects(NetConnected(false)));
    hide Next;
  }

  lemma TakesFirst(s: System)
    requires s.hub.ring != [] && s.hub.ring[0] == 1
    requires Seen(s) == Scene(Connected, [], [FromClient(ReqQoS2)], map[], 0, [], [])
    ensures var s' := Next(s, HubTakes);
            && Seen(s') == OneInFlight(Connected, map[0 := Sender(Publish2, Start, 0)], 1)
            && s'.hub.autoReconnect == s.hub.autoReconnect
  {
    SeenHub(s, HubTakes);
    hide Next;
  }

  lemma LosesConnection(s: System)
    requires s.hub.phase.Connected? && s.hub.autoReconnect
    ensures Seen(Next(s, HubNetwork(BrokerDisconnect))) == Seen(s).(phase := ToConnect)
  {
    SeenHub(s, HubNetwork(BrokerDisconnect));
    hide Next;
  }

  lemma ConnectsAgain(s: System)
    requires Seen(s) == OneInFlight(ToConnect, map[0 := Sender(Publish2, Waiting, 0)], 1)
    ensures var tasks := map[0 := Sender(Publish2, Waiting, 0), 1 := Sender(Publish2, Start, 0)];
            Seen(Next(s, HubConnects(NetConnected(true)))) == OneInFlight(Connected, tasks, 2)
  {
    SeenHub(s, HubConnects(NetConnected(true)));
    hide Next;
  }

  /** The first RecoverId turns the entry to PUBREL. */
  lemma TakesRecovery(s: System)
    requires s.hub.phase.Connected? && s.hub.clientData == [PublishQoS2(1, 0)]
    requires s.queue == [Recovery(Publish2, false), Recovery(Publish2, false)] && s.log == [Request(Publish2, 1, Open)]
    ensures var s' := Next(s, HubTakes);
            && s'.hub.phase.Connected? && s'.hub.clientData == [PubRel(1, 0)]
            && s'.queue == [Recovery(Publish2, false)] && s'.log == [Request(Publish2, 1, Released)] && s'.acks == s.acks
  {
    SeenHub(s, HubTakes);
    hide Next, Spawn, Started;
  }

  /** The second strikes the PUBREL entry that the first has made. */
  lemma TakesRecoveryAgain(s: System)
    requires s.hub.phase.Connected? && s.hub.clientData == [PubRel(1, 0)]
    requires s.queue == [Recovery(Publish2, false)] && s.log == [Request(Publish2, 1, Released)]
    ensures var s' := Next(s, HubTakes);
            s'.hub.clientData == [] && s'.log == [Request(Publish2, 1, Closed)] && s'.acks == s.acks
  {
    SeenHub(s, HubTakes);
    hide Next, Spawn, Started;
  }

  /** To a state with one QoS 2 publish and a sender of it from each of two connections. */
  lemma TwoSenders() returns (run: seq<Action>, s: System)
    ensures RunFrom(Init(true), run) == s
    ensures Seen(s) == OneInFlight(Connected, map[0 := Sender(Publish2, Waiting, 0), 1 := Sender(Publish2, Waiting, 0)], 2)
  {
    var s0 := Init(true);
    assert s0.hub.ring[0] == 1;
    assert RunFrom(s0, []) == s0;
    hide FullRing, RunFrom, Next;
    ConnectsIdle(s0);
    run, s := RunThen(s0, [], s0, HubConnects(NetConnected(false)));
    SeenSubmit(s, ReqQoS2);
    run, s := RunThen(s0, run, s, ClientSubmits(ReqQoS2));
    TakesFirst(s);
    run, s := RunThen(s0, run, s, HubTakes);
    SenderWrites(s, 0, Publish2);
    run, s := RunThen(s0, run, s, TaskWrites(0));
    LosesConnection(s);
    run, s := RunThen(s0, run, s, HubNetwork(BrokerDisconnect));
    ConnectsAgain(s);
    run, s := RunThen(s0, run, s, HubConnects(NetConnected(true)));
    SenderWrites(s, 1, Publish2);
    run, s := RunThen(s0, run, s, TaskWrites(1));
  }

  /**
   A reachable state in which a QoS 2 publish is complete and its id is back in the pool, although the broker has sent
   one PUBREC and no PUBCOMP at all: the sender of the first connection was still alive when the second was made, and
   both have read and reported the PUBREC.
   */
  lemma ReconnectStrikes() returns (run: seq<Action>)
    ensures var s := Run(true, run);
            && s.log == [Request(Publish2, 1, Closed)] && s.hub.clientData == []
            && s.acks == [AckOf(Publish2, 1)]
  {
    var s: System;
    run, s := TwoSenders();
    var s0 := Init(true);
    hide RunFrom, Next, Init;
    SeenAck(s, AckOf(Publish2, 1));
    run, s := RunThen(s0, run, s, BrokerAcks(AckOf(Publish2, 1)));
    SenderReads(s, 0, Publish2);
    run, s := RunThen(s0, run, s, TaskReads(0));
    SenderReads(s, 1, Publish2);
    run, s := RunThen(s0, run, s, TaskReads(1));
    SenderReports(s, 0, Publish2);
    run, s := RunThen(s0, run, s, TaskDispatches(0));
    SenderReports(s, 1, Publish2);
    run, s := RunThen(s0, run, s, TaskDispatches(1));
    TakesRecovery(s);
    run, s := RunThen(s0, run, s, HubTakes);
    TakesRecoveryAgain(s);
    run, s := RunThen(s0, run, s, HubTakes);
  }

  // ----- An id issued between the two RecoverIds of a QoS 1 publish -----

  /** Every id is in flight, as k QoS 1 publishes; the first of them is about to be written. */
  ghost predicate InFlight(s: System, k: nat) {
    && k <= 65535 && s.hub.phase.Connected? && s.hub.ring == FullRing()[k..] && s.queue == [] && s.acks == []
    && |s.hub.clientData| == k && |s.log| == k && s.nextTask == k
    && (k > 0 ==> s.hub.clientData[0] == PublishQoS1(1, 0) && s.log[0] == Request(Publish1, 1, Open)
                  && 0 in s.tasks && s.tasks[0] == Sender(Publish1, Start, 0))
    && (forall i :: 0 <= i < k ==> s.hub.clientData[i].id == i + 1)
    && (forall u :: 0 <= u < k ==> s.log[u].id == u + 1)
  }

  lemma {:induction false} Fill(k: nat) returns (run: seq<Action>, s: System)
    requires k <= 65535
    ensures RunFrom(Init(true), run) == s && InFlight(s, k)
    decreases k
  {
    if k == 0 {
      var s0 := Init(true);
      assert RunFrom(s0, []) == s0;
      hide RunFrom, Next, FullRing;
      SeenHub(s0, HubConnects(NetConnected(false)));
      run, s := RunThen(s0, [], s0, HubConnects(NetConnected(false)));
      assert FullRing()[0..] == FullRing();
    } else {
      run, s := Fill(k - 1);
      hide RunFrom, Next, FullRing, InFlight;
      SeenSubmit(s, ReqQoS1);
      OneMore(s, k - 1);
      run, s := RunThen(Init(true), run, s, ClientSubmits(ReqQoS1));
      run, s := RunThen(Init(true), run, s, HubTakes);
    }
  }

  lemma OneMore(s: System, k: nat)
    requires InFlight(s, k) && k < 65535
    ensures InFlight(Next(s.(queue := s.queue + [FromClient(ReqQoS1)]), HubTakes), k + 1)
  {
    var s1 := s.(queue := s.queue + [FromClient(ReqQoS1)]);
    assert s.hub.ring[0] == k + 1;
    SeenHub(s1, HubTakes);
    hide Next, FullRing;
    var e: Entry<nat> := PublishQoS1((k + 1) as u16, k);
    assert HubNext(s1, HubTakes) == s1.hub.(ring := s1.hub.ring[1..], clientData := s1.hub.clientData + [e]);
    assert Started(s1, HubTakes) == [Send(Publish1, (k + 1) as u16, k, Start, 0)] by { SendsOne(e); }
    hide HubNext, Started, InFlight, Spawn;
    OneMoreInFlight(s, Next(s1, HubTakes), k);
  }

  lemma OneMoreInFlight(s: System, s': System, k: nat)
    requires InFlight(s, k) && k < 65535 && s'.queue == [] && s'.acks == [] && s'.nextTask == k + 1
    requires s'.hub == s.hub.(ring := s.hub.ring[1..], clientData := s.hub.clientData + [PublishQoS1((k + 1) as u16, k)])
    requires s'.log == s.log + [Request(Publish1, (k + 1) as u16, Open)]
    requires s'.tasks == Spawn(s.tasks, k, [Send(Publish1, (k + 1) as u16, k, Start, 0)])
    ensures InFlight(s', k + 1)
  {
    hide FullRing;
    assert FullRing()[k..][1..] == FullRing()[k + 1..];
  }

  lemma SendsOne(e: Entry<nat>)
    ensures SendTasks([e], 0) == [SendTask(e, 0)]
  {
  }

  /** What the last part of the run turns on; es are the requests behind the first. */
  ghost predicate Crowd(es: seq<Entry<nat>>, rs: seq<Request>) {
    && |es| == |rs| == 65534
    && (forall i :: 0 <= i < |es| ==> es[i].id != 1) && (forall u :: 0 <= u < |rs| ==> rs[u].id != 1)
  }

  lemma {:induction false} HolderBound(log: seq<Request>, k: nat, id: u16, u: nat)
    requires k <= u < |log| && log[u].id == id && log[u].status != Closed
    ensures Holder(log, k, id) <= u
    decreases |log| - k
  {
    if k < u {
      HolderBound(log, k + 1, id, u);
    }
  }

  /** The first RecoverId of the QoS 1 publish frees id 1. */
  lemma FirstFrees(s: System, es: seq<Entry<nat>>, rs: seq<Request>)
    requires Crowd(es, rs) && s.hub.phase.Connected? && s.hub.ring == []
    requires s.hub.clientData == [PublishQoS1(1, 0)] + es && s.log == [Request(Publish1, 1, Open)] + rs
    requires s.queue == [Recovery(Publish1, false), FromClient(ReqQoS2), Recovery(Publish1, true)]
    ensures var s' := Next(s, HubTakes);
            && s'.hub.phase.Connected? && s'.acks == s.acks
            && s'.hub.clientData == es && s'.hub.ring == [1] && s'.log == [Request(Publish1, 1, Closed)] + rs
            && s'.queue == [FromClient(ReqQoS2), Recovery(Publish1, true)]
  {
    assert Find(s.hub.clientData, 1) == 0 by { FirstIsFound(es); }
    assert Holder(s.log, 0, 1) == 0 by { HolderBound(s.log, 0, 1, 0); }
    SeenHub(s, HubTakes);
    hide Next, Spawn, SendTasks, Find, Holder, Started;
  }

  lemma FirstIsFound(es: seq<Entry<nat>>)
    ensures Find([PublishQoS1(1, 0)] + es, 1) == 0
  {
  }

  /** The waiting request gets the id. */
  lemma IdReissued(s: System, es: seq<Entry<nat>>, rs: seq<Request>)
    requires Crowd(es, rs) && s.hub.phase.Connected? && s.hub.clientData == es && s.hub.ring == [1]
    requires s.log == [Request(Publish1, 1, Closed)] + rs
    requires s.queue == [FromClient(ReqQoS2), Recovery(Publish1, true)]
    ensures var s' := Next(s, HubTakes);
            && s'.hub.phase.Connected? && s'.acks == s.acks && s'.queue == [Recovery(Publish1, true)]
            && s'.log == [Request(Publish1, 1, Closed)] + rs + [Request(Publish2, 1, Open)]
  {
    SeenHub(s, HubTakes);
    hide Next, Spawn, SendTasks, Started;
  }

  /** The second RecoverId strikes that request. */
  lemma SecondStrikes(s: System, rs: seq<Request>)
    requires s.hub.phase.Connected? && s.queue == [Recovery(Publish1, true)] && |rs| == 65534
    requires s.log == [Request(Publish1, 1, Closed)] + rs + [Request(Publish2, 1, Open)]
    requires forall u :: 0 <= u < |rs| ==> rs[u].id != 1
    ensures var s' := Next(s, HubTakes);
            && s'.acks == s.acks && |s'.log| == 65536 && s'.log[65535] == Request(Publish2, 1, Released)
  {
    SeenHub(s, HubTakes);
    hide Next, Spawn, SendTasks, Find, Holder, Started, HubNext;
    assert s.log[65535] == Request(Publish2, 1, Open);
    HolderBound(s.log, 0, 1, 65535);
    assert Holder(s.log, 0, 1) == 65535;
  }

  /** To a state with all ids in flight. */
  lemma AllInFlight() returns (run: seq<Action>, s: System, es: seq<Entry<nat>>, rs: seq<Request>)
    ensures RunFrom(Init(true), run) == s && Crowd(es, rs) && s.hub.phase.Connected? && s.hub.ring == []
    ensures s.hub.clientData == [PublishQoS1(1, 0)] + es && s.log == [Request(Publish1, 1, Open)] + rs
    ensures s.queue == [] && s.acks == [] && 0 in s.tasks && s.tasks[0] == Sender(Publish1, Start, 0)
  {
    run, s := Fill(65535);
    assert s.hub.ring == [];
    es, rs := s.hub.clientData[1..], s.log[1..];
    assert s.hub.clientData == [PublishQoS1(1, 0)] + es && s.log == [Request(Publish1, 1, Open)] + rs;
  }

  /** And further, to a state with a request queued between the two RecoverIds of the first of them. */
  lemma RequestBetween() returns (run: seq<Action>, s: System, es: seq<Entry<nat>>, rs: seq<Request>)
    ensures RunFrom(Init(true), run) == s && Crowd(es, rs) && s.hub.phase.Connected? && s.hub.ring == []
    ensures s.hub.clientData == [PublishQoS1(1, 0)] + es && s.log == [Request(Publish1, 1, Open)] + rs
    ensures s.queue == [Recovery(Publish1, false), FromClient(ReqQoS2), Recovery(Publish1, true)]
    ensures s.acks == [AckOf(Publish1, 1)]
  {
    run, s, es, rs := AllInFlight();
    var s0 := Init(true);
    hide RunFrom, Next, Init, Crowd;
    SenderWrites(s, 0, Publish1);
    run, s := RunThen(s0, run, s, TaskWrites(0));
    SeenAck(s, AckOf(Publish1, 1));
    run, s := RunThen(s0, run, s, BrokerAcks(AckOf(Publish1, 1)));
    SenderReads(s, 0, Publish1);
    run, s := RunThen(s0, run, s, TaskReads(0));
    SenderReports(s, 0, Publish1);
    run, s := RunThen(s0, run, s, TaskDispatches(0));
    SeenSubmit(s, ReqQoS2);
    run, s := RunThen(s0, run, s, ClientSubmits(ReqQoS2));
    SenderRepeats(s, 0);
    run, s := RunThen(s0, run, s, TaskDispatches(0));
  }

  /**
   A reachable state in which a QoS 2 publish has turned to PUBREL, although the broker has sent no PUBREC: with
   all ids in flight, its id was issued between the two RecoverIds of the QoS 1 publish that held it before.
   */
  lemma ReissueStrikes() returns (run: seq<Action>)
    ensures var s := Run(true, run);
            && |s.log| == 65536 && s.log[65535] == Request(Publish2, 1, Released)
            && s.acks == [AckOf(Publish1, 1)]
  {
    var s: System, es: seq<Entry<nat>>, rs: seq<Request>;
    run, s, es, rs := RequestBetween();
    hide RunFrom, Next, Init;
    FirstFrees(s, es, rs);
    run, s := RunThen(Init(true), run, s, HubTakes);
    IdReissued(s, es, rs);
    run, s := RunThen(Init(true), run, s, HubTakes);
    SecondStrikes(s, rs);
    run, s := RunThen(Init(true), run, s, HubTakes);
  }
}
