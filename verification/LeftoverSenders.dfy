/**
 The converse of CleanRuns. Whatever the rest of the state is: if a connection is made while the hub holds an
 unacknowledged QoS 2 publish and a sender for its id is left over, or a RecoverId for it is queued, then some
 continuation strikes that publish; and if an id is issued with either of them about, some continuation strikes the
 request that gets it.
 */
module LeftoverSenders {
  import opened Wire
  import opened HubSteps
  import opened Session
  import opened Projections
  import opened PacketIds
  import opened RequestLog
  import opened Lifecycle
  import opened CleanRuns
  import opened Deliveries
  import Handshakes

  // ----- No PUBREL is acknowledged for a publish that has not had its PUBREC -----

  ghost predicate Turned(s: System, u: nat) {
    u < |s.log| && !s.log[u].status.Open?
  }

  predicate OfRelease(e: Event) {
    e.FromTask? && e.tag.Recovers? && e.tag.kind == Release
  }

  ghost predicate ReleasesTurned(s: System) {
    && (forall t :: t in s.tasks && s.tasks[t].Send? && s.tasks[t].kind == Release ==> Turned(s, s.tasks[t].uid))
    && (forall e :: e in s.queue && OfRelease(e) ==> Turned(s, e.tag.uid))
  }

  lemma StaysTurned(s: System, a: Action)
    ensures forall u :: Turned(s, u) ==> Turned(Next(s, a), u)
  {
    StepOnlyForward(s, a);
    hide Next;
  }

  /** A task that starts with PUBREL is for an entry that has turned. */
  lemma StartsTurned(s: System, a: Action)
    requires Refines(Next(s, a))
    ensures var ts := Started(s, a);
            forall i :: 0 <= i < |ts| && ts[i].Send? && ts[i].kind == Release ==> Turned(Next(s, a), ts[i].uid)
  {
    Handshakes.StartedForEntries(s, a);
    EntriesTurned(Next(s, a));
    hide Next, Started, Refines, Turned;
  }

  lemma EntriesTurned(s: System)
    requires Refines(s)
    ensures forall e :: e in s.hub.clientData && KindOf(e) == Release ==> Turned(s, e.trace)
  {
    ViewContents(s.log, 0);
    hide View;
  }

  lemma MovesTurned(s: System, a: Action)
    requires Moves(s, a)
    ensures Moved(s, a).Some? && Moved(s, a).value.Send? ==>
              var t, t' := s.tasks[a.task], Moved(s, a).value; t.Send? && t'.kind == t.kind && t'.uid == t.uid
  {
  }

  lemma AppendsTurned(s: System, a: Action)
    requires ReleasesTurned(s)
    ensures forall e :: e in Appended(s, a) && OfRelease(e) ==> Turned(s, e.tag.uid)
  {
  }

  lemma StepTurned(s: System, a: Action)
    requires ReleasesTurned(s) && Refines(s)
    ensures ReleasesTurned(Next(s, a))
  {
    hide Next, Started, Moved, Appended, Refines, Turned;
    StepRefines(s, a);
    StaysTurned(s, a);
    StartsTurned(s, a);
    AppendsTurned(s, a);
    NextQueue(s, a);
    NextTasks(s, a);
    if Moves(s, a) {
      MovesTurned(s, a);
    }
  }

  lemma {:induction false} TurnedInEveryRun(autoReconnect: bool, actions: seq<Action>)
    ensures ReleasesTurned(Run(autoReconnect, actions))
    decreases |actions|
  {
    if actions != [] {
      hide Next, ReleasesTurned, Refines;
      var init := actions[..|actions| - 1];
      TurnedInEveryRun(autoReconnect, init);
      RefinesInEveryRun(autoReconnect, init);
      StepTurned(Run(autoReconnect, init), actions[|actions| - 1]);
    }
  }

  // ----- A request that is bound to be struck -----

  /** Struck, or the RecoverIds queued for the id are such that it will be when the hub has taken them. */
  ghost predicate Due(s: System, x: u16, u: nat) {
    var e, tags := EntryFor(s.hub.clientData, x), TagsIn(s.queue, x);
    || u in s.struck
    || (e.Some? && e.value.trace == u && |tags| >= 1 && tags[0] != Recovers(u, KindOf(e.value), false))
    || (e == Some(PublishQoS2(x, u)) && |tags| >= 2 && tags[1] != Recovers(u, Release, false))
  }

  /** The hub takes a RecoverId for the id. */
  lemma TakesDue(s: System, x: u16, u: nat)
    requires Conserved(s.hub) && Due(s, x, u)
    requires Taking(s, HubTakes) && s.queue[0].FromTask? && s.queue[0].msg == RecoverId(x)
    ensures Due(Next(s, HubTakes), x, u)
  {
    IdsApart(s.hub);
    TakesRecoverParts(s, x);
    StrikesEntry(s, x);
    hide Next, EntryFor, TagsIn, Spawn, RestartOf, Conserved, DistinctIds;
    TurnsOrStrikes(s, Next(s, HubTakes), s.queue[0].tag, x, u);
  }

  /** A RecoverId with any other tag than that of the entry strikes it. */
  lemma StrikesEntry(s: System, x: u16)
    requires TakesRecover(s, HubTakes) && s.queue[0].msg.id == x
    ensures s.struck <= Next(s, HubTakes).struck
    ensures var e := EntryFor(s.hub.clientData, x);
            e.Some? && s.queue[0].tag != Recovers(e.value.trace, KindOf(e.value), false)
            ==> e.value.trace in Next(s, HubTakes).struck
  {
    NextHistory(s, HubTakes);
    hide Next;
  }

  lemma TurnsOrStrikes(s: System, s': System, tag: Tag, x: u16, u: nat)
    requires Due(s, x, u) && TagsIn(s.queue, x) == [tag] + TagsIn(s'.queue, x) && s.struck <= s'.struck
    requires var e := EntryFor(s.hub.clientData, x);
             && EntryFor(s'.hub.clientData, x) == AfterRecover(e)
             && (e.Some? && tag != Recovers(e.value.trace, KindOf(e.value), false) ==> e.value.trace in s'.struck)
    ensures Due(s', x, u)
  {
    var tags, tags' := TagsIn(s.queue, x), TagsIn(s'.queue, x);
    assert tags[0] == tag && tags[1..] == tags';
    hide EntryFor, TagsIn;
  }

  /** Any other step. */
  lemma PassesDue(s: System, a: Action, x: u16, u: nat)
    requires Conserved(s.hub) && Due(s, x, u)
    requires !(Taking(s, a) && s.queue[0].FromTask? && s.queue[0].msg == RecoverId(x))
    ensures Due(Next(s, a), x, u)
  {
    NextHistory(s, a);
    if u !in s.struck {
      PassesEntry(s, a, x);
      var more := PassesTags(s, a, x);
    }
    hide Next, EntryFor, TagsIn, StruckBy;
  }

  lemma PassesEntry(s: System, a: Action, x: u16)
    requires Conserved(s.hub) && EntryFor(s.hub.clientData, x).Some?
    requires !(Taking(s, a) && s.queue[0].FromTask? && s.queue[0].msg == RecoverId(x))
    ensures EntryFor(Next(s, a).hub.clientData, x) == EntryFor(s.hub.clientData, x)
  {
    IdsApart(s.hub);
    hide Conserved, DistinctIds, EntryFor;
    if Moves(s, a) && !Taking(s, a) {
      NextHub(s, a);
      hide Next;
    } else {
      AloneEntry(s, a, x);
    }
  }

  lemma PassesTags(s: System, a: Action, x: u16) returns (more: seq<Tag>)
    requires !(Taking(s, a) && s.queue[0].FromTask? && s.queue[0].msg == RecoverId(x))
    ensures TagsIn(Next(s, a).queue, x) == TagsIn(s.queue, x) + more
  {
    NextTags(s, a, x);
    hide Next, TagsIn, Appended;
    if Taking(s, a) || Appended(s, a) == [] {
      more := [];
    } else {
      more := TagOf(Appended(s, a)[0], x);
    }
  }

  lemma {:induction false} StaysDue(s: System, actions: seq<Action>, x: u16, u: nat)
    requires Conserved(s.hub) && Due(s, x, u)
    ensures Conserved(RunFrom(s, actions).hub) && Due(RunFrom(s, actions), x, u)
    decreases |actions|
  {
    hide Conserved, Due, Taking;
    if actions != [] {
      var mid, a := RunFrom(s, actions[..|actions| - 1]), actions[|actions| - 1];
      StaysDue(s, actions[..|actions| - 1], x, u);
      StepConserves(mid, a);
      StepDue(mid, a, x, u);
      hide Next;
    }
  }

  lemma StepDue(s: System, a: Action, x: u16, u: nat)
    requires Conserved(s.hub) && Due(s, x, u)
    ensures Due(Next(s, a), x, u)
  {
    hide Conserved, Due, Next;
    if Taking(s, a) && s.queue[0].FromTask? && s.queue[0].msg == RecoverId(x) {
      TakesDue(s, x, u);
    } else {
      PassesDue(s, a, x, u);
    }
  }

  // ----- A sender gets to its report if the network lets it -----

  /** Only task t has moved, and its report is queued. */
  ghost predicate HasReported(s: System, s': System, t: nat, report: Event) {
    && s'.hub == s.hub && s'.queue == s.queue + [report]
    && forall k :: k in s.tasks && k != t ==> k in s'.tasks && s'.tasks[k] == s.tasks[k]
  }

  /** The next RecoverId of a task that has one to send. */
  function ReportOf(t: Task): Event
    requires Carrier(t)
  {
    FromTask(RecoverId(t.id), Recovers(t.uid, t.kind, t.sendPc.AckedAgain?))
  }

  lemma AckedReports(s: System, t: nat) returns (run: seq<Action>)
    requires t in s.tasks && Carrier(s.tasks[t]) && (s.tasks[t].sendPc.Acked? || s.tasks[t].sendPc.AckedAgain?)
    ensures HasReported(s, RunFrom(s, run), t, ReportOf(s.tasks[t]))
  {
    run := [TaskDispatches(t)];
    RunOne(s, TaskDispatches(t));
  }

  ghost predicate AwaitsAck(s: System, t: nat) {
    t in s.tasks && s.tasks[t].Send? && s.tasks[t].sendPc.Waiting?
  }

  /** With its acknowledgement in the log behind the cursor, the sender reads until it finds one. */
  lemma {:induction false} ReadsToReport(s: System, t: nat) returns (run: seq<Action>)
    requires AwaitsAck(s, t) && s.tasks[t].sendCursor < |s.acks|
    requires s.acks[|s.acks| - 1] == AckOf(s.tasks[t].kind, s.tasks[t].id)
    ensures HasReported(s, RunFrom(s, run), t, ReportOf(s.tasks[t]))
    decreases |s.acks| - s.tasks[t].sendCursor
  {
    hide RunFrom;
    var s', more := Next(s, TaskReads(t)), [];
    RunOne(s, TaskReads(t));
    if s.acks[s.tasks[t].sendCursor] == AckOf(s.tasks[t].kind, s.tasks[t].id) {
      more := AckedReports(s', t);
    } else {
      more := ReadsToReport(s', t);
    }
    run := [TaskReads(t)] + more;
    RunAppend(s, [TaskReads(t)], more);
  }

  /** The broker sends the acknowledgement until one lies at or behind the cursor. */
  lemma {:induction false} AckComes(s: System, t: nat) returns (run: seq<Action>)
    requires AwaitsAck(s, t)
    ensures HasReported(s, RunFrom(s, run), t, ReportOf(s.tasks[t]))
    decreases if s.tasks[t].sendCursor < |s.acks| then 0 else s.tasks[t].sendCursor - |s.acks| + 1
  {
    var a := BrokerAcks(AckOf(s.tasks[t].kind, s.tasks[t].id));
    var s', more := Next(s, a), [];
    if s.tasks[t].sendCursor <= |s.acks| {
      more := ReadsToReport(s', t);
    } else {
      more := AckComes(s', t);
    }
    run := [a] + more;
    RunOne(s, a);
    RunAppend(s, [a], more);
  }

  lemma CarrierReports(s: System, t: nat) returns (run: seq<Action>)
    requires t in s.tasks && Carrier(s.tasks[t])
    ensures HasReported(s, RunFrom(s, run), t, ReportOf(s.tasks[t]))
  {
    var pc := s.tasks[t].sendPc;
    if pc.Acked? || pc.AckedAgain? {
      run := AckedReports(s, t);
    } else if pc.Waiting? {
      run := AckComes(s, t);
    } else {
      var more := AckComes(Next(s, TaskWrites(t)), t);
      run := [TaskWrites(t)] + more;
      RunOne(s, TaskWrites(t));
      RunAppend(s, [TaskWrites(t)], more);
    }
  }

  // ----- The new sender reports behind what is left over, and the hub takes its whole queue -----

  /** The tags queued for an id are those of events in the queue. */
  lemma {:induction false} TagInQueue(q: seq<Event>, x: u16)
    ensures forall tag :: tag in TagsIn(q, x) ==> exists e :: e in q && e.FromTask? && e.msg == RecoverId(x) && e.tag == tag
  {
    if q != [] {
      TagInQueue(q[1..], x);
      assert forall e :: e in q[1..] ==> e in q;
    }
  }

  /** No PUBCOMP of request u is reported in this queue. */
  ghost predicate NoCompletion(q: seq<Event>, u: nat) {
    forall e :: e in q && OfRelease(e) ==> e.tag.uid != u
  }

  lemma TwoTagsDue(s: System, x: u16, u: nat)
    requires EntryFor(s.hub.clientData, x) == Some(PublishQoS2(x, u)) && |TagsIn(s.queue, x)| >= 2
    requires NoCompletion(s.queue, u)
    ensures Due(s, x, u)
  {
    TagInQueue(s.queue, x);
    hide EntryFor, TagsIn;
    assert TagsIn(s.queue, x)[1] in TagsIn(s.queue, x);
  }

  lemma DueWithNothingQueued(s: System, x: u16, u: nat)
    requires Due(s, x, u) && s.queue == []
    ensures u in s.struck
  {
    assert TagsIn(s.queue, x) == [];
  }

  /** The hub can come to the end of its queue. */
  ghost predicate Flows(s: System) {
    s.hub.phase.Connected? && (s.hub.autoReconnect || forall j :: 0 <= j < |s.queue| ==> !IsPingFail(s.queue[j]))
  }

  lemma DueIsStruck(s: System, x: u16, u: nat) returns (run: seq<Action>)
    requires Conserved(s.hub) && Due(s, x, u) && Flows(s)
    ensures u in RunFrom(s, run).struck
  {
    hide Conserved, RunFrom, Due;
    run := Pump(|s.queue|);
    PumpTakes(s, |s.queue|);
    StaysDue(s, run, x, u);
    DueWithNothingQueued(RunFrom(s, run), x, u);
  }

  /** The publish is in flight, its new sender is task t, and the hub is connected. */
  ghost predicate Resent(s: System, t: nat, x: u16, u: nat) {
    && t in s.tasks && s.tasks[t].Send? && s.tasks[t].sendPc.Start?
    && s.tasks[t].kind == Publish2 && s.tasks[t].id == x && s.tasks[t].uid == u
    && Flows(s) && Conserved(s.hub)
    && EntryFor(s.hub.clientData, x) == Some(PublishQoS2(x, u))
  }

  /** A RecoverId for the id is queued already. */
  lemma QueuedStrikes(s: System, t: nat, x: u16, u: nat) returns (run: seq<Action>)
    requires Resent(s, t, x, u) && TagsIn(s.queue, x) != [] && NoCompletion(s.queue, u)
    ensures u in RunFrom(s, run).struck
  {
    hide Conserved, EntryFor, RunFrom, Due, TagsIn;
    var report := CarrierReports(s, t);
    var s1 := RunFrom(s, report);
    TagsAppend(s.queue, ReportOf(s.tasks[t]), x);
    TwoTagsDue(s1, x, u);
    var more := DueIsStruck(s1, x, u);
    run := report + more;
    RunAppend(s, report, more);
  }

  /** A sender for the id is left over. */
  lemma LeftoverStrikes(s: System, old_: nat, t: nat, x: u16, u: nat) returns (run: seq<Action>)
    requires Resent(s, t, x, u) && CarrierFor(s, old_, x) && old_ != t && NoCompletion(s.queue, u)
    requires s.tasks[old_].kind == Release ==> s.tasks[old_].uid != u
    ensures u in RunFrom(s, run).struck
  {
    hide Conserved, EntryFor, RunFrom, Due, TagsIn;
    var report := CarrierReports(s, old_);
    var s1 := RunFrom(s, report);
    TagsAppend(s.queue, ReportOf(s.tasks[old_]), x);
    var more := QueuedStrikes(s1, t, x, u);
    run := report + more;
    RunAppend(s, report, more);
  }

  /** Task k is new and the old ones stand as they did. */
  ghost predicate Beside(s: System, s': System, k: nat) {
    forall t :: t in s.tasks ==> t in s'.tasks && s'.tasks[t] == s.tasks[t] && t != k
  }

  /** The connection starts a sender of the publish. */
  lemma ConnectsResent(s: System, event: NetworkEvent, i: nat, x: u16, u: nat)
    requires Fresh(s) && Conserved(s.hub) && s.hub.phase.ToConnect? && s.hub.autoReconnect && event.NetConnected?
    requires i < |s.hub.clientData| && s.hub.clientData[i] == PublishQoS2(x, u)
    ensures var s' := Next(s, HubConnects(event));
            Resent(s', s.nextTask + i, x, u) && s'.queue == s.queue && Beside(s, s', s.nextTask + i)
  {
    ConnectsHub(s, event);
    ConnectsTasks(s, event, i);
    IdsApart(s.hub);
    TheEntry(s.hub.clientData, PublishQoS2(x, u));
    hide Next, Conserved, DistinctIds, EntryFor, Beside;
  }

  lemma ConnectsHub(s: System, event: NetworkEvent)
    requires s.hub.phase.ToConnect? && event.NetConnected? && Conserved(s.hub)
    ensures var s' := Next(s, HubConnects(event));
            && s'.hub.clientData == s.hub.clientData && s'.hub.autoReconnect == s.hub.autoReconnect
            && s'.hub.phase.Connected? && s'.queue == s.queue && Conserved(s'.hub)
  {
    var a := HubConnects(event);
    NextHub(s, a);
    NextQueue(s, a);
    StepConserves(s, a);
    hide Next, Conserved;
    assert s.queue + [] == s.queue;
  }

  lemma ConnectsTasks(s: System, event: NetworkEvent, i: nat)
    requires Fresh(s) && s.hub.phase.ToConnect? && event.NetConnected? && i < |s.hub.clientData|
    ensures var s', k := Next(s, HubConnects(event)), s.nextTask + i;
            k in s'.tasks && s'.tasks[k] == SendTask(s.hub.clientData[i], |s.acks|) && Beside(s, s', k)
  {
    NextTasks(s, HubConnects(event));
    hide Next, Spawn;
    assert Started(s, HubConnects(event))[i] == SendTask(s.hub.clientData[i], |s.acks|);
  }

  lemma NoCompletionYet(s: System, x: u16, u: nat)
    requires Refines(s) && ReleasesTurned(s) && PublishQoS2(x, u) in s.hub.clientData
    ensures NoCompletion(s.queue, u)
    ensures forall t :: CarrierFor(s, t, x) && s.tasks[t].kind == Release ==> s.tasks[t].uid != u
  {
    ViewContents(s.log, 0);
    hide View;
  }

  /** Without automatic reconnection there is nothing left over when a connection is made. */
  lemma ReconnectsAutomatically(autoReconnect: bool, actions: seq<Action>, event: NetworkEvent, x: u16)
    requires Run(autoReconnect, actions).hub.phase.ToConnect?
    requires !CleanStepFor(Run(autoReconnect, actions), HubConnects(event), x)
    ensures Run(autoReconnect, actions).hub.autoReconnect
  {
    LifeInEveryRun(autoReconnect, actions);
    FirstConnectionIsClean(autoReconnect, actions, event);
    hide Run, CleanStepFor;
  }

  lemma UncleanMeans(s: System, event: NetworkEvent, x: u16)
    requires !CleanStepFor(s, HubConnects(event), x)
    ensures event.NetConnected? && ((exists t: nat :: CarrierFor(s, t, x)) || TagsIn(s.queue, x) != [])
  {
    hide TagsIn;
  }

  lemma CarrierStands(s: System, s': System, t: nat, k: nat, x: u16)
    requires Beside(s, s', k) && CarrierFor(s, t, x)
    ensures CarrierFor(s', t, x) && t in s.tasks && s'.tasks[t] == s.tasks[t] && t != k
  {
  }

  lemma UncleanStrikes(s: System, event: NetworkEvent, x: u16, u: nat) returns (after: seq<Action>)
    requires Fresh(s) && Conserved(s.hub) && Refines(s) && ReleasesTurned(s)
    requires s.hub.phase.ToConnect? && s.hub.autoReconnect && PublishQoS2(x, u) in s.hub.clientData
    requires !CleanStepFor(s, HubConnects(event), x)
    ensures u in RunFrom(Next(s, HubConnects(event)), after).struck
  {
    hide RunFrom, Conserved, Refines, ReleasesTurned, TagsIn, Resent, Fresh, NoCompletion, CleanStepFor, Next;
    hide Beside, CarrierFor;
    NoCompletionYet(s, x, u);
    UncleanMeans(s, event, x);
    var i :| 0 <= i < |s.hub.clientData| && s.hub.clientData[i] == PublishQoS2(x, u);
    ConnectsResent(s, event, i, x, u);
    var s' := Next(s, HubConnects(event));
    if t: nat :| CarrierFor(s, t, x) {
      CarrierStands(s, s', t, s.nextTask + i, x);
      after := LeftoverStrikes(s', t, s.nextTask + i, x, u);
    } else {
      after := QueuedStrikes(s', s.nextTask + i, x, u);
    }
  }

  /**
   Over every run: a connection that is not made cleanly for the id of a QoS 2 publish the hub still holds as
   unacknowledged has a continuation that strikes that publish. So what CleanRuns.CleanInEveryRun asks of connections
   is no more than it must.
   */
  lemma UncleanConnectionStrikes(autoReconnect: bool, before: seq<Action>, event: NetworkEvent, x: u16, u: nat)
    returns (after: seq<Action>)
    requires var s := Run(autoReconnect, before);
             && s.hub.phase.ToConnect? && PublishQoS2(x, u) in s.hub.clientData
             && !CleanStepFor(s, HubConnects(event), x)
    ensures u in RunFrom(Next(Run(autoReconnect, before), HubConnects(event)), after).struck
  {
    FreshInEveryRun(autoReconnect, before);
    ConservedInEveryRun(autoReconnect, before);
    RefinesInEveryRun(autoReconnect, before);
    TurnedInEveryRun(autoReconnect, before);
    ReconnectsAutomatically(autoReconnect, before, event, x);
    hide Run, RunFrom, Conserved, Refines, ReleasesTurned, Fresh, CleanStepFor, Next;
    after := UncleanStrikes(Run(autoReconnect, before), event, x, u);
  }

  // ----- An id issued with something about -----

  /** The hub has accepted request u under id x. */
  lemma IssuesEntry(s: System, x: u16)
    requires Conserved(s.hub) && Issues(s, HubTakes, x)
    ensures var s' := Next(s, HubTakes);
            && Conserved(s'.hub) && TagsIn(s'.queue, x) == TagsIn(s.queue, x)
            && EntryFor(s'.hub.clientData, x) == Some(NewEntry(s.queue[0].request, x, |s.log|))
  {
    hide Next, Conserved, DistinctIds, EntryFor, TagsIn, ClientDataStep;
    IdsApart(s.hub);
    NextHub(s, HubTakes);
    NextTags(s, HubTakes, x);
    NextQueue(s, HubTakes);
    StepConserves(s, HubTakes);
    RequestEntry(s.hub, ClientData(s.queue[0].request, |s.log|), x);
  }

  /** Whatever else is queued or runs for the id is for requests before u. */
  ghost predicate Earlier(s: System, x: u16, u: nat) {
    && (forall tag :: tag in TagsIn(s.queue, x) ==> tag.Recovers? && tag.uid < u)
    && (forall t :: CarrierFor(s, t, x) ==> s.tasks[t].uid < u)
  }

  lemma AllEarlier(s: System, x: u16)
    requires Handshakes.HandshakeInv(s)
    ensures Earlier(s, x, |s.log|)
  {
    TagInQueue(s.queue, x);
    hide TagsIn;
    forall e | e in s.queue && e.FromTask? && e.msg == RecoverId(x) ensures e.tag.Recovers? && e.tag.uid < |s.log| {
      assert Handshakes.RecoverOk(s, e);
    }
  }

  /** An earlier RecoverId in the queue strikes the request. */
  lemma EarlierTagDue(s: System, x: u16, u: nat)
    requires EntryFor(s.hub.clientData, x).Some? && EntryFor(s.hub.clientData, x).value.trace == u
    requires TagsIn(s.queue, x) != [] && TagsIn(s.queue, x)[0].Recovers? && TagsIn(s.queue, x)[0].uid < u
    ensures Due(s, x, u)
  {
  }

  lemma IssuesTasks(s: System, x: u16, t: nat)
    requires Fresh(s) && Issues(s, HubTakes, x) && CarrierFor(s, t, x)
    ensures CarrierFor(Next(s, HubTakes), t, x) && Next(s, HubTakes).tasks[t] == s.tasks[t]
  {
    NextTasks(s, HubTakes);
    hide Next, Spawn, Started;
  }

  lemma IssueStrikes(s: System, x: u16) returns (after: seq<Action>)
    requires Fresh(s) && Conserved(s.hub) && Handshakes.HandshakeInv(s)
    requires Issues(s, HubTakes, x) && !CleanStepFor(s, HubTakes, x) && Flows(Next(s, HubTakes))
    ensures |s.log| in RunFrom(Next(s, HubTakes), after).struck
  {
    hide RunFrom, Next, Conserved, EntryFor, TagsIn, Fresh, Due, Issues, CleanStepFor, Handshakes.HandshakeInv, Flows;
    AllEarlier(s, x);
    IssuesEntry(s, x);
    IssueMeans(s, x);
    var s', u := Next(s, HubTakes), |s.log|;
    if TagsIn(s.queue, x) != [] {
      EarlierTagDue(s', x, u);
      after := DueIsStruck(s', x, u);
    } else {
      var t: nat :| CarrierFor(s, t, x);
      IssuesTasks(s, x, t);
      var report := CarrierReports(s', t);
      var s1 := RunFrom(s', report);
      TagsAppend(s'.queue, ReportOf(s'.tasks[t]), x);
      EarlierTagDue(s1, x, u);
      StillFlows(s', s1, ReportOf(s'.tasks[t]));
      var more := DueIsStruck(s1, x, u);
      after := report + more;
      RunAppend(s', report, more);
    }
  }

  lemma IssueMeans(s: System, x: u16)
    requires Issues(s, HubTakes, x) && !CleanStepFor(s, HubTakes, x)
    ensures (exists t: nat :: CarrierFor(s, t, x)) || TagsIn(s.queue, x) != []
    ensures s.queue != [] && s.queue[0].FromClient? && s.queue[0].request != ReqQoS0
  {
    hide TagsIn;
  }

  lemma StillFlows(s: System, s': System, report: Event)
    requires Flows(s) && s'.hub == s.hub && s'.queue == s.queue + [report] && !IsPingFail(report)
    ensures Flows(s')
  {
  }

  /**
   Over every run: an id that is not issued cleanly has a continuation that strikes the request that gets it, whatever
   its kind, provided the hub can come to the end of its queue at all.
   */
  lemma UncleanIssueStrikes(autoReconnect: bool, before: seq<Action>, x: u16) returns (after: seq<Action>)
    requires var s := Run(autoReconnect, before);
             Issues(s, HubTakes, x) && !CleanStepFor(s, HubTakes, x) && Flows(Next(s, HubTakes))
    ensures var s := Run(autoReconnect, before); |s.log| in RunFrom(Next(s, HubTakes), after).struck
  {
    FreshInEveryRun(autoReconnect, before);
    ConservedInEveryRun(autoReconnect, before);
    Handshakes.HandshakeInEveryRun(autoReconnect, before);
    hide Run, RunFrom, Conserved, Fresh, CleanStepFor, Next, Issues, Flows, Handshakes.HandshakeInv;
    after := IssueStrikes(Run(autoReconnect, before), x);
  }
}
