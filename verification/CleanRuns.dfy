/**
 When a request is never struck, id by id. A run is clean for a packet id if each connection is made with no sender
 for that id left over and no RecoverId for it queued, and if the id is issued only with neither of them. In such a run
 every RecoverId for the id that finds an entry was sent for that entry, at the stage it is at, whatever happens to
 other ids.
 */
module CleanRuns {
  import opened Wire
  import opened HubSteps
  import opened Session
  import opened Projections
  import opened PacketIds
  import opened RequestLog
  import opened Handshakes

  // ----- The entry, the messages and the task that concern one id -----

  function EntryFor(entries: seq<Entry<nat>>, x: u16): (e: Option<Entry<nat>>)
    ensures e.Some? ==> e.value in entries && e.value.id == x
    ensures e.None? ==> forall f :: f in entries ==> f.id != x
  {
    var i := Find(entries, x);
    if i < |entries| then Some(entries[i]) else None
  }

  function TagOf(e: Event, x: u16): seq<Tag> {
    if e.FromTask? && e.msg == RecoverId(x) then [e.tag] else []
  }

  function TagsIn(q: seq<Event>, x: u16): seq<Tag> {
    if q == [] then [] else TagOf(q[0], x) + TagsIn(q[1..], x)
  }

  /** A task that has a RecoverId still to send. */
  predicate Carrier(t: Task) {
    t.Send? && !t.sendPc.Report?
  }

  ghost predicate CarrierFor(s: System, t: nat, x: u16) {
    t in s.tasks && Carrier(s.tasks[t]) && s.tasks[t].id == x
  }

  ghost predicate NoCarrier(s: System, x: u16) {
    forall t :: !CarrierFor(s, t, x)
  }

  // ----- Clean runs -----

  /** A connection that starts every entry again. */
  predicate Restarts(s: System, a: Action) {
    a.HubConnects? && s.hub.phase.ToConnect? && a.event.NetConnected?
  }

  /** The hub accepts a request and gives it this id. */
  predicate Issues(s: System, a: Action, x: u16) {
    Taking(s, a) && s.queue[0].FromClient? && s.queue[0].request != ReqQoS0 && s.hub.ring != [] && s.hub.ring[0] == x
  }

  /** What a run must avoid at this step; it can be seen in the state before it. */
  ghost predicate CleanStepFor(s: System, a: Action, x: u16) {
    Restarts(s, a) || Issues(s, a, x) ==> NoCarrier(s, x) && TagsIn(s.queue, x) == []
  }

  ghost predicate CleanRunFor(s: System, actions: seq<Action>, x: u16)
    decreases |actions|
  {
    actions == []
    || (CleanRunFor(s, actions[..|actions| - 1], x)
        && CleanStepFor(RunFrom(s, actions[..|actions| - 1]), actions[|actions| - 1], x))
  }

  // ----- The invariant -----

  ghost predicate HasEntry(s: System, x: u16, uid: nat, kind: SendKind) {
    var e := EntryFor(s.hub.clientData, x);
    e.Some? && e.value.trace == uid && KindOf(e.value) == kind
  }

  ghost predicate NoEntry(s: System, x: u16) {
    EntryFor(s.hub.clientData, x).None?
  }

  ghost predicate CarrierOk(s: System, t: Task)
    requires Carrier(t)
  {
    var tags := TagsIn(s.queue, t.id);
    if t.sendPc.AckedAgain? then
      t.kind == Publish1
      && (|| (tags == [Recovers(t.uid, Publish1, false)] && HasEntry(s, t.id, t.uid, Publish1))
          || (tags == [] && NoEntry(s, t.id)))
    else tags == [] && HasEntry(s, t.id, t.uid, t.kind)
  }

  ghost predicate TagsOk(s: System, x: u16) {
    var tags := TagsIn(s.queue, x);
    || tags == []
    || (|tags| == 1 && tags[0].Recovers? && !tags[0].second && HasEntry(s, x, tags[0].uid, tags[0].kind))
    || (|tags| == 1 && tags[0].Recovers? && tags[0].second && NoEntry(s, x) && NoCarrier(s, x))
    || (|tags| == 2 && tags[0].Recovers?
        && tags == [Recovers(tags[0].uid, Publish1, false), Recovers(tags[0].uid, Publish1, true)]
        && HasEntry(s, x, tags[0].uid, Publish1) && NoCarrier(s, x))
  }

  ghost predicate IdClean(s: System, x: u16) {
    && TagsOk(s, x)
    && (forall t :: CarrierFor(s, t, x) ==> CarrierOk(s, s.tasks[t]))
    && (forall t, t' :: CarrierFor(s, t, x) && CarrierFor(s, t', x) ==> t == t')
  }

  /** No request with this id has been struck. */
  ghost predicate Unstruck(s: System, x: u16) {
    forall u :: u in s.struck ==> u < |s.log| && s.log[u].id != x
  }

  ghost predicate SameId(s: System, s': System, x: u16) {
    && TagsIn(s'.queue, x) == TagsIn(s.queue, x)
    && EntryFor(s'.hub.clientData, x) == EntryFor(s.hub.clientData, x)
    && (forall t :: CarrierFor(s, t, x) ==> CarrierFor(s', t, x) && s'.tasks[t] == s.tasks[t])
    && (forall t :: CarrierFor(s', t, x) ==> CarrierFor(s, t, x))
  }

  lemma SameIdClean(s: System, s': System, x: u16)
    requires IdClean(s, x) && SameId(s, s', x)
    ensures IdClean(s', x)
  {
    hide EntryFor, TagsIn;
  }

  // ----- Lists -----

  lemma {:induction false} TagsAppend(q: seq<Event>, e: Event, x: u16)
    ensures TagsIn(q + [e], x) == TagsIn(q, x) + TagOf(e, x)
  {
    if q != [] {
      TagsAppend(q[1..], e, x);
      assert (q + [e])[1..] == q[1..] + [e];
    } else {
      assert TagsIn([e][1..], x) == [];
    }
  }

  lemma NextTags(s: System, a: Action, x: u16)
    ensures TagsIn(Next(s, a).queue, x)
            == if Taking(s, a) then TagsIn(s.queue[1..], x)
               else TagsIn(s.queue, x) + if Appended(s, a) == [] then [] else TagOf(Appended(s, a)[0], x)
    ensures Taking(s, a) ==> TagsIn(s.queue, x) == TagOf(s.queue[0], x) + TagsIn(s.queue[1..], x)
  {
    NextQueue(s, a);
    if !Taking(s, a) {
      hide TagsIn, Next;
      assert s.queue + [] == s.queue;
      if Appended(s, a) != [] {
        assert Appended(s, a) == [Appended(s, a)[0]];
        TagsAppend(s.queue, Appended(s, a)[0], x);
      }
    }
  }

  ghost predicate DistinctIds(entries: seq<Entry<nat>>) {
    forall i, j :: 0 <= i < j < |entries| ==> entries[i].id != entries[j].id
  }

  /** With distinct ids the first entry found is the only one. */
  lemma TheEntry(entries: seq<Entry<nat>>, e: Entry<nat>)
    requires DistinctIds(entries) && e in entries
    ensures EntryFor(entries, e.id) == Some(e)
  {
  }

  lemma EntryAppended(entries: seq<Entry<nat>>, e: Entry<nat>, x: u16)
    requires DistinctIds(entries) && EntryFor(entries, e.id).None?
    ensures EntryFor(entries + [e], x) == if x == e.id then Some(e) else EntryFor(entries, x)
  {
    var all := entries + [e];
    assert forall f :: f in all <==> f in entries || f == e;
    assert DistinctIds(all);
    hide Find, EntryFor;
    if x == e.id {
      TheEntry(all, e);
    } else if EntryFor(entries, x).Some? {
      TheEntry(all, EntryFor(entries, x).value);
    }
  }

  lemma EntryReplaced(entries: seq<Entry<nat>>, i: nat, next: Entry<nat>, x: u16)
    requires DistinctIds(entries) && i < |entries| && next.id == entries[i].id
    ensures EntryFor(entries[i := next], x) == if x == next.id then Some(next) else EntryFor(entries, x)
  {
    var all := entries[i := next];
    assert DistinctIds(all) && all[i] == next;
    hide Find, EntryFor;
    if x == next.id {
      TheEntry(all, next);
    } else if EntryFor(entries, x).Some? {
      var e := EntryFor(entries, x).value;
      var j :| 0 <= j < |entries| && entries[j] == e;
      assert all[j] == e;
      TheEntry(all, e);
    }
  }

  lemma EntryRemoved(entries: seq<Entry<nat>>, i: nat, x: u16)
    requires DistinctIds(entries) && i < |entries|
    ensures EntryFor(entries[..i] + entries[i + 1..], x) == if x == entries[i].id then None else EntryFor(entries, x)
  {
    var all := entries[..i] + entries[i + 1..];
    assert forall j :: 0 <= j < |all| ==> all[j] == entries[if j < i then j else j + 1];
    assert DistinctIds(all);
    hide Find, EntryFor;
    if EntryFor(all, x).Some? {
      var e := EntryFor(all, x).value;
      TheEntry(entries, e);
    }
  }

  // ----- Steps that leave an id alone -----

  /** Entries for ids other than the one a step is about. */
  lemma RecoverEntry(h: Hub<nat, nat>, id: u16, x: u16)
    requires DistinctIds(h.clientData)
    ensures var e, e' := EntryFor(h.clientData, id), EntryFor(RecoverStep(h, id).0.clientData, x);
            e' == if e.None? || x != id then EntryFor(h.clientData, x) else Acknowledge(e.value)
    ensures EntryFor(h.clientData, id).None? ==> RecoverStep(h, id) == (h, Nothing())
    ensures EntryFor(h.clientData, id).Some? ==>
              RecoverStep(h, id).1.sends == match Acknowledge(EntryFor(h.clientData, id).value)
                                            case Some(next) => [next]
                                            case None => []
  {
    var i := Find(h.clientData, id);
    if i < |h.clientData| {
      var e := h.clientData[i];
      assert EntryFor(h.clientData, id) == Some(e);
      hide EntryFor, Find;
      if Acknowledge(e).Some? {
        EntryReplaced(h.clientData, i, Acknowledge(e).value, x);
      } else {
        EntryRemoved(h.clientData, i, x);
      }
    }
  }

  lemma RequestEntry(h: Hub<nat, nat>, req: ClientData<nat>, x: u16)
    requires DistinctIds(h.clientData) && req.kind != ReqQoS0 && h.ring != []
    requires EntryFor(h.clientData, h.ring[0]).None?
    ensures var e := NewEntry(req.kind, h.ring[0], req.trace);
            && EntryFor(ClientDataStep(h, req).0.clientData, x)
               == (if x == h.ring[0] then Some(e) else EntryFor(h.clientData, x))
            && ClientDataStep(h, req).1.sends == [e]
  {
    hide EntryFor;
    EntryAppended(h.clientData, NewEntry(req.kind, h.ring[0], req.trace), x);
  }

  /** The id an action is about, if any: taken, accepted, or of the task that moves. */
  predicate About(s: System, a: Action, x: u16) {
    if Taking(s, a) then
      match s.queue[0]
      case FromClient(request) => request != ReqQoS0 && s.hub.ring != [] && x == s.hub.ring[0]
      case FromTask(msg, _) => msg == RecoverId(x)
    else Moves(s, a) && Carrier(s.tasks[a.task]) && s.tasks[a.task].id == x
  }

  lemma LeftAlone(s: System, a: Action, x: u16)
    requires Fresh(s) && DistinctIds(s.hub.clientData) && !About(s, a, x) && !Restarts(s, a)
    requires s.hub.ring != [] ==> EntryFor(s.hub.clientData, s.hub.ring[0]).None?
    ensures SameId(s, Next(s, a), x)
  {
    hide TagsIn, EntryFor;
    AloneTags(s, a, x);
    AloneEntry(s, a, x);
    AloneCarriers(s, a, x);
    hide Next;
  }

  lemma AloneTags(s: System, a: Action, x: u16)
    requires !About(s, a, x)
    ensures TagsIn(Next(s, a).queue, x) == TagsIn(s.queue, x)
  {
    hide Next, TagsIn;
    NextTags(s, a, x);
  }

  lemma AloneEntry(s: System, a: Action, x: u16)
    requires DistinctIds(s.hub.clientData) && !About(s, a, x)
    requires s.hub.ring != [] ==> EntryFor(s.hub.clientData, s.hub.ring[0]).None?
    ensures EntryFor(Next(s, a).hub.clientData, x) == EntryFor(s.hub.clientData, x)
  {
    NextHub(s, a);
    hide Next, EntryFor, RecoverStep;
    if Taking(s, a) && s.queue[0].FromTask? && s.queue[0].msg.RecoverId? {
      RecoverEntry(s.hub, s.queue[0].msg.id, x);
    } else if Taking(s, a) && s.queue[0].FromClient? && s.queue[0].request != ReqQoS0 && s.hub.ring != [] {
      RequestEntry(s.hub, ClientData(s.queue[0].request, |s.log|), x);
    }
  }

  lemma AloneStarts(s: System, a: Action, x: u16)
    requires DistinctIds(s.hub.clientData) && !About(s, a, x) && !Restarts(s, a)
    requires s.hub.ring != [] ==> EntryFor(s.hub.clientData, s.hub.ring[0]).None?
    ensures forall i :: 0 <= i < |Started(s, a)| && Carrier(Started(s, a)[i]) ==> Started(s, a)[i].id != x
  {
    hide EntryFor, RecoverStep, ClientDataStep;
    if Taking(s, a) && s.queue[0].FromTask? && s.queue[0].msg.RecoverId? {
      RecoverEntry(s.hub, s.queue[0].msg.id, x);
    } else if Taking(s, a) && s.queue[0].FromClient? {
      if s.queue[0].request != ReqQoS0 && s.hub.ring != [] {
        RequestEntry(s.hub, ClientData(s.queue[0].request, |s.log|), x);
      } else {
        NothingSent(s.hub, ClientData(s.queue[0].request, |s.log|));
      }
    }
  }

  lemma NothingSent(h: Hub<nat, nat>, req: ClientData<nat>)
    requires req.kind == ReqQoS0 || h.ring == []
    ensures ClientDataStep(h, req).1.sends == []
  {
  }

  lemma AloneCarriers(s: System, a: Action, x: u16)
    requires Fresh(s) && DistinctIds(s.hub.clientData) && !About(s, a, x) && !Restarts(s, a)
    requires s.hub.ring != [] ==> EntryFor(s.hub.clientData, s.hub.ring[0]).None?
    ensures forall t :: CarrierFor(s, t, x) ==> CarrierFor(Next(s, a), t, x) && Next(s, a).tasks[t] == s.tasks[t]
    ensures forall t :: CarrierFor(Next(s, a), t, x) ==> CarrierFor(s, t, x)
  {
    NextTasks(s, a);
    if Moves(s, a) {
      MovedCarrier(s, a);
    } else {
      AloneStarts(s, a, x);
    }
    hide Next, Moved, Started, EntryFor;
  }

  /** A turn never makes a carrier of a task that was none, and never changes its id. */
  lemma MovedCarrier(s: System, a: Action)
    requires Moves(s, a)
    ensures Moved(s, a).Some? && Carrier(Moved(s, a).value) ==>
              Carrier(s.tasks[a.task]) && Moved(s, a).value.id == s.tasks[a.task].id
  {
  }

  // ----- Steps about an id -----

  /** The hub takes a RecoverId in a clean state: it finds the entry it was sent for, or none. */
  lemma StepTakesRecover(s: System, x: u16)
    requires Fresh(s) && DistinctIds(s.hub.clientData) && IdClean(s, x)
    requires Taking(s, HubTakes) && s.queue[0].FromTask? && s.queue[0].msg == RecoverId(x)
    ensures IdClean(Next(s, HubTakes), x) && StruckBy(s, HubTakes) == {}
  {
    TakesRecoverParts(s, x);
    MissesByEntry(s.hub, x, s.queue[0].tag);
    hide Next, EntryFor, TagsIn, RecoverStep, Misses, Find, Started, IdClean, Spawn;
    if s.queue[0].tag.Recovers? && s.queue[0].tag.second {
      SecondRecover(s, Next(s, HubTakes), x);
    } else {
      FirstRecover(s, Next(s, HubTakes), x);
    }
  }

  /** What taking a RecoverId does, as far as its id is concerned. */
  lemma TakesRecoverParts(s: System, x: u16)
    requires DistinctIds(s.hub.clientData)
    requires Taking(s, HubTakes) && s.queue[0].FromTask? && s.queue[0].msg == RecoverId(x)
    ensures var s' := Next(s, HubTakes);
            && TagsIn(s.queue, x) == [s.queue[0].tag] + TagsIn(s'.queue, x)
            && s'.tasks == Spawn(s.tasks, s.nextTask, RestartOf(EntryFor(s.hub.clientData, x), |s.acks|))
            && EntryFor(s'.hub.clientData, x) == AfterRecover(EntryFor(s.hub.clientData, x))
  {
    NextTags(s, HubTakes, x);
    NextQueue(s, HubTakes);
    RecoverRestarts(s, x);
    hide Next, EntryFor, TagsIn, AfterRecover, RestartOf, Spawn;
  }

  lemma RecoverRestarts(s: System, x: u16)
    requires DistinctIds(s.hub.clientData)
    requires Taking(s, HubTakes) && s.queue[0].FromTask? && s.queue[0].msg == RecoverId(x)
    ensures var s' := Next(s, HubTakes);
            && s'.tasks == Spawn(s.tasks, s.nextTask, RestartOf(EntryFor(s.hub.clientData, x), |s.acks|))
            && EntryFor(s'.hub.clientData, x) == AfterRecover(EntryFor(s.hub.clientData, x))
  {
    NextHub(s, HubTakes);
    NextTasks(s, HubTakes);
    RecoverEntry(s.hub, x, x);
    RecoverSends(s, x);
    hide Next, EntryFor, RecoverStep, Find, Spawn, DistinctIds, RestartOf, Started;
  }

  lemma RecoverSends(s: System, x: u16)
    requires DistinctIds(s.hub.clientData)
    requires Taking(s, HubTakes) && s.queue[0].FromTask? && s.queue[0].msg == RecoverId(x)
    ensures Started(s, HubTakes) == RestartOf(EntryFor(s.hub.clientData, x), |s.acks|)
  {
    RecoverEntry(s.hub, x, x);
    hide EntryFor, RecoverStep, Find, DistinctIds;
  }

  function AfterRecover(e: Option<Entry<nat>>): Option<Entry<nat>> {
    if e.None? then None else Acknowledge(e.value)
  }

  function RestartOf(e: Option<Entry<nat>>, now: nat): seq<Task> {
    var next := AfterRecover(e);
    if next.Some? then [SendTask(next.value, now)] else []
  }

  lemma SecondRecover(s: System, s': System, x: u16)
    requires IdClean(s, x) && s.queue != [] && s.queue[0].FromTask? && s.queue[0].tag.Recovers? && s.queue[0].tag.second
    requires TagsIn(s.queue, x) == [s.queue[0].tag] + TagsIn(s'.queue, x)
    requires s'.tasks == Spawn(s.tasks, s.nextTask, RestartOf(EntryFor(s.hub.clientData, x), |s.acks|))
    requires EntryFor(s'.hub.clientData, x) == AfterRecover(EntryFor(s.hub.clientData, x))
    ensures IdClean(s', x) && EntryFor(s.hub.clientData, x).None?
  {
    hide EntryFor, TagsIn, Spawn;
    assert TagsIn(s.queue, x)[0] == s.queue[0].tag && TagsIn(s.queue, x)[1..] == TagsIn(s'.queue, x);
    assert s'.tasks == s.tasks;
    assert forall t :: CarrierFor(s', t, x) <==> CarrierFor(s, t, x);
  }

  lemma MissesByEntry(h: Hub<nat, nat>, id: u16, tag: Tag)
    ensures Misses(h, id, tag) <==>
            var e := EntryFor(h.clientData, id);
            e.Some? && tag != Recovers(e.value.trace, KindOf(e.value), false)
  {
  }

  lemma FirstRecover(s: System, s': System, x: u16)
    requires Fresh(s) && IdClean(s, x) && s.queue != [] && s.queue[0].FromTask?
    requires !(s.queue[0].tag.Recovers? && s.queue[0].tag.second)
    requires TagsIn(s.queue, x) == [s.queue[0].tag] + TagsIn(s'.queue, x)
    requires s'.tasks == Spawn(s.tasks, s.nextTask, RestartOf(EntryFor(s.hub.clientData, x), |s.acks|))
    requires EntryFor(s'.hub.clientData, x) == AfterRecover(EntryFor(s.hub.clientData, x))
    ensures IdClean(s', x)
    ensures var e := EntryFor(s.hub.clientData, x);
            e.Some? && s.queue[0].tag == Recovers(e.value.trace, KindOf(e.value), false)
  {
    hide EntryFor, TagsIn, Spawn;
    var tags := TagsIn(s.queue, x);
    assert tags[0] == s.queue[0].tag && tags[1..] == TagsIn(s'.queue, x);
    assert HasEntry(s, x, tags[0].uid, tags[0].kind);
    var e := EntryFor(s.hub.clientData, x).value;
    forall t: nat | CarrierFor(s, t, x)
      ensures s.tasks[t].sendPc.AckedAgain? && e.PublishQoS1? && tags == [Recovers(e.trace, Publish1, false)]
    {
      assert CarrierOk(s, s.tasks[t]);
    }
    if Acknowledge(e).Some? {
      assert NoCarrier(s, x);
      assert |tags| == 1 && TagsIn(s'.queue, x) == [];
    } else {
      assert s'.tasks == s.tasks;
      assert forall t :: CarrierFor(s', t, x) <==> CarrierFor(s, t, x);
    }
  }

  lemma StepAcceptsRequest(s: System, x: u16)
    requires Fresh(s) && DistinctIds(s.hub.clientData) && CleanStepFor(s, HubTakes, x)
    requires Issues(s, HubTakes, x) && NoEntry(s, x)
    ensures IdClean(Next(s, HubTakes), x)
  {
    AcceptedParts(s, x);
    hide Next, EntryFor, TagsIn, Taking;
    FreshCarrier(s, Next(s, HubTakes), NewEntry(s.queue[0].request, x, |s.log|));
  }

  lemma AcceptedParts(s: System, x: u16)
    requires DistinctIds(s.hub.clientData) && TagsIn(s.queue, x) == []
    requires Issues(s, HubTakes, x) && NoEntry(s, x)
    ensures var s', e := Next(s, HubTakes), NewEntry(s.queue[0].request, x, |s.log|);
            && EntryFor(s'.hub.clientData, x) == Some(e) && TagsIn(s'.queue, x) == []
            && s'.tasks == Spawn(s.tasks, s.nextTask, [SendTask(e, |s.acks|)])
  {
    NextHub(s, HubTakes);
    NextTasks(s, HubTakes);
    NextTags(s, HubTakes, x);
    NextQueue(s, HubTakes);
    RequestEntry(s.hub, ClientData(s.queue[0].request, |s.log|), x);
    hide Next, EntryFor, TagsIn, ClientDataStep, Spawn;
    assert Started(s, HubTakes) == [SendTask(NewEntry(s.queue[0].request, x, |s.log|), |s.acks|)];
  }

  lemma FreshCarrier(s: System, s': System, e: Entry<nat>)
    requires Fresh(s) && NoCarrier(s, e.id)
    requires EntryFor(s'.hub.clientData, e.id) == Some(e) && TagsIn(s'.queue, e.id) == []
    requires s'.tasks == Spawn(s.tasks, s.nextTask, [SendTask(e, |s.acks|)])
    ensures IdClean(s', e.id)
  {
    hide EntryFor, TagsIn, Spawn;
    forall t: nat | CarrierFor(s', t, e.id) ensures t == s.nextTask {
      assert !CarrierFor(s, t, e.id);
    }
  }

  lemma StepMovesCarrier(s: System, a: Action, x: u16)
    requires IdClean(s, x) && Moves(s, a) && Carrier(s.tasks[a.task]) && s.tasks[a.task].id == x
    ensures IdClean(Next(s, a), x)
  {
    var s' := Next(s, a);
    assert CarrierFor(s, a.task, x);
    CarrierTurn(s, a);
    CarrierTurnParts(s, a, x);
    hide Next, EntryFor, TagsIn, Moved, Appended, IdClean;
    OnlyCarrier(s, s', a.task, x, Moved(s, a));
    if Appended(s, a) == [] {
      CarrierWaits(s, s', a.task, x);
    } else {
      CarrierSends(s, s', a.task, x);
    }
  }

  lemma CarrierTurnParts(s: System, a: Action, x: u16)
    requires Moves(s, a)
    ensures var s' := Next(s, a);
            && s'.hub == s.hub
            && s'.tasks == (match Moved(s, a) case Some(t) => s.tasks[a.task := t] case None => s.tasks - {a.task})
            && TagsIn(s'.queue, x)
               == TagsIn(s.queue, x) + if Appended(s, a) == [] then [] else TagOf(Appended(s, a)[0], x)
  {
    NextHub(s, a);
    NextTasks(s, a);
    NextTags(s, a, x);
    hide Next, TagsIn, Moved, Appended;
  }

  lemma OnlyCarrier(s: System, s': System, k: nat, x: u16, after: Option<Task>)
    requires IdClean(s, x) && CarrierFor(s, k, x)
    requires s'.tasks == match after case Some(t) => s.tasks[k := t] case None => s.tasks - {k}
    ensures forall j :: CarrierFor(s', j, x) ==> j == k && after.Some? && s'.tasks[k] == after.value
  {
    hide TagsOk, CarrierOk;
    forall j: nat | CarrierFor(s', j, x) ensures j == k {
      assert j == k || (CarrierFor(s, j, x) && CarrierFor(s, k, x));
    }
  }

  lemma CarrierWaits(s: System, s': System, k: nat, x: u16)
    requires IdClean(s, x) && CarrierFor(s, k, x) && s'.hub == s.hub && TagsIn(s'.queue, x) == TagsIn(s.queue, x)
    requires forall j :: CarrierFor(s', j, x) ==> j == k
    requires CarrierFor(s', k, x) ==>
               var t, t' := s.tasks[k], s'.tasks[k];
               t'.uid == t.uid && t'.kind == t.kind && (t'.sendPc.AckedAgain? <==> t.sendPc.AckedAgain?)
    ensures IdClean(s', x)
  {
    hide TagsIn, EntryFor;
    assert CarrierOk(s, s.tasks[k]);
  }

  lemma CarrierSends(s: System, s': System, k: nat, x: u16)
    requires IdClean(s, x) && CarrierFor(s, k, x) && s'.hub == s.hub
    requires var t := s.tasks[k];
             && TagsIn(s'.queue, x) == TagsIn(s.queue, x) + [Recovers(t.uid, t.kind, t.sendPc.AckedAgain?)]
             && k in s'.tasks && s'.tasks[k].Send?
             && s'.tasks[k].uid == t.uid && s'.tasks[k].kind == t.kind && s'.tasks[k].id == x
             && (t.sendPc.AckedAgain? ==> s'.tasks[k].sendPc.Report?)
             && (!t.sendPc.AckedAgain? ==> s'.tasks[k].sendPc == if t.kind == Publish1 then AckedAgain else Report)
    requires forall j :: CarrierFor(s', j, x) ==> j == k
    ensures IdClean(s', x)
  {
    hide TagsIn, EntryFor;
    var t := s.tasks[k];
    assert CarrierOk(s, t);
    if t.sendPc.AckedAgain? {
      assert NoCarrier(s', x);
    }
  }

  /** A carrier stays before its acknowledgement, or sends one RecoverId and moves on, or ends. */
  lemma CarrierTurn(s: System, a: Action)
    requires Moves(s, a) && Carrier(s.tasks[a.task])
    ensures var t, t', es := s.tasks[a.task], Moved(s, a), Appended(s, a);
            && (t'.Some? ==> t'.value.Send? && t'.value.id == t.id && t'.value.uid == t.uid && t'.value.kind == t.kind)
            && (es == [] && t'.Some? ==>
                  (t'.value.sendPc.AckedAgain? <==> t.sendPc.AckedAgain?) && !t'.value.sendPc.Report?)
            && (es != [] ==> t'.Some? && TagOf(es[0], t.id) == [Recovers(t.uid, t.kind, t.sendPc.AckedAgain?)])
            && (es != [] && t.sendPc.AckedAgain? ==> t'.value.sendPc.Report?)
            && (es != [] && !t.sendPc.AckedAgain? ==>
                  t'.value.sendPc == if t.kind == Publish1 then AckedAgain else Report)
  {
  }

  lemma StepRestarts(s: System, a: Action, x: u16)
    requires Fresh(s) && DistinctIds(s.hub.clientData) && CleanStepFor(s, a, x) && Restarts(s, a)
    ensures IdClean(Next(s, a), x)
  {
    NextHub(s, a);
    NextTasks(s, a);
    NextTags(s, a, x);
    hide EntryFor, TagsIn, Spawn, SendTasks, Next;
    RestartsFor(s, Next(s, a), x);
  }

  /** After a restart the only carrier for an id is the task of its entry. */
  lemma RestartsFor(s: System, s': System, x: u16)
    requires DistinctIds(s.hub.clientData) && NoCarrier(s, x) && TagsIn(s'.queue, x) == []
    requires s'.hub.clientData == s.hub.clientData
    requires s'.tasks == Spawn(s.tasks, s.nextTask, SendTasks(s.hub.clientData, |s.acks|))
    ensures IdClean(s', x)
  {
    hide EntryFor, TagsIn, Spawn, SendTasks;
    var cd := s.hub.clientData;
    forall t: nat | CarrierFor(s', t, x)
      ensures CarrierOk(s', s'.tasks[t]) && s.nextTask <= t < s.nextTask + |cd| && cd[t - s.nextTask].id == x
    {
      assert !CarrierFor(s, t, x);
      assert s'.tasks[t] == SendTask(cd[t - s.nextTask], |s.acks|);
      TheEntry(cd, cd[t - s.nextTask]);
    }
  }

  // ----- Every clean run -----

  lemma IdsApart(h: Hub<nat, nat>)
    requires Conserved(h)
    ensures DistinctIds(h.clientData)
    ensures h.ring != [] ==> EntryFor(h.clientData, h.ring[0]).None?
  {
    ConservedMeans(h);
    if h.ring != [] {
      assert h.ring[0] in h.ring;
    }
  }

  lemma StepClean(s: System, a: Action, x: u16)
    requires Fresh(s) && Conserved(s.hub) && IdClean(s, x) && CleanStepFor(s, a, x)
    ensures IdClean(Next(s, a), x)
    ensures TakesRecover(s, a) && s.queue[0].msg.id == x ==> StruckBy(s, a) == {}
  {
    IdsApart(s.hub);
    hide Next, IdClean, CleanStepFor, DistinctIds, EntryFor, SameId, Misses, Fresh, Conserved, StruckBy;
    if Restarts(s, a) {
      StepRestarts(s, a, x);
    } else if !About(s, a, x) {
      LeftAlone(s, a, x);
      SameIdClean(s, Next(s, a), x);
    } else if Taking(s, a) && s.queue[0].FromClient? {
      StepAcceptsRequest(s, x);
    } else if Taking(s, a) {
      StepTakesRecover(s, x);
    } else {
      StepMovesCarrier(s, a, x);
    }
  }

  /** What a RecoverId strikes has the id that it names. */
  lemma StrikesItsId(s: System, a: Action)
    requires Refines(s)
    ensures forall u :: u in StruckBy(s, a) ==> u < |s.log| && TakesRecover(s, a) && s.log[u].id == s.queue[0].msg.id
  {
    ViewContents(s.log, 0);
    hide View;
  }

  lemma StepUnstruck(s: System, a: Action, x: u16)
    requires Refines(s) && Unstruck(s, x) && (TakesRecover(s, a) && s.queue[0].msg.id == x ==> StruckBy(s, a) == {})
    ensures Unstruck(Next(s, a), x)
  {
    StrikesItsId(s, a);
    StepOnlyForward(s, a);
    NextHistory(s, a);
    hide Next, StruckBy, Refines;
  }

  /** In a run that is clean for an id no request with that id is ever struck. */
  lemma {:induction false} CleanInEveryRun(autoReconnect: bool, actions: seq<Action>, x: u16)
    requires CleanRunFor(Init(autoReconnect), actions, x)
    ensures IdClean(Run(autoReconnect, actions), x) && Unstruck(Run(autoReconnect, actions), x)
    decreases |actions|
  {
    if actions != [] {
      hide Next, IdClean, Unstruck, CleanStepFor, Fresh, Conserved, Refines, StruckBy;
      var init := actions[..|actions| - 1];
      var s, a := Run(autoReconnect, init), actions[|actions| - 1];
      CleanInEveryRun(autoReconnect, init, x);
      FreshInEveryRun(autoReconnect, init);
      ConservedInEveryRun(autoReconnect, init);
      RefinesInEveryRun(autoReconnect, init);
      StepClean(s, a, x);
      StepUnstruck(s, a, x);
    }
  }

  /** So in a run that is clean for every id nothing is struck at all. */
  lemma NothingStruck(autoReconnect: bool, actions: seq<Action>)
    requires forall x :: CleanRunFor(Init(autoReconnect), actions, x)
    ensures Run(autoReconnect, actions).struck == {}
  {
    var s := Run(autoReconnect, actions);
    hide Run, CleanRunFor, IdClean;
    if u :| u in s.struck {
      CleanInEveryRun(autoReconnect, actions, 0);
      CleanInEveryRun(autoReconnect, actions, s.log[u].id);
    }
  }

  /**
   The handshake of a request holds in every run that is clean for its id: the id goes back to the pool only after its
   own PUBREC and then its own PUBCOMP (QoS 2) or its own acknowledgement (the others) have been consumed.
   */
  lemma CleanRunsCompleteInOrder(autoReconnect: bool, actions: seq<Action>, u: nat)
    requires u < |Run(autoReconnect, actions).log| && Run(autoReconnect, actions).log[u].status == Closed
    requires CleanRunFor(Init(autoReconnect), actions, Run(autoReconnect, actions).log[u].id)
    ensures var s := Run(autoReconnect, actions);
            var r := s.log[u];
            if r.kind == Publish2 then
              exists rec: nat, comp: nat :: RecThenComp(s, u, rec, comp)
                && AckAt(s, rec, Publish2, r.id) && AckAt(s, comp, Release, r.id)
            else exists at: nat :: Took(s, u, r.kind, at) && AckAt(s, at, r.kind, r.id)
  {
    CleanInEveryRun(autoReconnect, actions, Run(autoReconnect, actions).log[u].id);
    hide Run, IdClean, CleanRunFor;
    CompleteOnlyWhenAcknowledged(autoReconnect, actions, u);
  }

  // ----- The first connection is always made cleanly -----

  ghost predicate NothingYet(s: System) {
    !s.wasConnected ==> s.hub.phase != Connected && s.tasks == map[] && forall x :: TagsIn(s.queue, x) == []
  }

  lemma StepNothingYet(s: System, a: Action)
    requires NothingYet(s)
    ensures NothingYet(Next(s, a))
  {
    var s' := Next(s, a);
    hide TagsIn;
    if !s'.wasConnected {
      ConnectsOnce(s, a);
      NextHub(s, a);
      NextTasks(s, a);
      hide Next;
      forall x ensures TagsIn(s'.queue, x) == [] {
        NextTags(s, a, x);
      }
    }
  }

  lemma ConnectsOnce(s: System, a: Action)
    requires !Next(s, a).wasConnected
    ensures !s.wasConnected && (a.HubConnects? && s.hub.phase.ToConnect? ==> !a.event.NetConnected?)
  {
    hide ClientDataStep, RecoverStep, ReceiveStep, HubMsgStep, Misses, LogRecover, Find, SendTasks, Spawn;
  }

  lemma {:induction false} FirstConnectionIsClean(autoReconnect: bool, actions: seq<Action>, event: NetworkEvent)
    ensures NothingYet(Run(autoReconnect, actions))
    ensures !Run(autoReconnect, actions).wasConnected ==>
              forall x :: CleanStepFor(Run(autoReconnect, actions), HubConnects(event), x)
    decreases |actions|
  {
    if actions != [] {
      hide Next, NothingYet, CleanStepFor;
      FirstConnectionIsClean(autoReconnect, actions[..|actions| - 1], event);
      StepNothingYet(Run(autoReconnect, actions[..|actions| - 1]), actions[|actions| - 1]);
    }
    FirstIsClean(Run(autoReconnect, actions), event);
  }

  lemma FirstIsClean(s: System, event: NetworkEvent)
    requires NothingYet(s)
    ensures !s.wasConnected ==> forall x :: CleanStepFor(s, HubConnects(event), x)
  {
  }
}
