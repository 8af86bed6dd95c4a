/** Packet ids over every run: none is lost, none is in two places, and a freed one is the last to be issued again. */
module PacketIds {
  import opened Wire
  import opened HubSteps
  import opened Session

  function Ids<T>(entries: seq<Entry<T>>): (ids: seq<u16>)
    ensures |ids| == |entries|
    ensures forall i :: 0 <= i < |entries| ==> ids[i] == entries[i].id
  {
    if entries == [] then [] else [entries[0].id] + Ids(entries[1..])
  }

  /** The ring and the ids in flight together are each of 1..65535 exactly once: section 2.3.1 of MQTT 3.1.1. */
  ghost predicate Conserved<T, M>(h: Hub<T, M>) {
    multiset(h.ring) + multiset(Ids(h.clientData)) == multiset(FullRing())
  }

  // ----- One step -----

  lemma {:induction false} IdsSplit<T>(a: seq<Entry<T>>, b: seq<Entry<T>>)
    ensures Ids(a + b) == Ids(a) + Ids(b)
  {
  }

  lemma IdsOne<T>(e: Entry<T>)
    ensures Ids([e]) == [e.id]
  {
  }

  lemma RequestConserves<T, M>(h: Hub<T, M>, req: ClientData<T>)
    requires Conserved(h)
    ensures Conserved(ClientDataStep(h, req).0)
    ensures req.kind != ReqQoS0 && h.ring == [] ==> ClientDataStep(h, req).0 == h
  {
    hide Ids, FullRing;
    if req.kind != ReqQoS0 && h.ring != [] {
      var entry := NewEntry(req.kind, h.ring[0], req.trace);
      IdsSplit(h.clientData, [entry]);
      IdsOne(entry);
      assert h.ring == [h.ring[0]] + h.ring[1..];
    }
  }

  lemma InFlightAndFree<T, M>(h: Hub<T, M>)
    requires Conserved(h)
    ensures |h.ring| + |h.clientData| == CAPACITY
  {
    assert |multiset(h.ring) + multiset(Ids(h.clientData))| == |h.ring| + |h.clientData|;
  }

  /** The push that gives an id back always finds room. */
  lemma RecoverConserves<T, M>(h: Hub<T, M>, id: u16)
    requires Conserved(h)
    ensures Conserved(RecoverStep(h, id).0) && !RecoverStep(h, id).1.failed
  {
    hide Ids, FullRing, Find;
    var i := Find(h.clientData, id);
    if i < |h.clientData| {
      InFlightAndFree(h);
      IdsWithout(h.clientData, i);
      var e := h.clientData[i];
      if Acknowledge(e).Some? {
        IdsReplaced(h.clientData, i, Acknowledge(e).value);
      }
    }
  }

  lemma MultisetWithout(s: seq<u16>, i: nat)
    requires i < |s|
    ensures multiset(s) == multiset(s[..i] + s[i + 1..]) + multiset{s[i]}
  {
    assert s == s[..i] + [s[i]] + s[i + 1..];
  }

  lemma IdsWithout<T>(entries: seq<Entry<T>>, i: nat)
    requires i < |entries|
    ensures multiset(Ids(entries)) == multiset(Ids(entries[..i] + entries[i + 1..])) + multiset{entries[i].id}
  {
    hide Ids;
    MultisetWithout(Ids(entries), i);
    IdsSplit(entries[..i], entries[i + 1..]);
    IdsSlices(entries, i);
  }

  lemma IdsSlices<T>(entries: seq<Entry<T>>, i: nat)
    requires i < |entries|
    ensures Ids(entries[..i]) == Ids(entries)[..i] && Ids(entries[i + 1..]) == Ids(entries)[i + 1..]
  {
    hide Ids;
  }

  lemma IdsReplaced<T>(entries: seq<Entry<T>>, i: nat, next: Entry<T>)
    requires i < |entries| && next.id == entries[i].id
    ensures Ids(entries[i := next]) == Ids(entries)
  {
  }

  lemma StepConserves(s: System, a: Action)
    requires Conserved(s.hub)
    ensures Conserved(Next(s, a).hub)
  {
    NextHub(s, a);
    hide Next, Conserved, ClientDataStep, RecoverStep, ReceiveStep;
    if a.HubTakes? && s.hub.phase.Connected? && s.queue != [] {
      match s.queue[0]
      case FromClient(request) => RequestConserves(s.hub, ClientData(request, |s.log|));
      case FromTask(msg, tag) => MsgConserves(s.hub, msg);
    } else {
      SameIds(s.hub, HubNext(s, a));
    }
  }

  lemma MsgConserves(h: Hub<nat, nat>, msg: HubMsg<nat>)
    requires Conserved(h)
    ensures Conserved(HubMsgStep(h, msg).0)
  {
    HubMsgCases(h, msg);
    MsgKeepsIds(h, msg);
    hide Conserved, HubMsgStep, RecoverStep;
    if msg.RecoverId? {
      RecoverConserves(h, msg.id);
    } else {
      SameIds(h, HubMsgStep(h, msg).0);
    }
  }

  lemma MsgKeepsIds(h: Hub<nat, nat>, msg: HubMsg<nat>)
    ensures var h' := HubMsgStep(h, msg).0;
            !msg.RecoverId? ==> h'.ring == h.ring && h'.clientData == h.clientData
  {
    hide RecoverStep;
  }

  lemma SameIds(h: Hub<nat, nat>, h': Hub<nat, nat>)
    ensures h.ring == h'.ring && h.clientData == h'.clientData ==> (Conserved(h) <==> Conserved(h'))
  {
    hide Ids, FullRing;
  }

  // ----- Every run -----

  lemma {:induction false} ConservedInEveryRun(autoReconnect: bool, actions: seq<Action>)
    ensures Conserved(Run(autoReconnect, actions).hub)
    decreases |actions|
  {
    if actions == [] {
      assert Ids<nat>([]) == [];
    } else {
      hide Next, Conserved;
      ConservedInEveryRun(autoReconnect, actions[..|actions| - 1]);
      StepConserves(Run(autoReconnect, actions[..|actions| - 1]), actions[|actions| - 1]);
    }
  }

  lemma {:induction false} CountDistinct(s: seq<u16>, x: u16)
    requires forall i, j :: 0 <= i < j < |s| ==> s[i] != s[j]
    ensures multiset(s)[x] == if x in s then 1 else 0
  {
    if s != [] {
      CountDistinct(s[1..], x);
      assert s == [s[0]] + s[1..];
    }
  }

  lemma FullRingCount(x: u16)
    ensures multiset(FullRing())[x] == if x == 0 then 0 else 1
  {
    CountDistinct(FullRing(), x);
    if x > 0 {
      assert FullRing()[x - 1] == x;
    }
  }

  lemma CountTwice(s: seq<u16>, i: nat, j: nat)
    requires i < j < |s| && s[i] == s[j]
    ensures multiset(s)[s[i]] >= 2
  {
    assert s == s[..j] + s[j..];
    assert s[i] == s[..j][i] && s[j] == s[j..][0];
    assert s[i] in s[..j] && s[j] in s[j..];
  }

  /** Read off conservation: ids in flight are distinct and not zero, and exactly those not in the ring. */
  lemma ConservedMeans<T, M>(h: Hub<T, M>)
    requires Conserved(h)
    ensures forall i, j :: 0 <= i < j < |h.clientData| ==> h.clientData[i].id != h.clientData[j].id
    ensures forall i, j :: 0 <= i < j < |h.ring| ==> h.ring[i] != h.ring[j]
    ensures forall id: u16 :: id in h.ring || id in Ids(h.clientData) <==> id != 0
    ensures forall id: u16 :: !(id in h.ring && id in Ids(h.clientData))
  {
    hide FullRing;
    var ids := Ids(h.clientData);
    forall id: u16 ensures multiset(h.ring)[id] + multiset(ids)[id] == if id != 0 then 1 else 0 {
      assert (multiset(h.ring) + multiset(ids))[id] == multiset(FullRing())[id];
      FullRingCount(id);
    }
    forall i, j | 0 <= i < j < |ids| ensures h.clientData[i].id != h.clientData[j].id {
      if ids[i] == ids[j] {
        CountTwice(ids, i, j);
      }
    }
    forall i, j | 0 <= i < j < |h.ring| ensures h.ring[i] != h.ring[j] {
      if h.ring[i] == h.ring[j] {
        CountTwice(h.ring, i, j);
      }
    }
    forall id: u16
      ensures id in h.ring || id in ids <==> id != 0
      ensures !(id in h.ring && id in ids)
    {
      assert id in h.ring <==> multiset(h.ring)[id] > 0;
      assert id in ids <==> multiset(ids)[id] > 0;
    }
  }

  /** In every reachable state a RecoverId concerns at most one request. */
  lemma OneHolder(autoReconnect: bool, actions: seq<Action>, i: nat, j: nat)
    requires var cd := Run(autoReconnect, actions).hub.clientData;
             i < |cd| && j < |cd| && cd[i].id == cd[j].id
    ensures i == j
  {
    hide Run, Conserved;
    ConservedInEveryRun(autoReconnect, actions);
    ConservedMeans(Run(autoReconnect, actions).hub);
  }

  // ----- Reuse distance -----

  /** What a step may do to the ring: append ids, or issue the one in front to the request it accepts. */
  ghost predicate FifoStep(s: System, s': System) {
    && |s.log| <= |s'.log|
    && (forall u :: 0 <= u < |s.log| ==> s'.log[u].id == s.log[u].id)
    && (|| (|s'.log| == |s.log| && s.hub.ring <= s'.hub.ring)
        || (|s'.log| == |s.log| + 1 && s.hub.ring != [] && s'.log[|s.log|].id == s.hub.ring[0]
            && s'.hub.ring == s.hub.ring[1..]))
  }

  lemma NextIsFifo(s: System, a: Action)
    ensures FifoStep(s, Next(s, a))
  {
    NextHub(s, a);
    NextLog(s, a);
    hide Next, RecoverStep, LogRecover, HubMsgStep;
    if a.HubTakes? && s.hub.phase.Connected? && s.queue != [] && s.queue[0].FromTask? {
      MsgIsFifo(s.hub, s.queue[0].msg);
      if s.queue[0].msg.RecoverId? {
        RecoverKeepsLogIds(s.log, s.queue[0].msg.id);
      }
    }
  }

  /** A message to the hub only ever appends to the ring. */
  lemma MsgIsFifo(h: Hub<nat, nat>, msg: HubMsg<nat>)
    ensures h.ring <= HubMsgStep(h, msg).0.ring
  {
    HubMsgCases(h, msg);
    MsgKeepsIds(h, msg);
    hide HubMsgStep;
    if msg.RecoverId? {
      RecoverIsFifo(h, msg.id);
    }
  }

  lemma RecoverIsFifo(h: Hub<nat, nat>, id: u16)
    ensures h.ring <= RecoverStep(h, id).0.ring
  {
    hide Find;
  }

  lemma RecoverKeepsLogIds(log: seq<Request>, id: u16)
    ensures forall u :: 0 <= u < |log| ==> LogRecover(log, id)[u].id == log[u].id
  {
    hide Holder;
  }

  /** s' has accepted no more than k requests after s, each with the next id of the ring; x at place k moved up so far. */
  ghost predicate InRingOrder(s: System, s': System, k: nat)
    requires k < |s.hub.ring|
  {
    var n := |s'.log| - |s.log|;
    && 0 <= n && 0 <= k - n < |s'.hub.ring| && s'.hub.ring[k - n] == s.hub.ring[k]
    && forall j :: 0 <= j < n ==> s'.log[|s.log| + j].id == s.hub.ring[j]
  }

  /** Ids are issued in ring order, over any run that accepts no more than k requests. */
  lemma {:induction false} IssuedInRingOrder(s: System, actions: seq<Action>, k: nat)
    requires k < |s.hub.ring|
    requires |RunFrom(s, actions).log| <= |s.log| + k
    ensures InRingOrder(s, RunFrom(s, actions), k)
    decreases |actions|
  {
    if actions != [] {
      var init, a := actions[..|actions| - 1], actions[|actions| - 1];
      assert RunFrom(s, actions) == Next(RunFrom(s, init), a);
      hide Next, FifoStep, InRingOrder, RunFrom;
      var mid := RunFrom(s, init);
      NextIsFifo(mid, a);
      FifoGrows(mid, Next(mid, a));
      IssuedInRingOrder(s, init, k);
      FifoSoFar(s, mid, k);
      IssuedInRingOrder(s, init, |mid.log| - |s.log|);
      FifoTurn(s, mid, Next(mid, a), k);
    }
  }

  lemma FifoSoFar(s: System, s': System, k: nat)
    requires k < |s.hub.ring| && InRingOrder(s, s', k)
    ensures |s.log| <= |s'.log| <= |s.log| + k
  {
  }

  lemma FifoGrows(s: System, s': System)
    requires FifoStep(s, s')
    ensures |s.log| <= |s'.log|
  {
  }

  lemma FifoTurn(s: System, mid: System, s': System, k: nat)
    requires FifoStep(mid, s') && k < |s.hub.ring| && |s.log| <= |mid.log| && |s'.log| <= |s.log| + k
    requires InRingOrder(s, mid, k)
    requires |mid.log| - |s.log| <= k && InRingOrder(s, mid, |mid.log| - |s.log|)
    ensures InRingOrder(s, s', k)
  {
  }

  /**
   Reuse distance. The RecoverId that completes a request puts its id behind all the free ones, so with n requests
   still in flight the next 65534 - n accepted requests all get other ids, and the one after them gets this id.
   */
  lemma ReuseDistance(autoReconnect: bool, before: seq<Action>, id: u16, after: seq<Action>)
    requires Completes(Run(autoReconnect, before), id)
    requires var s := Next(Run(autoReconnect, before), HubTakes);
             |RunFrom(s, after).log| <= |s.log| + 65534 - |s.hub.clientData|
    ensures var s := Next(Run(autoReconnect, before), HubTakes);
            && (forall u :: |s.log| <= u < |RunFrom(s, after).log| ==> RunFrom(s, after).log[u].id != id)
            && (|RunFrom(s, after).log| == |s.log| + 65534 - |s.hub.clientData| ==>
                  RunFrom(s, after).hub.ring != [] && RunFrom(s, after).hub.ring[0] == id)
  {
    var s0 := Run(autoReconnect, before);
    var s := Next(s0, HubTakes);
    ConservedInEveryRun(autoReconnect, before);
    StepConserves(s0, HubTakes);
    NextHub(s0, HubTakes);
    hide Run, RunFrom, Next, Conserved;
    FreedGoesLast(s0.hub, id);
    hide Find, HubMsgStep, RecoverStep;
    InFlightAndFree(s.hub);
    NotIssuedYet(s, after, id);
  }

  lemma {:induction false} ConservedFrom(s: System, actions: seq<Action>)
    requires Conserved(s.hub)
    ensures Conserved(RunFrom(s, actions).hub)
    decreases |actions|
  {
    if actions != [] {
      hide Next, Conserved;
      ConservedFrom(s, actions[..|actions| - 1]);
      StepConserves(RunFrom(s, actions[..|actions| - 1]), actions[|actions| - 1]);
    }
  }

  /** Within that window a second RecoverId for the id, as a QoS 1 publish sends, does nothing. */
  lemma SecondRecoverIsNoOp(autoReconnect: bool, before: seq<Action>, id: u16, after: seq<Action>)
    requires Completes(Run(autoReconnect, before), id)
    requires var s := Next(Run(autoReconnect, before), HubTakes);
             |RunFrom(s, after).log| <= |s.log| + 65534 - |s.hub.clientData|
    ensures var h := RunFrom(Next(Run(autoReconnect, before), HubTakes), after).hub;
            RecoverStep(h, id) == (h, Nothing())
  {
    var s0 := Run(autoReconnect, before);
    var s := Next(s0, HubTakes);
    ConservedInEveryRun(autoReconnect, before);
    StepConserves(s0, HubTakes);
    NextHub(s0, HubTakes);
    hide Run, RunFrom, Next, Conserved;
    FreedGoesLast(s0.hub, id);
    InFlightAndFree(s.hub);
    hide Find, HubMsgStep;
    NotIssuedYet(s, after, id);
    ConservedFrom(s, after);
    ConservedMeans(RunFrom(s, after).hub);
    NoEntryNoStep(RunFrom(s, after).hub, id);
  }

  lemma NoEntryNoStep(h: Hub<nat, nat>, id: u16)
    requires id !in Ids(h.clientData)
    ensures RecoverStep(h, id) == (h, Nothing())
  {
    forall j | 0 <= j < |h.clientData| ensures h.clientData[j].id != id {
      assert Ids(h.clientData)[j] in Ids(h.clientData);
    }
  }

  /** The next event frees this id. */
  predicate Completes(s: System, id: u16) {
    && s.hub.phase.Connected? && s.queue != [] && s.queue[0].FromTask? && s.queue[0].msg == RecoverId(id)
    && var i := Find(s.hub.clientData, id);
       i < |s.hub.clientData| && !s.hub.clientData[i].PublishQoS2?
  }

  lemma NotIssuedYet(s: System, actions: seq<Action>, id: u16)
    requires Conserved(s.hub) && s.hub.ring != [] && s.hub.ring[|s.hub.ring| - 1] == id
    requires |RunFrom(s, actions).log| <= |s.log| + |s.hub.ring| - 1
    ensures forall u :: |s.log| <= u < |RunFrom(s, actions).log| ==> RunFrom(s, actions).log[u].id != id
    ensures |RunFrom(s, actions).log| == |s.log| + |s.hub.ring| - 1 ==>
              RunFrom(s, actions).hub.ring != [] && RunFrom(s, actions).hub.ring[0] == id
    ensures id in RunFrom(s, actions).hub.ring
  {
    hide RunFrom, Conserved, InRingOrder;
    FreeIdsDistinct(s.hub);
    IssuedInRingOrder(s, actions, |s.hub.ring| - 1);
    OthersIssued(s, RunFrom(s, actions));
  }

  lemma FreeIdsDistinct<T, M>(h: Hub<T, M>)
    requires Conserved(h)
    ensures forall i, j :: 0 <= i < j < |h.ring| ==> h.ring[i] != h.ring[j]
  {
    ConservedMeans(h);
  }

  lemma OthersIssued(s: System, s': System)
    requires s.hub.ring != [] && InRingOrder(s, s', |s.hub.ring| - 1)
    requires forall i, j :: 0 <= i < j < |s.hub.ring| ==> s.hub.ring[i] != s.hub.ring[j]
    ensures var id := s.hub.ring[|s.hub.ring| - 1];
            && (forall u :: |s.log| <= u < |s'.log| ==> s'.log[u].id != id)
            && (|s'.log| == |s.log| + |s.hub.ring| - 1 ==> s'.hub.ring != [] && s'.hub.ring[0] == id)
            && id in s'.hub.ring
  {
    forall u | |s.log| <= u < |s'.log| ensures s'.log[u].id != s.hub.ring[|s.hub.ring| - 1] {
      assert s'.log[|s.log| + (u - |s.log|)].id == s.hub.ring[u - |s.log|];
    }
  }

  lemma FreedGoesLast(h: Hub<nat, nat>, id: u16)
    requires Conserved(h)
    requires Find(h.clientData, id) < |h.clientData| && Acknowledge(h.clientData[Find(h.clientData, id)]).None?
    ensures HubMsgStep(h, RecoverId(id)).0.ring == h.ring + [id]
  {
    InFlightAndFree(h);
  }
}
