/**
 The sending side over every run: a request is complete only after its own acknowledgements, in their order, have been
 consumed, unless its packet id was struck by a RecoverId sent for another request or stage.
 */
module Handshakes {
  import opened Wire
  import opened HubSteps
  import opened Session
  import opened Projections
  import opened RequestLog

  ghost predicate Took(s: System, uid: nat, kind: SendKind, at: nat) {
    Consumed(uid, kind, at) in s.consumed
  }

  /** PUBREC consumed, and PUBCOMP consumed from a later place in what the broker sent. */
  ghost predicate RecThenComp(s: System, uid: nat, rec: nat, comp: nat) {
    rec < comp && Took(s, uid, Publish2, rec) && Took(s, uid, Release, comp)
  }

  /** The acknowledgements that allow the request to leave this stage have been consumed. */
  ghost predicate Earned(s: System, uid: nat, kind: SendKind) {
    if kind == Release then exists rec, comp :: RecThenComp(s, uid, rec, comp) else exists at :: Took(s, uid, kind, at)
  }

  function LastKind(kind: SendKind): SendKind {
    if kind == Publish2 then Release else kind
  }

  // ----- The invariant -----

  /** Every consumed acknowledgement came from the broker and carried the request's own packet id. */
  ghost predicate Truthful(s: System) {
    forall c :: c in s.consumed ==>
      c.uid < |s.log| && c.at < |s.acks| && s.acks[c.at] == AckOf(c.kind, s.log[c.uid].id)
  }

  ghost predicate RequestOk(s: System, u: nat)
    requires u < |s.log|
  {
    && (s.log[u].status == Released ==> s.log[u].kind == Publish2)
    && (u !in s.struck && s.log[u].status == Released ==> Earned(s, u, Publish2))
    && (u !in s.struck && s.log[u].status == Closed ==> Earned(s, u, LastKind(s.log[u].kind)))
  }

  ghost predicate SenderOk(s: System, t: Task)
    requires t.Send?
  {
    && t.uid < |s.log| && t.id == s.log[t.uid].id && t.sendCursor <= |s.acks|
    && (t.uid !in s.struck ==>
          && (t.kind == Release ==> exists rec: nat :: rec < t.sendCursor && Took(s, t.uid, Publish2, rec))
          && (t.sendPc.Acked? || t.sendPc.AckedAgain? ==> Earned(s, t.uid, t.kind)))
  }

  ghost predicate RecoverOk(s: System, e: Event) {
    e.FromTask? && e.msg.RecoverId? ==>
      && e.tag.Recovers? && e.tag.uid < |s.log| && e.msg.id == s.log[e.tag.uid].id
      && (e.tag.uid !in s.struck ==> Earned(s, e.tag.uid, e.tag.kind))
  }

  ghost predicate HandshakeInv(s: System) {
    && Truthful(s)
    && (forall u :: 0 <= u < |s.log| ==> RequestOk(s, u))
    && (forall t :: t in s.tasks && s.tasks[t].Send? ==> SenderOk(s, s.tasks[t]))
    && (forall e :: e in s.queue ==> RecoverOk(s, e))
  }

  // ----- History only grows -----

  ghost predicate Grows(s: System, s': System) {
    && s.acks <= s'.acks && s.struck <= s'.struck
    && (forall c :: c in s.consumed ==> c in s'.consumed)
    && |s.log| <= |s'.log| && (forall u :: 0 <= u < |s.log| ==> s'.log[u].id == s.log[u].id)
  }

  lemma StepGrows(s: System, a: Action)
    ensures Grows(s, Next(s, a))
  {
    hide Next;
    NextHistory(s, a);
    StepOnlyForward(s, a);
    hide ConsumedBy, StruckBy;
  }

  lemma EarnedStays(s: System, s': System, uid: nat, kind: SendKind)
    requires Grows(s, s') && Earned(s, uid, kind)
    ensures Earned(s', uid, kind)
  {
    if kind == Release {
      var rec, comp :| RecThenComp(s, uid, rec, comp);
      assert RecThenComp(s', uid, rec, comp);
    } else {
      var at :| Took(s, uid, kind, at);
      assert Took(s', uid, kind, at);
    }
  }

  lemma SenderStays(s: System, s': System, t: Task)
    requires Grows(s, s') && t.Send? && SenderOk(s, t)
    ensures SenderOk(s', t)
  {
    if t.uid !in s'.struck {
      if t.kind == Release {
        var rec: nat :| rec < t.sendCursor && Took(s, t.uid, Publish2, rec);
        assert rec < t.sendCursor && Took(s', t.uid, Publish2, rec);
      }
      if t.sendPc.Acked? || t.sendPc.AckedAgain? {
        hide Earned, Took;
        EarnedStays(s, s', t.uid, t.kind);
      }
    }
  }

  lemma RecoverStays(s: System, s': System, e: Event)
    requires Grows(s, s') && RecoverOk(s, e)
    ensures RecoverOk(s', e)
  {
    hide Earned;
    if e.FromTask? && e.msg.RecoverId? && e.tag.uid !in s'.struck {
      EarnedStays(s, s', e.tag.uid, e.tag.kind);
    }
  }

  lemma StepTruthful(s: System, a: Action)
    requires HandshakeInv(s)
    ensures Truthful(Next(s, a))
  {
    hide Next, Earned, RequestOk;
    NextHistory(s, a);
    StepGrows(s, a);
    if ConsumedBy(s, a) != [] {
      assert SenderOk(s, s.tasks[a.task]);
    }
  }

  // ----- The log -----

  /** The hub turns or closes a request that is not struck only with a RecoverId earned at its own stage. */
  lemma StepRequests(s: System, a: Action)
    requires HandshakeInv(s) && Refines(s)
    ensures var s' := Next(s, a); forall u :: 0 <= u < |s'.log| ==> RequestOk(s', u)
  {
    var s' := Next(s, a);
    NextLog(s, a);
    NextHistory(s, a);
    StepGrows(s, a);
    hide Next, Earned, View, Grows, ConsumedBy, StruckBy;
    forall u | 0 <= u < |s'.log| ensures RequestOk(s', u) {
      if u < |s.log| {
        assert RequestOk(s, u);
        if s'.log[u] == s.log[u] {
          RequestStays(s, s', u);
        } else {
          RequestTurns(s, a, u);
        }
      }
    }
  }

  lemma RequestStays(s: System, s': System, u: nat)
    requires u < |s.log| && RequestOk(s, u) && Grows(s, s') && s'.log[u] == s.log[u]
    ensures RequestOk(s', u)
  {
    hide Earned;
    if u !in s'.struck && s.log[u].status == Released {
      EarnedStays(s, s', u, Publish2);
    }
    if u !in s'.struck && s.log[u].status == Closed {
      EarnedStays(s, s', u, LastKind(s.log[u].kind));
    }
  }

  lemma RequestTurns(s: System, a: Action, u: nat)
    requires HandshakeInv(s) && Refines(s) && u < |s.log| <= |Next(s, a).log| && Next(s, a).log[u] != s.log[u]
    requires Grows(s, Next(s, a))
    ensures RequestOk(Next(s, a), u)
  {
    var s' := Next(s, a);
    NextLog(s, a);
    NextHistory(s, a);
    hide Next, Earned, View, Grows, Find, Holder;
    assert TakesRecover(s, a);
    var id, tag := s.queue[0].msg.id, s.queue[0].tag;
    FindIsHolder(s.log, 0, id);
    assert u == Holder(s.log, 0, id);
    assert s.hub.clientData[Find(s.hub.clientData, id)] == EntryOf(s.log[u], u);
    assert RequestOk(s, u);
    if u !in s'.struck {
      assert tag == Recovers(u, KindOf(EntryOf(s.log[u], u)), false);
      assert RecoverOk(s, s.queue[0]);
      EarnedStays(s, s', u, KindOf(EntryOf(s.log[u], u)));
    }
  }

  // ----- The tasks -----

  /** Every send task that a step starts is for an entry of the resend list as the step leaves it. */
  lemma StartedForEntries(s: System, a: Action)
    ensures var ts := Started(s, a);
            forall i :: 0 <= i < |ts| && ts[i].Send? ==>
              exists e :: e in Next(s, a).hub.clientData && ts[i] == SendTask(e, |s.acks|)
  {
    NextHub(s, a);
    hide Next, Find;
    var ts, h := Started(s, a), HubNext(s, a);
    forall i | 0 <= i < |ts| && ts[i].Send? ensures exists e :: e in h.clientData && ts[i] == SendTask(e, |s.acks|) {
      if Taking(s, a) && s.queue[0].FromClient? {
        var e := ClientDataStep(s.hub, ClientData(s.queue[0].request, |s.log|)).1.sends[i];
        assert e in h.clientData && ts[i] == SendTask(e, |s.acks|);
      } else if Taking(s, a) {
        assert s.queue[0].msg.RecoverId?;
        RecoverSends(s.hub, s.queue[0].msg.id);
        var e := RecoverStep(s.hub, s.queue[0].msg.id).1.sends[i];
        assert e in h.clientData && ts[i] == SendTask(e, |s.acks|);
      } else {
        var e := s.hub.clientData[i];
        assert e in h.clientData && ts[i] == SendTask(e, |s.acks|);
      }
    }
  }

  lemma RecoverSends(h: Hub<nat, nat>, id: u16)
    ensures forall e :: e in RecoverStep(h, id).1.sends ==> e in RecoverStep(h, id).0.clientData
  {
    hide Find;
    var i := Find(h.clientData, id);
    if i < |h.clientData| && Acknowledge(h.clientData[i]).Some? {
      var next := Acknowledge(h.clientData[i]).value;
      assert h.clientData[i := next][i] == next;
    }
  }

  lemma SenderForEntry(s: System, e: Entry<nat>, now: nat)
    requires Refines(s) && e in s.hub.clientData && Truthful(s) && now == |s.acks|
    requires forall u :: 0 <= u < |s.log| ==> RequestOk(s, u)
    ensures SenderOk(s, SendTask(e, now))
  {
    ViewContents(s.log, 0);
    hide View;
    assert RequestOk(s, e.trace);
    if KindOf(e) == Release && e.trace !in s.struck {
      var rec: nat :| Took(s, e.trace, Publish2, rec);
      assert rec < now && Took(s, e.trace, Publish2, rec);
    }
  }

  lemma StepSenders(s: System, a: Action)
    requires Fresh(s) && HandshakeInv(s)
    requires var s' := Next(s, a); Refines(s') && Truthful(s') && forall u :: 0 <= u < |s'.log| ==> RequestOk(s', u)
    ensures var s' := Next(s, a); forall t :: t in s'.tasks && s'.tasks[t].Send? ==> SenderOk(s', s'.tasks[t])
  {
    var s' := Next(s, a);
    NextTasks(s, a);
    NextHistory(s, a);
    StepGrows(s, a);
    StartedForEntries(s, a);
    hide Next, SenderOk, Grows, Moved, Started, RecoverOk, RequestOk, Refines, Truthful;
    forall t | t in s'.tasks && s'.tasks[t].Send? ensures SenderOk(s', s'.tasks[t]) {
      if Moves(s, a) && t == a.task {
        SenderMoves(s, a);
      } else if t in s.tasks {
        assert s'.tasks[t] == s.tasks[t];
        SenderStays(s, s', s.tasks[t]);
      } else {
        assert s'.tasks[t] == Started(s, a)[t - s.nextTask];
        var e :| e in s'.hub.clientData && s'.tasks[t] == SendTask(e, |s.acks|);
        NoAckWhileStarting(s, a);
        SenderForEntry(s', e, |s.acks|);
      }
    }
  }

  lemma NoAckWhileStarting(s: System, a: Action)
    requires Started(s, a) != []
    ensures !a.BrokerAcks?
  {
  }

  lemma SenderMoves(s: System, a: Action)
    requires HandshakeInv(s) && Moves(s, a) && Moved(s, a).Some? && Moved(s, a).value.Send?
    ensures SenderOk(Next(s, a), Moved(s, a).value)
  {
    var s', t := Next(s, a), s.tasks[a.task];
    MovesAsSender(s, a);
    assert SenderOk(s, t);
    StepGrows(s, a);
    SenderStays(s, s', t);
    NextHistory(s, a);
    hide Next, Grows, Moved, Truthful, RequestOk, RecoverOk;
    if ConsumedBy(s, a) != [] {
      assert Took(s', t.uid, t.kind, t.sendCursor);
      if t.uid !in s'.struck && t.kind == Release {
        var rec: nat :| rec < t.sendCursor && Took(s', t.uid, Publish2, rec);
        assert RecThenComp(s', t.uid, rec, t.sendCursor);
      }
    }
  }

  /** What a turn may change in a send task: where it is and how far it has read. */
  lemma MovesAsSender(s: System, a: Action)
    requires Moves(s, a) && Moved(s, a).Some? && Moved(s, a).value.Send?
    ensures var t, t' := s.tasks[a.task], Moved(s, a).value;
            && t.Send? && t'.uid == t.uid && t'.id == t.id && t'.kind == t.kind
            && t.sendCursor <= t'.sendCursor && (t.sendCursor <= |s.acks| ==> t'.sendCursor <= |s.acks|)
            && (t'.sendPc.Acked? || t'.sendPc.AckedAgain? ==>
                  t.sendPc.Acked? || t.sendPc.AckedAgain? || ConsumedBy(s, a) == [Consumed(t.uid, t.kind, t.sendCursor)])
            && (ConsumedBy(s, a) != [] ==> ConsumedBy(s, a) == [Consumed(t.uid, t.kind, t.sendCursor)])
  {
  }

  // ----- The queue -----

  lemma StepRecovers(s: System, a: Action)
    requires HandshakeInv(s)
    ensures var s' := Next(s, a); forall e :: e in s'.queue ==> RecoverOk(s', e)
  {
    var s' := Next(s, a);
    NextQueue(s, a);
    StepGrows(s, a);
    hide Next, RecoverOk, Grows, Appended, SenderOk, RequestOk, Truthful;
    forall e | e in s'.queue ensures RecoverOk(s', e) {
      if e in s.queue {
        RecoverStays(s, s', e);
      } else {
        AppendedRecover(s, a, e);
        RecoverStays(s, s', e);
      }
    }
  }

  lemma AppendedRecover(s: System, a: Action, e: Event)
    requires HandshakeInv(s) && e in Appended(s, a)
    ensures RecoverOk(s, e)
  {
    hide Earned, RequestOk, Truthful;
    if a.TaskDispatches? && s.tasks[a.task].Send? {
      assert SenderOk(s, s.tasks[a.task]);
    }
  }

  // ----- Every run -----

  lemma StepHandshake(s: System, a: Action)
    requires Fresh(s) && Refines(s) && HandshakeInv(s)
    ensures HandshakeInv(Next(s, a))
  {
    StepTruthful(s, a);
    StepRequests(s, a);
    StepRefines(s, a);
    StepSenders(s, a);
    StepRecovers(s, a);
    hide Next, Refines, Truthful, RequestOk, SenderOk, RecoverOk;
  }

  lemma {:induction false} HandshakeInEveryRun(autoReconnect: bool, actions: seq<Action>)
    ensures HandshakeInv(Run(autoReconnect, actions))
    decreases |actions|
  {
    if actions != [] {
      hide Next, HandshakeInv, Fresh, Refines;
      HandshakeInEveryRun(autoReconnect, actions[..|actions| - 1]);
      FreshInEveryRun(autoReconnect, actions[..|actions| - 1]);
      RefinesInEveryRun(autoReconnect, actions[..|actions| - 1]);
      StepHandshake(Run(autoReconnect, actions[..|actions| - 1]), actions[|actions| - 1]);
    }
  }

  /** The acknowledgement at this place of what the broker sent is of this kind and carries this packet id. */
  predicate AckAt(s: System, at: nat, kind: SendKind, id: u16) {
    at < |s.acks| && s.acks[at] == AckOf(kind, id)
  }

  /**
   A request is complete only after its own acknowledgement; a QoS 2 publish turns to PUBREL only after a PUBREC for
   its id, and frees the id only after a PUBCOMP that the broker sent later than that PUBREC.
   */
  lemma CompleteOnlyWhenAcknowledged(autoReconnect: bool, actions: seq<Action>, u: nat)
    requires var s := Run(autoReconnect, actions); u < |s.log| && u !in s.struck
    ensures var s := Run(autoReconnect, actions);
            var r := s.log[u];
            && (r.status == Released ==> exists rec: nat :: Took(s, u, Publish2, rec) && AckAt(s, rec, Publish2, r.id))
            && (r.status == Closed && r.kind == Publish2 ==>
                  exists rec: nat, comp: nat :: RecThenComp(s, u, rec, comp)
                    && AckAt(s, rec, Publish2, r.id) && AckAt(s, comp, Release, r.id))
            && (r.status == Closed && r.kind != Publish2 ==>
                  exists at: nat :: Took(s, u, r.kind, at) && AckAt(s, at, r.kind, r.id))
  {
    HandshakeInEveryRun(autoReconnect, actions);
    RefinesInEveryRun(autoReconnect, actions);
    var s := Run(autoReconnect, actions);
    hide Run, SenderOk, RecoverOk, View;
    var r := s.log[u];
    assert RequestOk(s, u);
    if r.status == Released {
      var rec: nat :| Took(s, u, Publish2, rec);
      assert Took(s, u, Publish2, rec) && AckAt(s, rec, Publish2, r.id);
    } else if r.status == Closed && r.kind == Publish2 {
      var rec, comp :| RecThenComp(s, u, rec, comp);
      assert Took(s, u, Publish2, rec) && Took(s, u, Release, comp);
      assert AckAt(s, rec, Publish2, r.id) && AckAt(s, comp, Release, r.id);
    } else if r.status == Closed {
      var at: nat :| Took(s, u, r.kind, at);
      assert Took(s, u, r.kind, at) && AckAt(s, at, r.kind, r.id);
    }
  }

  /** No PUBREL is written before the PUBREC of its own publish has been consumed. */
  lemma {:induction false} PubRelOnlyAfterPubRec(autoReconnect: bool, actions: seq<Action>, id: u16, u: nat)
    requires WroteRequest(Release, id, u) in Run(autoReconnect, actions).written
    ensures var s := Run(autoReconnect, actions);
            u in s.struck || exists rec: nat :: Took(s, u, Publish2, rec) && AckAt(s, rec, Publish2, id)
    decreases |actions|
  {
    if actions != [] {
      var s, a := Run(autoReconnect, actions[..|actions| - 1]), actions[|actions| - 1];
      HandshakeInEveryRun(autoReconnect, actions[..|actions| - 1]);
      NextWritten(s, a);
      StepGrows(s, a);
      hide Next, HandshakeInv;
      if WroteRequest(Release, id, u) in s.written {
        PubRelOnlyAfterPubRec(autoReconnect, actions[..|actions| - 1], id, u);
        if u !in Next(s, a).struck {
          var rec: nat :| Took(s, u, Publish2, rec) && AckAt(s, rec, Publish2, id);
          assert Took(Next(s, a), u, Publish2, rec) && AckAt(Next(s, a), rec, Publish2, id);
        }
      } else {
        PubRelWritten(s, a, id, u);
        if u !in Next(s, a).struck {
          var rec: nat :| Took(s, u, Publish2, rec) && AckAt(s, rec, Publish2, id);
          assert Took(Next(s, a), u, Publish2, rec) && AckAt(Next(s, a), rec, Publish2, id);
        }
      }
    }
  }

  lemma PubRelWritten(s: System, a: Action, id: u16, u: nat)
    requires HandshakeInv(s) && WroteRequest(Release, id, u) in WrittenBy(s, a)
    ensures u in s.struck || exists rec: nat :: Took(s, u, Publish2, rec) && AckAt(s, rec, Publish2, id)
  {
    var t := s.tasks[a.task];
    assert t.Send? && t.kind == Release && t.id == id && t.uid == u;
    assert SenderOk(s, t);
    if u !in s.struck {
      var rec: nat :| rec < t.sendCursor && Took(s, t.uid, Publish2, rec);
      assert Took(s, u, Publish2, rec) && AckAt(s, rec, Publish2, id);
    }
  }

  /** Whatever is written for a request, first or again, carries the packet id it was given when it was accepted. */
  lemma {:induction false} EveryCopyCarriesItsId(autoReconnect: bool, actions: seq<Action>, kind: SendKind, id: u16, u: nat)
    requires WroteRequest(kind, id, u) in Run(autoReconnect, actions).written
    ensures var s := Run(autoReconnect, actions); u < |s.log| && s.log[u].id == id
    decreases |actions|
  {
    if actions != [] {
      var s, a := Run(autoReconnect, actions[..|actions| - 1]), actions[|actions| - 1];
      HandshakeInEveryRun(autoReconnect, actions[..|actions| - 1]);
      NextWritten(s, a);
      StepGrows(s, a);
      hide Next, RequestOk, RecoverOk, Truthful;
      if WroteRequest(kind, id, u) in s.written {
        EveryCopyCarriesItsId(autoReconnect, actions[..|actions| - 1], kind, id, u);
      } else {
        assert SenderOk(s, s.tasks[a.task]);
      }
    }
  }
}
