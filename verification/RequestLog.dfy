/** The resend list refines the log of accepted requests, in order, over every run including reconnects. */
module RequestLog {
  import opened Wire
  import opened HubSteps
  import opened Session
  import opened Projections

  /** What an unfinished request looks like in the resend list. */
  function EntryOf(r: Request, uid: nat): (e: Entry<nat>)
    ensures e.id == r.id && e.trace == uid
  {
    match r.kind
    case Publish1 => PublishQoS1(r.id, uid)
    case Publish2 => if r.status == Released then PubRel(r.id, uid) else PublishQoS2(r.id, uid)
    case Release => PubRel(r.id, uid)
    case Subscribing => Subscribe(r.id, uid)
    case Unsubscribing => Unsubscribe(r.id, uid)
  }

  /** The accepted and not completed requests from k on, in acceptance order. */
  function View(log: seq<Request>, k: nat): seq<Entry<nat>>
    requires k <= |log|
    decreases |log| - k
  {
    if k == |log| then []
    else (if log[k].status == Closed then [] else [EntryOf(log[k], k)]) + View(log, k + 1)
  }

  ghost predicate Refines(s: System) {
    s.hub.clientData == View(s.log, 0) && forall u :: 0 <= u < |s.log| ==> s.log[u].kind != Release
  }

  // ----- The list operations against the log operations -----

  lemma {:induction false} ViewAppend(log: seq<Request>, r: Request, k: nat)
    requires k <= |log| && r.status != Closed
    ensures View(log + [r], k) == View(log, k) + [EntryOf(r, |log|)]
    decreases |log| - k
  {
    if k == |log| {
      assert View(log + [r], k + 1) == [];
    } else {
      ViewAppend(log, r, k + 1);
    }
  }

  lemma FindSkip<T>(e: Entry<T>, w: seq<Entry<T>>, id: u16)
    ensures Find([e] + w, id) == if e.id == id then 0 else 1 + Find(w, id)
  {
    assert ([e] + w)[1..] == w;
  }

  lemma ViewEnd(log: seq<Request>)
    ensures View(log, |log|) == []
  {
  }

  lemma ViewOpen(log: seq<Request>, k: nat)
    requires k < |log|
    ensures log[k].status == Closed ==> View(log, k) == View(log, k + 1)
    ensures log[k].status != Closed ==> View(log, k) == [EntryOf(log[k], k)] + View(log, k + 1)
  {
  }

  lemma HolderSkip(log: seq<Request>, k: nat, id: u16)
    requires k < |log|
    ensures log[k].status != Closed && log[k].id == id ==> Holder(log, k, id) == k
    ensures !(log[k].status != Closed && log[k].id == id) ==> Holder(log, k, id) == Holder(log, k + 1, id)
  {
  }

  /** Finding the entry is finding the holder. */
  lemma {:induction false} FindIsHolder(log: seq<Request>, k: nat, id: u16)
    requires k <= |log|
    ensures var u, v := Holder(log, k, id), View(log, k);
            var i := Find(v, id);
            && (u == |log| <==> i == |v|)
            && (u < |log| ==> i < |v| && v[i] == EntryOf(log[u], u))
    decreases |log| - k
  {
    hide View, Find, Holder, EntryOf;
    if k == |log| {
      ViewEnd(log);
    } else {
      FindIsHolder(log, k + 1, id);
      ViewOpen(log, k);
      HolderSkip(log, k, id);
      FindSkip(EntryOf(log[k], k), View(log, k + 1), id);
    }
  }

  lemma {:induction false} ViewLater(log: seq<Request>, log': seq<Request>, k: nat)
    requires |log| == |log'| && k <= |log|
    requires forall u :: k <= u < |log| ==> log[u] == log'[u]
    ensures View(log, k) == View(log', k)
    decreases |log| - k
  {
    hide View, EntryOf;
    if k == |log| {
      ViewEnd(log);
      ViewEnd(log');
    } else {
      ViewLater(log, log', k + 1);
      ViewOpen(log, k);
      ViewOpen(log', k);
    }
  }

  /** Updating the holder replaces or removes its entry, and no other. */
  lemma {:induction false} ViewUpdate(log: seq<Request>, k: nat, id: u16, r: Request)
    requires k <= |log| && Holder(log, k, id) < |log|
    ensures var u, v := Holder(log, k, id), View(log, k);
            var i := Find(v, id);
            i < |v| && View(log[u := r], k) == v[..i] + Kept(r, u) + v[i + 1..]
    decreases |log| - k
  {
    hide View, Find, Holder, EntryOf, Kept;
    FindIsHolder(log, k, id);
    var u, w := Holder(log, k, id), View(log, k + 1);
    var log' := log[u := r];
    ViewOpen(log, k);
    HolderSkip(log, k, id);
    FindSkip(EntryOf(log[k], k), w, id);
    if u == k {
      ViewLater(log, log', k + 1);
      HeadUpdate(log', k, EntryOf(log[k], k), w);
    } else {
      ViewUpdate(log, k + 1, id, r);
      ViewOpen(log', k);
      if log[k].status != Closed {
        ConsUpdate(EntryOf(log[k], k), w, Find(w, id), Kept(r, u));
      }
    }
  }

  lemma HeadUpdate(log: seq<Request>, k: nat, e: Entry<nat>, w: seq<Entry<nat>>)
    requires k < |log| && View(log, k + 1) == w
    ensures View(log, k) == ([e] + w)[..0] + Kept(log[k], k) + ([e] + w)[1..]
  {
    assert ([e] + w)[..0] == [] && ([e] + w)[1..] == w;
  }

  function Kept(r: Request, u: nat): seq<Entry<nat>> {
    if r.status == Closed then [] else [EntryOf(r, u)]
  }

  lemma ConsUpdate<T>(e: T, w: seq<T>, i: nat, mid: seq<T>)
    requires i < |w|
    ensures [e] + (w[..i] + mid + w[i + 1..]) == ([e] + w)[..i + 1] + mid + ([e] + w)[i + 2..]
  {
    assert ([e] + w)[..i + 1] == [e] + w[..i];
    assert ([e] + w)[i + 2..] == w[i + 1..];
  }

  // ----- One step -----

  lemma RecoverRefines(h: Hub<nat, nat>, log: seq<Request>, id: u16)
    requires h.clientData == View(log, 0)
    requires forall u :: 0 <= u < |log| ==> log[u].kind != Release
    ensures RecoverStep(h, id).0.clientData == View(LogRecover(log, id), 0)
  {
    hide View, Find, Holder, Acknowledge, Advance, EntryOf;
    FindIsHolder(log, 0, id);
    var u, i := Holder(log, 0, id), Find(h.clientData, id);
    if u < |log| {
      ViewUpdate(log, 0, id, Advance(log[u]));
      AcknowledgeIsAdvance(log[u], u);
      Replace(h.clientData, i);
    }
  }

  lemma Replace<T>(s: seq<T>, i: nat)
    requires i < |s|
    ensures forall x :: s[i := x] == s[..i] + [x] + s[i + 1..]
    ensures s[..i] + [] + s[i + 1..] == s[..i] + s[i + 1..]
  {
  }

  /** What the hub does to the entry is what the log does to the request. */
  lemma AcknowledgeIsAdvance(r: Request, u: nat)
    requires r.status != Closed && r.kind != Release
    ensures Kept(Advance(r), u) == match Acknowledge(EntryOf(r, u))
                                   case Some(next) => [next]
                                   case None => []
  {
  }

  lemma StepRefines(s: System, a: Action)
    requires Refines(s)
    ensures Refines(Next(s, a))
  {
    NextHub(s, a);
    NextLog(s, a);
    hide Next, RecoverStep, LogRecover, ReceiveStep, View;
    if a.HubTakes? && s.hub.phase.Connected? && s.queue != [] {
      match s.queue[0]
      case FromClient(request) =>
        if request != ReqQoS0 && s.hub.ring != [] {
          var entry := NewEntry(request, s.hub.ring[0], |s.log|);
          ViewAppend(s.log, Request(KindOf(entry), entry.id, Open), 0);
        }
      case FromTask(msg, _) =>
        MsgKeepsList(s.hub, msg);
        if msg.RecoverId? {
          RecoverRefines(s.hub, s.log, msg.id);
          RecoverKeepsKinds(s.log, msg.id);
        }
    }
  }

  lemma MsgKeepsList(h: Hub<nat, nat>, msg: HubMsg<nat>)
    ensures if msg.RecoverId? then HubMsgStep(h, msg) == RecoverStep(h, msg.id)
            else HubMsgStep(h, msg).0.clientData == h.clientData
  {
    hide RecoverStep;
  }

  lemma RecoverKeepsKinds(log: seq<Request>, id: u16)
    ensures forall u :: 0 <= u < |log| ==> LogRecover(log, id)[u].kind == log[u].kind
  {
  }

  // ----- Every run -----

  /**
   In every reachable state the resend list is exactly the accepted and not completed requests in acceptance order,
   with QoS 2 publishes turned to PUBREL in place once PUBREC has been taken.
   */
  lemma {:induction false} RefinesInEveryRun(autoReconnect: bool, actions: seq<Action>)
    ensures Refines(Run(autoReconnect, actions))
    decreases |actions|
  {
    if actions != [] {
      hide Next, Refines;
      RefinesInEveryRun(autoReconnect, actions[..|actions| - 1]);
      StepRefines(Run(autoReconnect, actions[..|actions| - 1]), actions[|actions| - 1]);
    }
  }

  /** From s to s' a task is started for each of these entries, in their order, and reads from now on. */
  ghost predicate Restarted(s: System, s': System, entries: seq<Entry<nat>>) {
    && s'.nextTask == s.nextTask + |entries|
    && forall t :: s.nextTask <= t < s'.nextTask ==>
         t in s'.tasks && s'.tasks[t] == SendTask(entries[t - s.nextTask], |s.acks|)
  }

  /** A successful connection starts exactly the unfinished requests, in that order, and changes none: section 4.6. */
  lemma ReconnectRestartsLog(autoReconnect: bool, actions: seq<Action>, sessionPresent: bool)
    requires Run(autoReconnect, actions).hub.phase.ToConnect?
    ensures var s := Run(autoReconnect, actions);
            var s' := Next(s, HubConnects(NetConnected(sessionPresent)));
            && s'.hub.phase == Connected && s'.log == s.log
            && s'.hub.clientData == View(s.log, 0) && Restarted(s, s', View(s.log, 0))
  {
    RefinesInEveryRun(autoReconnect, actions);
    hide View, Run, Next, Restarted;
    RestartsEntries(Run(autoReconnect, actions), sessionPresent);
  }

  lemma RestartsEntries(s: System, sessionPresent: bool)
    requires s.hub.phase.ToConnect?
    ensures var s' := Next(s, HubConnects(NetConnected(sessionPresent)));
            && s'.hub.phase == Connected && s'.log == s.log
            && s'.hub.clientData == s.hub.clientData && Restarted(s, s', s.hub.clientData)
  {
    var a := HubConnects(NetConnected(sessionPresent));
    NextHub(s, a);
    NextLog(s, a);
    NextTasks(s, a);
    hide Next, Spawn, SendTasks, SendTask;
  }

  /** A request that is Released or Closed stays so, and a Closed one stays Closed: no PUBREL goes back to PUBLISH. */
  ghost predicate OnlyForward(log: seq<Request>, log': seq<Request>) {
    |log| <= |log'|
    && forall u :: 0 <= u < |log| ==>
         && log'[u].kind == log[u].kind && log'[u].id == log[u].id
         && (log[u].status == Closed ==> log'[u].status == Closed)
         && (log[u].status == Released ==> log'[u].status != Open)
  }

  lemma StepOnlyForward(s: System, a: Action)
    ensures OnlyForward(s.log, Next(s, a).log)
  {
    NextLog(s, a);
    hide Next;
  }

  lemma {:induction false} RunOnlyForward(s: System, actions: seq<Action>)
    ensures OnlyForward(s.log, RunFrom(s, actions).log)
    decreases |actions|
  {
    if actions != [] {
      hide Next;
      var mid := RunFrom(s, actions[..|actions| - 1]);
      RunOnlyForward(s, actions[..|actions| - 1]);
      StepOnlyForward(mid, actions[|actions| - 1]);
    }
  }

  // ----- What the view contains -----

  /** Entries carry their request's number, rising; every unfinished request has its entry. */
  lemma {:induction false} ViewContents(log: seq<Request>, k: nat)
    requires k <= |log|
    ensures Contents(log, View(log, k), k)
    decreases |log| - k
  {
    hide View, EntryOf;
    if k == |log| {
      ViewEnd(log);
    } else {
      ViewContents(log, k + 1);
      ViewOpen(log, k);
      if log[k].status != Closed {
        ConsContents(log, EntryOf(log[k], k), View(log, k + 1), k);
      }
    }
  }

  ghost predicate Contents(log: seq<Request>, v: seq<Entry<nat>>, k: nat) {
    && (forall i :: 0 <= i < |v| ==>
          k <= v[i].trace < |log| && log[v[i].trace].status != Closed
          && v[i] == EntryOf(log[v[i].trace], v[i].trace))
    && (forall i, j :: 0 <= i < j < |v| ==> v[i].trace < v[j].trace)
    && (forall u :: k <= u < |log| && log[u].status != Closed ==> EntryOf(log[u], u) in v)
  }

  lemma ConsContents(log: seq<Request>, e: Entry<nat>, w: seq<Entry<nat>>, k: nat)
    requires k < |log| && Contents(log, w, k + 1) && e == EntryOf(log[k], k) && log[k].status != Closed
    ensures Contents(log, [e] + w, k)
  {
    hide EntryOf;
    var v := [e] + w;
    assert v[0] == e && forall i :: 0 < i < |v| ==> v[i] == w[i - 1];
    forall u | k <= u < |log| && log[u].status != Closed ensures EntryOf(log[u], u) in v {
      if u > k {
        assert EntryOf(log[u], u) in w;
      }
    }
  }
}
