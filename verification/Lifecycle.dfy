/** The connection lifecycle over every run: when the hub stops, and that it stays stopped. */
module Lifecycle {
  import opened HubSteps
  import opened Session
  import opened Projections

  predicate Stopping(phase: Phase) {
    phase.Disconnected? || phase == ToDisconnect(ClientCommand)
  }

  ghost predicate LifeInv(s: System) {
    && (s.commanded ==> Stopping(s.hub.phase))
    && (s.hub.autoReconnect && Stopping(s.hub.phase) ==> s.commanded)
    && (!s.hub.autoReconnect && s.wasConnected ==> !s.hub.phase.ToConnect?)
    && (s.hub.phase.Connected? || s.hub.phase.ToDisconnect? ==> s.wasConnected)
  }

  lemma NextFlags(s: System, a: Action)
    ensures Next(s, a).commanded <==> s.commanded || (a.HubCommand? && (s.hub.phase.Connected? || s.hub.phase.ToConnect?))
    ensures Next(s, a).wasConnected <==>
            s.wasConnected || (a.HubConnects? && s.hub.phase.ToConnect? && a.event.NetConnected?)
  {
    hide Take, Writes, Dies, Reads, Dispatches, PingStep, SendTasks, Spawn;
  }

  lemma StepLife(s: System, a: Action)
    requires LifeInv(s)
    ensures LifeInv(Next(s, a)) && Next(s, a).hub.autoReconnect == s.hub.autoReconnect
  {
    NextHub(s, a);
    NextFlags(s, a);
    hide Next, HubMsgStep, ClientDataStep;
    if Taking(s, a) {
      TakeKeeps(s);
      hide HubNext;
    }
  }

  lemma {:induction false} LifeInEveryRun(autoReconnect: bool, actions: seq<Action>)
    ensures LifeInv(Run(autoReconnect, actions)) && Run(autoReconnect, actions).hub.autoReconnect == autoReconnect
    decreases |actions|
  {
    if actions != [] {
      hide Next, LifeInv;
      LifeInEveryRun(autoReconnect, actions[..|actions| - 1]);
      StepLife(Run(autoReconnect, actions[..|actions| - 1]), actions[|actions| - 1]);
    }
  }

  lemma {:induction false} StoppedForever(s: System, actions: seq<Action>)
    requires Stopping(s.hub.phase)
    ensures var h := RunFrom(s, actions).hub;
            Stopping(h.phase) && h == s.hub.(phase := h.phase) && (s.hub.phase.Disconnected? ==> h.phase.Disconnected?)
    decreases |actions|
  {
    if actions != [] {
      var mid := RunFrom(s, actions[..|actions| - 1]);
      NextHub(mid, actions[|actions| - 1]);
      hide Next, ClientDataStep, HubMsgStep, ConnectStep, NetworkStep, CommandStep;
      StoppedForever(s, actions[..|actions| - 1]);
    }
  }

  /**
   Once a disconnect command has been taken no later state is Connected or ToConnect, and the hub accepts, sends and
   delivers nothing more. With automatic reconnection a command is also the only way to stop.
   */
  lemma CommandIsFinal(autoReconnect: bool, before: seq<Action>, after: seq<Action>)
    ensures var s := Run(autoReconnect, before);
            && (s.commanded ==>
                  var h := RunFrom(s, after).hub; Stopping(h.phase) && h == s.hub.(phase := h.phase))
            && (autoReconnect ==> (Stopping(s.hub.phase) <==> s.commanded))
  {
    var s := Run(autoReconnect, before);
    LifeInEveryRun(autoReconnect, before);
    hide RunFrom, Run;
    if s.commanded {
      StoppedForever(s, after);
    }
  }

  /** Disconnected is absorbing, and the hub's whole state is frozen with it. */
  lemma DisconnectedIsAbsorbing(autoReconnect: bool, before: seq<Action>, after: seq<Action>)
    requires Run(autoReconnect, before).hub.phase.Disconnected?
    ensures RunFrom(Run(autoReconnect, before), after).hub == Run(autoReconnect, before).hub
  {
    StoppedForever(Run(autoReconnect, before), after);
  }

  /** Without automatic reconnection the hub is connected at most once: having left Connected it never tries again. */
  lemma NoReturnWithoutAutoReconnect(before: seq<Action>, after: seq<Action>)
    requires Run(false, before).wasConnected && !Run(false, before).hub.phase.Connected?
    ensures var phase := RunFrom(Run(false, before), after).hub.phase; phase.ToDisconnect? || phase.Disconnected?
  {
    LifeInEveryRun(false, before);
    hide Run;
    StaysDown(Run(false, before), after);
  }

  lemma {:induction false} StaysDown(s: System, actions: seq<Action>)
    requires !s.hub.autoReconnect && (s.hub.phase.ToDisconnect? || s.hub.phase.Disconnected?)
    ensures var h := RunFrom(s, actions).hub; !h.autoReconnect && (h.phase.ToDisconnect? || h.phase.Disconnected?)
    decreases |actions|
  {
    if actions != [] {
      var mid := RunFrom(s, actions[..|actions| - 1]);
      NextHub(mid, actions[|actions| - 1]);
      hide Next, ClientDataStep, HubMsgStep, ConnectStep, NetworkStep, CommandStep;
      StaysDown(s, actions[..|actions| - 1]);
    }
  }

  // ----- What the user is told -----

  /** What the hub hands out in one step. */
  function EffectsBy(s: System, a: Action): Effects<nat, nat> {
    match a
    case HubTakes =>
      if !s.hub.phase.Connected? || s.queue == [] then Nothing()
      else if s.queue[0].FromClient? then ClientDataStep(s.hub, ClientData(s.queue[0].request, |s.log|)).1
      else HubMsgStep(s.hub, s.queue[0].msg).1
    case HubCommand(command) =>
      if s.hub.phase.Connected? then CommandStep(s.hub, command).1
      else if s.hub.phase.ToConnect? then CommandWhileConnectingStep(s.hub, command).1
      else Nothing()
    case HubNetwork(event) => if s.hub.phase.Connected? then NetworkStep(s.hub, event).1 else Nothing()
    case HubConnects(event) => if s.hub.phase.ToConnect? then ConnectStep(s.hub, event).1 else Nothing()
    case HubCloses => if s.hub.phase.ToDisconnect? then DisconnectStep(s.hub).1 else Nothing()
    case _ => Nothing()
  }

  /**
   The user is told of a connection exactly when the hub becomes connected, and of its loss exactly when the hub leaves
   Connected other than by the user's own command.
   */
  lemma PhaseChangesAreTold(s: System, a: Action)
    ensures var was, now := s.hub.phase.Connected?, Next(s, a).hub.phase.Connected?;
            && (!was && now <==> exists b :: EffectsBy(s, a).notices == [SaidConnected(b)])
            && (was && !now && !a.HubCommand? <==> was && EffectsBy(s, a).notices == [SaidConnectedErr])
  {
    NextHub(s, a);
    hide Next, HubMsgStep, ClientDataStep;
    if a.HubConnects? && s.hub.phase.ToConnect? && a.event.NetConnected? {
      assert EffectsBy(s, a).notices == [SaidConnected(a.event.sessionPresent)];
    } else if Taking(s, a) {
      TakeKeeps(s);
      if s.queue[0].FromTask? {
        MessageKeeps(s.hub, s.queue[0].msg);
      } else {
        RequestKeeps<nat, nat>(s.hub, ClientData(s.queue[0].request, |s.log|));
      }
    }
  }
}
