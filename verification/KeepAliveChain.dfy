/**
 The keep-alive chain over every run: while the hub is connected something is always on its way that will either
 ping the broker or start the next timer, and no more than one timer token in flight is the latest.
 */
module KeepAliveChain {
  import opened Wire
  import opened HubSteps
  import opened Session
  import opened Projections

  function TokenOf(e: Event): seq<u32> {
    if e.FromTask? && e.msg.KeepAlive? then [e.msg.token] else []
  }

  function TokensIn(q: seq<Event>): seq<u32> {
    if q == [] then [] else TokenOf(q[0]) + TokensIn(q[1..])
  }

  ghost function Count(ts: seq<u32>, k: u32): nat {
    multiset(ts)[k]
  }

  /** How many timers with this token the hub has not seen yet: still sleeping, or queued. */
  ghost function Pending(s: System, k: u32): nat {
    Count(s.sleeping, k) + Count(TokensIn(s.queue), k)
  }

  predicate PingResult(e: Event) {
    e.FromTask? && (e.msg.PingSuccess? || e.msg.PingFail?)
  }

  ghost predicate Alive(s: System) {
    || Pending(s, s.hub.clock) > 0
    || (exists t :: t in s.tasks && s.tasks[t].Ping?)
    || (exists i :: 0 <= i < |s.queue| && PingResult(s.queue[i]))
  }

  ghost predicate ChainInv(s: System) {
    s.hub.phase.Connected? ==> Alive(s)
  }

  // ----- Timers -----

  function TimersBy(s: System, a: Action): seq<u32> {
    if Taking(s, a) && s.queue[0].FromTask? then HubMsgStep(s.hub, s.queue[0].msg).1.timers
    else if a.HubConnects? && s.hub.phase.ToConnect? then ConnectStep(s.hub, a.event).1.timers
    else []
  }

  lemma NextTimers(s: System, a: Action)
    ensures Next(s, a).tokens == s.tokens + |TimersBy(s, a)|
    ensures Next(s, a).sleeping == (if a.TimerFires? && a.index < |s.sleeping|
                                    then s.sleeping[..a.index] + s.sleeping[a.index + 1..]
                                    else s.sleeping + TimersBy(s, a))
  {
    hide Writes, Dies, Reads, Dispatches, PingStep, CommandStep, NetworkStep, DisconnectStep;
    hide TakeRequest, TakeRecover, TakePublish, TakeOther, HubMsgStep, Spawn, SendTasks;
    assert s.sleeping + [] == s.sleeping;
    if Taking(s, a) {
      TakingTimers(s);
    }
  }

  /** The timers a step adds to those asleep. */
  predicate Adds(s: System, s': System, timers: seq<u32>) {
    s'.sleeping == s.sleeping + timers && s'.tokens == s.tokens + |timers|
  }

  lemma TakingTimers(s: System)
    requires Taking(s, HubTakes)
    ensures Adds(s, Take(s), TimersBy(s, HubTakes))
  {
    var s0 := s.(queue := s.queue[1..]);
    hide TakeRequest, TakeRecover, TakePublish, TakeOther, HubMsgStep;
    if s.queue[0].FromTask? {
      HubMsgCases(s.hub, s.queue[0].msg);
      MessageTimers(s0, s.queue[0].msg, s.queue[0].tag);
    } else {
      RequestTimers(s0, s.queue[0].request);
    }
  }

  lemma RequestTimers(s: System, request: RequestKind)
    ensures Adds(s, TakeRequest(s, request), [])
  {
    hide Spawn, SendTasks;
    assert s.sleeping + [] == s.sleeping;
  }

  lemma MessageTimers(s: System, msg: HubMsg<nat>, tag: Tag)
    ensures msg.RecoverId? ==> Adds(s, TakeRecover(s, msg.id, tag), RecoverStep(s.hub, msg.id).1.timers)
    ensures msg.RxPublish? ==>
              Adds(s, TakePublish(s, msg.qos, msg.message), ReceiveStep(s.hub, msg.qos, msg.message).1.timers)
    ensures Adds(s, TakeOther(s, msg), HubMsgStep(s.hub, msg).1.timers)
  {
    hide RecoverStep, ReceiveStep, HubMsgStep, Spawn, SendTasks, Misses, LogRecover, Find;
  }

  predicate ClockMoves(h: Hub<nat, nat>, h': Hub<nat, nat>, timers: seq<u32>) {
    || (timers == [] && h'.clock == h.clock)
    || (timers == [Tick(h.clock)] && h'.clock == Tick(h.clock))
  }

  lemma RecoverClock(h: Hub<nat, nat>, id: u16)
    ensures ClockMoves(h, RecoverStep(h, id).0, RecoverStep(h, id).1.timers)
  {
    hide Find;
  }

  lemma MessageClock(h: Hub<nat, nat>, msg: HubMsg<nat>)
    ensures ClockMoves(h, HubMsgStep(h, msg).0, HubMsgStep(h, msg).1.timers)
  {
    hide RecoverStep;
    if msg.RecoverId? {
      RecoverClock(h, msg.id);
    }
  }

  /** Every step that moves the clock starts a timer with the new value, and no other step starts one. */
  lemma ClockAndTimer(s: System, a: Action)
    ensures ClockMoves(s.hub, Next(s, a).hub, TimersBy(s, a))
  {
    NextHub(s, a);
    hide Next, HubMsgStep;
    if Taking(s, a) && s.queue[0].FromTask? {
      MessageClock(s.hub, s.queue[0].msg);
    }
  }

  // ----- Pending tokens -----

  lemma {:induction false} TokensAppend(q: seq<Event>, e: Event)
    ensures TokensIn(q + [e]) == TokensIn(q) + TokenOf(e)
  {
    if q != [] {
      TokensAppend(q[1..], e);
      assert (q + [e])[1..] == q[1..] + [e];
    } else {
      assert TokensIn([e][1..]) == [];
    }
  }

  lemma CountJoin(a: seq<u32>, b: seq<u32>, k: u32)
    ensures Count(a + b, k) == Count(a, k) + Count(b, k)
  {
  }

  lemma RemoveOne(ts: seq<u32>, i: nat, k: u32)
    requires i < |ts|
    ensures Count(ts, k) == Count(ts[..i] + ts[i + 1..], k) + Count([ts[i]], k)
  {
    assert ts == ts[..i] + [ts[i]] + ts[i + 1..];
  }

  lemma PendingAppended(q: seq<Event>, es: seq<Event>, k: u32)
    requires |es| <= 1
    ensures Count(TokensIn(q + es), k) == Count(TokensIn(q), k) + if es == [] then 0 else Count(TokenOf(es[0]), k)
  {
    hide TokensIn, Count;
    if es == [] {
      assert q + [] == q;
    } else {
      assert es == [es[0]];
      TokensAppend(q, es[0]);
      CountJoin(TokensIn(q), TokenOf(es[0]), k);
    }
  }

  function TakenToken(s: System, a: Action): seq<u32> {
    if Taking(s, a) then TokenOf(s.queue[0]) else []
  }

  /** The tokens pending after a step: those before, less the one taken, plus the one started. */
  lemma NextPending(s: System, a: Action, k: u32)
    ensures Pending(Next(s, a), k) + Count(TakenToken(s, a), k) == Pending(s, k) + Count(TimersBy(s, a), k)
  {
    NextTimers(s, a);
    NextQueue(s, a);
    hide Next, Count;
    CountNone(k);
    if Taking(s, a) {
      hide TimersBy;
      CountJoin(TokenOf(s.queue[0]), TokensIn(s.queue[1..]), k);
      CountJoin(s.sleeping, TimersBy(s, a), k);
    } else {
      hide TokensIn;
      AppendedToken(s, a);
      PendingAppended(s.queue, Appended(s, a), k);
      if a.TimerFires? && a.index < |s.sleeping| {
        RemoveOne(s.sleeping, a.index, k);
      } else {
        CountJoin(s.sleeping, TimersBy(s, a), k);
      }
    }
  }

  lemma CountNone(k: u32)
    ensures Count([], k) == 0 && Count([k], k) == 1
  {
  }

  lemma AppendedToken(s: System, a: Action)
    ensures |Appended(s, a)| <= 1
    ensures a.TimerFires? && a.index < |s.sleeping| ==>
              Appended(s, a) != [] && TokenOf(Appended(s, a)[0]) == [s.sleeping[a.index]]
    ensures !(a.TimerFires? && a.index < |s.sleeping|) && Appended(s, a) != [] ==> TokenOf(Appended(s, a)[0]) == []
  {
  }

  // ----- The chain -----

  lemma StaysConnected(s: System, a: Action)
    requires TimersBy(s, a) == [] && Next(s, a).hub.phase.Connected?
    ensures s.hub.phase.Connected?
    ensures Taking(s, a) ==> !PingResult(s.queue[0])
  {
    NextHub(s, a);
    hide Next, RecoverStep, ReceiveStep;
  }

  /** The latest token, when taken, starts a ping. */
  lemma TokenTurn(s: System, a: Action)
    requires TimersBy(s, a) == [] && Pending(s, s.hub.clock) > 0
    ensures Alive(Next(s, a))
  {
    var s' := Next(s, a);
    NextPending(s, a, s.hub.clock);
    ClockAndTimer(s, a);
    NextTasks(s, a);
    CountNone(s.hub.clock);
    hide Next, TimersBy, Pending;
    if Pending(s', s.hub.clock) == 0 {
      assert Started(s, a) == [Ping(true, 3)];
      assert s'.tasks[s.nextTask] == Ping(true, 3);
    }
  }

  /** A ping task goes on, or ends with its report in the queue. */
  lemma PingTurn(s: System, a: Action, t: nat)
    requires Fresh(s) && t in s.tasks && s.tasks[t].Ping?
    ensures Alive(Next(s, a))
  {
    var s' := Next(s, a);
    NextTasks(s, a);
    NextQueue(s, a);
    hide Next, Pending, Started;
    if Moves(s, a) && a.task == t {
      if Moved(s, a).Some? {
        assert s'.tasks[t].Ping?;
      } else {
        assert PingResult(Appended(s, a)[0]);
        assert s'.queue[|s.queue|] == Appended(s, a)[0];
      }
    } else {
      assert s'.tasks[t].Ping?;
    }
  }

  lemma ReportTurn(s: System, a: Action, i: nat)
    requires i < |s.queue| && PingResult(s.queue[i]) && (Taking(s, a) ==> i > 0)
    ensures Alive(Next(s, a))
  {
    var s' := Next(s, a);
    NextQueue(s, a);
    hide Next, Pending, Appended;
    assert PingResult(s'.queue[if Taking(s, a) then i - 1 else i]);
  }

  lemma StepChain(s: System, a: Action)
    requires Fresh(s) && ChainInv(s)
    ensures ChainInv(Next(s, a))
  {
    var s' := Next(s, a);
    hide Next, TimersBy, Pending, TokensIn, Fresh;
    if s'.hub.phase.Connected? {
      if TimersBy(s, a) != [] {
        ClockAndTimer(s, a);
        NextPending(s, a, s'.hub.clock);
        CountNone(s'.hub.clock);
        TakesNoTimer(s, a);
      } else {
        StaysConnected(s, a);
        if Pending(s, s.hub.clock) > 0 {
          TokenTurn(s, a);
        } else if t :| t in s.tasks && s.tasks[t].Ping? {
          PingTurn(s, a, t);
        } else {
          var i :| 0 <= i < |s.queue| && PingResult(s.queue[i]);
          ReportTurn(s, a, i);
        }
      }
    }
  }

  lemma TakesNoTimer(s: System, a: Action)
    requires TimersBy(s, a) != []
    ensures TakenToken(s, a) == []
  {
  }

  /** The chain never breaks: through resets on completed requests, stale tokens, ping results and reconnections. */
  lemma {:induction false} ChainNeverBreaks(autoReconnect: bool, actions: seq<Action>)
    ensures ChainInv(Run(autoReconnect, actions))
    decreases |actions|
  {
    if actions != [] {
      hide Next, ChainInv, Fresh;
      ChainNeverBreaks(autoReconnect, actions[..|actions| - 1]);
      FreshInEveryRun(autoReconnect, actions[..|actions| - 1]);
      StepChain(Run(autoReconnect, actions[..|actions| - 1]), actions[|actions| - 1]);
    }
  }

  // ----- At most one latest token -----

  /** Tokens are issued 1, 2, 3, ... until the counter wraps. */
  ghost predicate TokensInv(s: System) {
    s.tokens < CLOCK_RANGE ==>
      s.hub.clock == s.tokens && forall k: u32 :: Pending(s, k) <= if 1 <= k <= s.tokens then 1 else 0
  }

  lemma StepTokens(s: System, a: Action)
    requires TokensInv(s)
    ensures TokensInv(Next(s, a))
  {
    var s' := Next(s, a);
    NextTimers(s, a);
    ClockAndTimer(s, a);
    hide Next, TimersBy, Pending, Count;
    if s'.tokens < CLOCK_RANGE {
      assert s.tokens < CLOCK_RANGE;
      forall k: u32 ensures Pending(s', k) <= if 1 <= k <= s'.tokens then 1 else 0 {
        NextPending(s, a, k);
        CountOne(TimersBy(s, a), k);
      }
    }
  }

  lemma CountOne(ts: seq<u32>, k: u32)
    requires |ts| <= 1
    ensures Count(ts, k) == if |ts| == 1 && ts[0] == k then 1 else 0
  {
    assert ts == [] || ts == [ts[0]];
  }

  /** Of the first 2^32 - 1 timers no two in flight carry the same token, so at most one is the latest. */
  lemma {:induction false} OneLatest(autoReconnect: bool, actions: seq<Action>)
    ensures TokensInv(Run(autoReconnect, actions))
    ensures var s := Run(autoReconnect, actions);
            s.tokens < CLOCK_RANGE ==> Pending(s, s.hub.clock) <= 1
    decreases |actions|
  {
    if actions == [] {
      assert TokensIn([]) == [];
      assert TokensInv(Init(autoReconnect));
    } else {
      hide Next, TokensInv, Pending;
      OneLatest(autoReconnect, actions[..|actions| - 1]);
      StepTokens(Run(autoReconnect, actions[..|actions| - 1]), actions[|actions| - 1]);
    }
    LatestOnce(Run(autoReconnect, actions));
  }

  lemma LatestOnce(s: System)
    requires TokensInv(s)
    ensures s.tokens < CLOCK_RANGE ==> Pending(s, s.hub.clock) <= 1
  {
  }

  /** What restarts the keep-alive period: a completed request, a ping that was answered, a new connection. */
  predicate Resets(s: System, a: Action) {
    if Taking(s, a) then
      match s.queue[0]
      case FromClient(_) => false
      case FromTask(RecoverId(id), _) =>
        var i := Find(s.hub.clientData, id);
        i < |s.hub.clientData| && Acknowledge(s.hub.clientData[i]).None?
      case FromTask(msg, _) => msg.PingSuccess?
    else a.HubConnects? && s.hub.phase.ToConnect? && a.event.NetConnected?
  }

  lemma TimersExactlyOnReset(s: System, a: Action)
    ensures TimersBy(s, a) == if Resets(s, a) then [Tick(s.hub.clock)] else []
  {
    hide Find;
  }

  /**
   A reset outdates every timer in flight: afterwards exactly one carries the latest token, and none before did. It is
   also the only way for a timer to start.
   */
  lemma ResetOutdatesTheRest(autoReconnect: bool, actions: seq<Action>, a: Action)
    requires Run(autoReconnect, actions).tokens + 1 < CLOCK_RANGE
    ensures var s := Run(autoReconnect, actions);
            var s' := Next(s, a);
            if Resets(s, a) then Pending(s, s'.hub.clock) == 0 && Pending(s', s'.hub.clock) == 1
            else s'.hub.clock == s.hub.clock && s'.tokens == s.tokens
  {
    var s := Run(autoReconnect, actions);
    OneLatest(autoReconnect, actions);
    TimersExactlyOnReset(s, a);
    ClockAndTimer(s, a);
    NextTimers(s, a);
    hide Run, Next, Resets, TimersBy, Pending;
    var k := Next(s, a).hub.clock;
    NextPending(s, a, k);
    CountOne(TimersBy(s, a), k);
    if TimersBy(s, a) != [] {
      TakesNoTimer(s, a);
      CountNone(k);
    }
  }

  /** A token that is no longer the latest is dropped without a trace. */
  lemma StaleTokenIgnored(s: System)
    requires Taking(s, HubTakes) && s.queue[0].FromTask? && s.queue[0].msg.KeepAlive?
    requires s.queue[0].msg.token != s.hub.clock
    ensures Next(s, HubTakes) == s.(queue := s.queue[1..])
  {
    var none := Nothing<nat, nat>();
    assert HubMsgStep(s.hub, s.queue[0].msg) == (s.hub, none);
    hide HubMsgStep;
    NothingAbsorbed(s.(queue := s.queue[1..]));
    hide Absorb;
  }

  lemma NothingAbsorbed(s: System)
    ensures Absorb(s, s.hub, Nothing(), []) == s
  {
    assert s.delivered + [] == s.delivered && s.sleeping + [] == s.sleeping;
    assert SendTasks([], |s.acks|) + [] == [];
  }
}
