/**
 The keep-alive counter beyond its first wrap: timers are numbered as they are started, and a token is its timer's number
 modulo 2^32. As long as no timer sleeps through 2^32 others, at most one in flight carries the latest token.
 */
module TokenAges {
  import opened Wire
  import opened HubSteps
  import opened Session
  import opened Projections
  import opened KeepAliveChain

  /** The numbers of the timers asleep, and of those whose token is queued, in the order of the state. */
  ghost function Numbers(autoReconnect: bool, actions: seq<Action>): (seq<nat>, seq<nat>)
    decreases |actions|
  {
    if actions == [] then ([], [])
    else
      var init, a := actions[..|actions| - 1], actions[|actions| - 1];
      NumbersNext(Run(autoReconnect, init), a, Numbers(autoReconnect, init).0, Numbers(autoReconnect, init).1)
  }

  ghost function NumbersNext(s: System, a: Action, asleep: seq<nat>, queued: seq<nat>): (seq<nat>, seq<nat>) {
    if a.TimerFires? && a.index < |s.sleeping| && a.index < |asleep| then
      (asleep[..a.index] + asleep[a.index + 1..], queued + [asleep[a.index]])
    else if TakenToken(s, a) != [] && queued != [] then (asleep, queued[1..])
    else if TimersBy(s, a) != [] then (asleep + [s.tokens + 1], queued)
    else (asleep, queued)
  }

  /** Each token is its timer's number as the 32-bit counter shows it. */
  ghost predicate Carries(tokens: seq<u32>, numbers: seq<nat>) {
    |tokens| == |numbers| && forall i :: 0 <= i < |tokens| ==> tokens[i] == numbers[i] % CLOCK_RANGE
  }

  ghost function Times(numbers: seq<nat>, n: nat): nat {
    multiset(numbers)[n]
  }

  ghost predicate Numbered(s: System, asleep: seq<nat>, queued: seq<nat>) {
    && Carries(s.sleeping, asleep) && Carries(TokensIn(s.queue), queued)
    && s.hub.clock == s.tokens % CLOCK_RANGE
    && forall n: nat :: Times(asleep, n) + Times(queued, n) <= if 1 <= n <= s.tokens then 1 else 0
  }

  lemma TimesJoin(a: seq<nat>, b: seq<nat>, n: nat)
    ensures Times(a + b, n) == Times(a, n) + Times(b, n)
  {
  }

  lemma TimesOne(m: nat, n: nat)
    ensures Times([m], n) == if m == n then 1 else 0
  {
  }

  lemma TimesWithout(numbers: seq<nat>, i: nat, n: nat)
    requires i < |numbers|
    ensures Times(numbers, n) == Times(numbers[..i] + numbers[i + 1..], n) + Times([numbers[i]], n)
  {
    assert numbers == numbers[..i] + [numbers[i]] + numbers[i + 1..];
  }

  // ----- One step -----

  lemma FiresNumbered(s: System, s': System, i: nat, asleep: seq<nat>, queued: seq<nat>)
    requires Numbered(s, asleep, queued) && i < |s.sleeping|
    requires s'.sleeping == s.sleeping[..i] + s.sleeping[i + 1..]
    requires TokensIn(s'.queue) == TokensIn(s.queue) + [s.sleeping[i]]
    requires s'.tokens == s.tokens && s'.hub.clock == s.hub.clock
    ensures Numbered(s', asleep[..i] + asleep[i + 1..], queued + [asleep[i]])
  {
    hide TokensIn, Times;
    forall n: nat
      ensures Times(asleep[..i] + asleep[i + 1..], n) + Times(queued + [asleep[i]], n)
              <= if 1 <= n <= s'.tokens then 1 else 0
    {
      TimesWithout(asleep, i, n);
      TimesJoin(queued, [asleep[i]], n);
    }
  }

  lemma TakenNumbered(s: System, s': System, asleep: seq<nat>, queued: seq<nat>)
    requires Numbered(s, asleep, queued) && s'.sleeping == s.sleeping && queued != []
    requires TokensIn(s'.queue) == TokensIn(s.queue)[1..]
    requires s'.tokens == s.tokens && s'.hub.clock == s.hub.clock
    ensures Numbered(s', asleep, queued[1..])
  {
    hide TokensIn, Times;
    forall n: nat ensures Times(asleep, n) + Times(queued[1..], n) <= if 1 <= n <= s'.tokens then 1 else 0 {
      TimesWithout(queued, 0, n);
      assert queued[..0] + queued[1..] == queued[1..];
    }
  }

  lemma StartedNumbered(s: System, s': System, asleep: seq<nat>, queued: seq<nat>)
    requires Numbered(s, asleep, queued)
    requires s'.sleeping == s.sleeping + [Tick(s.hub.clock)] && TokensIn(s'.queue) == TokensIn(s.queue)
    requires s'.tokens == s.tokens + 1 && s'.hub.clock == Tick(s.hub.clock)
    ensures Numbered(s', asleep + [s.tokens + 1], queued)
  {
    hide TokensIn, Times;
    assert Tick(s.hub.clock) == (s.tokens + 1) % CLOCK_RANGE;
    forall n: nat
      ensures Times(asleep + [s.tokens + 1], n) + Times(queued, n) <= if 1 <= n <= s'.tokens then 1 else 0
    {
      TimesJoin(asleep, [s.tokens + 1], n);
      TimesOne(s.tokens + 1, n);
    }
  }

  lemma TokensNext(s: System, a: Action)
    ensures var q, q' := TokensIn(s.queue), TokensIn(Next(s, a).queue);
            if a.TimerFires? && a.index < |s.sleeping| then q' == q + [s.sleeping[a.index]]
            else if TakenToken(s, a) != [] then q != [] && q' == q[1..]
            else q' == q
  {
    NextQueue(s, a);
    AppendedToken(s, a);
    hide Next;
    if Taking(s, a) {
      assert TokensIn(s.queue) == TokenOf(s.queue[0]) + TokensIn(s.queue[1..]);
    } else {
      hide TokensIn;
      if Appended(s, a) == [] {
        assert s.queue + [] == s.queue;
      } else {
        TokensAppend(s.queue, Appended(s, a)[0]);
        assert Appended(s, a) == [Appended(s, a)[0]];
        assert TokensIn(s.queue) + [] == TokensIn(s.queue);
      }
    }
  }

  lemma StepNumbered(s: System, a: Action, asleep: seq<nat>, queued: seq<nat>)
    requires Numbered(s, asleep, queued)
    ensures Numbered(Next(s, a), NumbersNext(s, a, asleep, queued).0, NumbersNext(s, a, asleep, queued).1)
  {
    var s' := Next(s, a);
    NextTimers(s, a);
    ClockAndTimer(s, a);
    TokensNext(s, a);
    TakenOrStarted(s, a);
    hide Next, TokensIn, TimersBy, TakenToken, Times;
    if a.TimerFires? && a.index < |s.sleeping| {
      FiresNumbered(s, s', a.index, asleep, queued);
    } else if TakenToken(s, a) != [] {
      assert s.sleeping + [] == s.sleeping;
      TakenNumbered(s, s', asleep, queued);
    } else if TimersBy(s, a) != [] {
      StartedNumbered(s, s', asleep, queued);
    } else {
      assert s.sleeping + [] == s.sleeping;
    }
  }

  lemma TakenOrStarted(s: System, a: Action)
    ensures TimersBy(s, a) != [] ==> TakenToken(s, a) == [] && !a.TimerFires?
  {
    if TimersBy(s, a) != [] {
      TakesNoTimer(s, a);
    }
  }

  lemma {:induction false} NumberedInEveryRun(autoReconnect: bool, actions: seq<Action>)
    ensures var (asleep, queued) := Numbers(autoReconnect, actions);
            Numbered(Run(autoReconnect, actions), asleep, queued)
    decreases |actions|
  {
    if actions == [] {
      assert TokensIn([]) == [];
    } else {
      hide Next, Numbered, NumbersNext;
      var init := actions[..|actions| - 1];
      NumberedInEveryRun(autoReconnect, init);
      var (asleep, queued) := Numbers(autoReconnect, init);
      StepNumbered(Run(autoReconnect, init), actions[|actions| - 1], asleep, queued);
    }
  }

  // ----- At most one latest token, by age -----

  /** Every timer in flight was started within the last 2^32 - 1 starts before the newest. */
  ghost predicate Recent(s: System, numbers: seq<nat>) {
    forall i :: 0 <= i < |numbers| ==> s.tokens < numbers[i] + CLOCK_RANGE
  }

  lemma {:induction false} AtMostOne(tokens: seq<u32>, k: u32)
    requires forall i, j :: 0 <= i < j < |tokens| ==> !(tokens[i] == k && tokens[j] == k)
    ensures Count(tokens, k) <= 1
    decreases |tokens|
  {
    if tokens != [] {
      var tail := tokens[1..];
      assert tokens == [tokens[0]] + tail;
      assert forall i :: 0 <= i < |tail| ==> tail[i] == tokens[i + 1];
      AtMostOne(tail, k);
      if tokens[0] == k {
        NoneThere(tail, k);
      }
    }
  }

  lemma NoneThere(tokens: seq<u32>, k: u32)
    requires forall i :: 0 <= i < |tokens| ==> tokens[i] != k
    ensures Count(tokens, k) == 0
  {
  }

  lemma SameNumberTwice(numbers: seq<nat>, i: nat, j: nat)
    requires i < j < |numbers| && numbers[i] == numbers[j]
    ensures Times(numbers, numbers[i]) >= 2
  {
    var a, b := numbers[..j], numbers[j..];
    assert numbers == a + b && a[i] == numbers[i] && b[0] == numbers[j];
    assert numbers[i] in a && numbers[i] in b;
  }

  lemma LatestIsNewest(tokens: nat, n: nat)
    requires n <= tokens < n + CLOCK_RANGE && n % CLOCK_RANGE == tokens % CLOCK_RANGE
    ensures n == tokens
  {
  }

  /** Over every run, past any number of wraps. */
  lemma OneLatestByAge(autoReconnect: bool, actions: seq<Action>)
    requires var (asleep, queued) := Numbers(autoReconnect, actions); Recent(Run(autoReconnect, actions), asleep + queued)
    ensures var s := Run(autoReconnect, actions); Pending(s, s.hub.clock) <= 1
  {
    NumberedInEveryRun(autoReconnect, actions);
    hide Run, Numbers;
    var (asleep, queued) := Numbers(autoReconnect, actions);
    LatestOnceByAge(Run(autoReconnect, actions), asleep, queued);
  }

  lemma LatestOnceByAge(s: System, asleep: seq<nat>, queued: seq<nat>)
    requires Numbered(s, asleep, queued) && Recent(s, asleep + queued)
    ensures Pending(s, s.hub.clock) <= 1
  {
    hide TokensIn, Count, Times;
    var tokens, numbers := s.sleeping + TokensIn(s.queue), asleep + queued;
    assert Carries(tokens, numbers);
    forall i, j | 0 <= i < j < |tokens| ensures !(tokens[i] == s.hub.clock && tokens[j] == s.hub.clock) {
      if tokens[i] == s.hub.clock && tokens[j] == s.hub.clock {
        AreNewest(s, numbers, asleep, queued, i);
        AreNewest(s, numbers, asleep, queued, j);
        SameNumberTwice(numbers, i, j);
        TimesJoin(asleep, queued, numbers[i]);
      }
    }
    AtMostOne(tokens, s.hub.clock);
    CountJoin(s.sleeping, TokensIn(s.queue), s.hub.clock);
  }

  lemma AreNewest(s: System, numbers: seq<nat>, asleep: seq<nat>, queued: seq<nat>, i: nat)
    requires Numbered(s, asleep, queued) && Recent(s, numbers) && numbers == asleep + queued
    requires i < |numbers| && numbers[i] % CLOCK_RANGE == s.hub.clock
    ensures numbers[i] == s.tokens
  {
    hide Carries;
    TimesJoin(asleep, queued, numbers[i]);
    assert numbers[i] in numbers;
    assert Times(numbers, numbers[i]) >= 1;
    LatestIsNewest(s.tokens, numbers[i]);
  }
}
