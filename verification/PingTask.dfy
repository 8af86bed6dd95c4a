/** `TaskPing::run`: two loops over one retry budget. */
module PingTask {
  import opened Wire
  import opened HubSteps
  import opened Session
  import opened Projections

  /** What the ping task of module Session reports over these outcomes, one for each attempt. */
  function Reports(t: Option<Task>, oks: seq<bool>): seq<Event>
    decreases |oks|
  {
    if t.None? || oks == [] then []
    else PingReport(t.value, oks[0]) + Reports(PingedOf(t.value, oks[0]), oks[1..])
  }

  const FAIL := FromTask(PingFail, NoTag)
  const SUCCESS := FromTask(PingSuccess, NoTag)

  /** What n attempts show: the first success among them, or n. */
  function FirstOk(oks: seq<bool>, n: nat): (k: nat)
    requires n <= |oks|
    ensures k <= n && (forall j :: 0 <= j < k ==> !oks[j]) && (k < n ==> oks[k])
  {
    if n == 0 || oks[0] then 0 else 1 + FirstOk(oks[1..], n - 1)
  }

  lemma SendTurn(budget: nat, oks: seq<bool>)
    requires 0 < budget && oks != []
    ensures Reports(Some(Ping(true, budget)), oks)
            == if oks[0] then Reports(Some(Ping(false, budget)), oks[1..])
               else if budget == 1 then [FAIL] + Reports(Some(Ping(false, 0)), oks[1..])
               else Reports(Some(Ping(true, budget - 1)), oks[1..])
  {
    var t := Ping(true, budget);
    assert Reports(Some(t), oks) == PingReport(t, oks[0]) + Reports(PingedOf(t, oks[0]), oks[1..]);
    hide Reports;
  }

  lemma ReplyTurn(budget: nat, oks: seq<bool>)
    requires oks != []
    ensures Reports(Some(Ping(false, budget)), oks)
            == if budget == 0 then [FAIL]
               else if oks[0] then [SUCCESS]
               else Reports(Some(Ping(false, budget - 1)), oks[1..])
  {
    var t := Ping(false, budget);
    assert Reports(Some(t), oks) == PingReport(t, oks[0]) + Reports(PingedOf(t, oks[0]), oks[1..]);
    assert Reports(None, oks[1..]) == [];
    hide Reports;
  }

  lemma FirstOkTurn(oks: seq<bool>, n: nat)
    requires 0 < n <= |oks|
    ensures FirstOk(oks, n) == if oks[0] then 0 else 1 + FirstOk(oks[1..], n - 1)
  {
  }

  /** The loops of the source, dispatching into a list; they agree with the task of module Session turn by turn. */
  method Run(oks: seq<bool>) returns (dispatched: seq<Event>)
    requires |oks| >= 5
    ensures dispatched == Reports(Some(Ping(true, 3)), oks)
  {
    hide FirstOk, Reports;
    dispatched := [];
    var budget, i := 3, 0;
    ghost var all := Reports(Some(Ping(true, 3)), oks);
    assert oks[0..] == oks;
    while budget > 0
      invariant 0 <= budget <= 3 && i == 3 - budget
      invariant all == dispatched + Reports(Some(Ping(budget > 0, budget)), oks[i..])
      decreases budget
    {
      SendTurn(budget, oks[i..]);
      var ok := oks[i];
      assert oks[i..][1..] == oks[i + 1..];
      i := i + 1;
      if ok {
        break;
      }
      budget := budget - 1;
      if budget <= 0 {
        dispatched := dispatched + [FAIL];
      }
    }
    while budget > 0
      invariant 0 <= budget <= 3 && i + budget <= 4
      invariant all == dispatched + Reports(Some(Ping(false, budget)), oks[i..])
      decreases budget
    {
      ReplyTurn(budget, oks[i..]);
      var ok := oks[i];
      assert oks[i..][1..] == oks[i + 1..];
      i := i + 1;
      if ok {
        dispatched := dispatched + [SUCCESS];
        return;
      }
      budget := budget - 1;
    }
    ReplyTurn(0, oks[i..]);
    dispatched := dispatched + [FAIL];
  }

  lemma {:induction false} RepliesReport(budget: nat, oks: seq<bool>)
    requires |oks| > budget
    ensures Reports(Some(Ping(false, budget)), oks) == if FirstOk(oks, budget) < budget then [SUCCESS] else [FAIL]
    decreases budget
  {
    if budget > 0 && !oks[0] {
      RepliesReport(budget - 1, oks[1..]);
    }
  }

  /** What a budget of attempts leads to. */
  function Verdict(budget: nat, oks: seq<bool>): seq<Event>
    requires |oks| > budget
  {
    var k := FirstOk(oks, budget);
    if k == budget then [FAIL, FAIL]
    else if FirstOk(oks[k + 1..], budget - k) < budget - k then [SUCCESS]
    else [FAIL]
  }

  lemma VerdictTurn(budget: nat, oks: seq<bool>)
    requires 1 < budget < |oks| && !oks[0]
    ensures Verdict(budget, oks) == Verdict(budget - 1, oks[1..])
  {
    FirstOkTurn(oks, budget);
    hide FirstOk;
    var k := FirstOk(oks[1..], budget - 1);
    assert oks[1..][k + 1..] == oks[k + 2..];
  }

  lemma VerdictAtOnce(budget: nat, oks: seq<bool>)
    requires 0 < budget < |oks|
    ensures oks[0] ==> Verdict(budget, oks) == if FirstOk(oks[1..], budget) < budget then [SUCCESS] else [FAIL]
    ensures !oks[0] && budget == 1 ==> Verdict(budget, oks) == [FAIL, FAIL]
  {
    FirstOkTurn(oks, budget);
    hide FirstOk;
  }

  lemma {:induction false} SendsReport(budget: nat, oks: seq<bool>)
    requires 0 < budget && |oks| > budget + 1
    ensures Reports(Some(Ping(true, budget)), oks) == Verdict(budget, oks)
    decreases budget
  {
    hide Reports, FirstOk, Verdict;
    SendTurn(budget, oks);
    VerdictAtOnce(budget, oks);
    if oks[0] {
      RepliesReport(budget, oks[1..]);
    } else if budget == 1 {
      ReplyTurn(0, oks[1..]);
    } else {
      SendsReport(budget - 1, oks[1..]);
      VerdictTurn(budget, oks);
    }
  }

  /**
   The outcome of the three attempts: success as soon as a response follows a send within the budget that is left;
   one failure if none does; and the failure reported twice if all three were spent on sending.
   */
  lemma PingOutcome(oks: seq<bool>)
    requires |oks| >= 5
    ensures var k := FirstOk(oks, 3);
            Reports(Some(Ping(true, 3)), oks)
            == if k == 3 then [FAIL, FAIL]
               else if exists j :: k < j <= 3 && oks[j] then [SUCCESS]
               else [FAIL]
  {
    hide Reports, FirstOk;
    var k := FirstOk(oks, 3);
    SendsReport(3, oks);
    if k < 3 {
      var rest := oks[k + 1..];
      var m := FirstOk(rest, 3 - k);
      if m < 3 - k {
        assert oks[k + 1 + m] == rest[m];
      } else {
        forall j | k < j <= 3 ensures !oks[j] {
          assert oks[j] == rest[j - k - 1];
        }
      }
    }
  }
}
