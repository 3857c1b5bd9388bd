/**
 * Verification failures, strikes and cooldowns of proxy nodes: what the pruned online records answer
 * is what the full history of each node says. Times are whole seconds of a clock that never goes back.
 */
module NodeVerification {
  import opened Util

  type NodeId = string
  type AccountId = string
  type Time = nat

  const WINDOW: nat := 600
  const FIRST_COOLDOWN: nat := 600
  const REPEAT_COOLDOWN: nat := 1800
  const STRIKE_TTL: nat := 86400
  const FAILURE_COOLDOWN: nat := 90

  // ---- the full history -----------------------------------------------------------------------------

  datatype Incident = Failed(account: AccountId, at: Time) | Succeeded(at: Time)

  /** The last strike since the last success; a strike is a failure that was answered with a cooldown. */
  function LastStrike(h: seq<Incident>): Option<Time>
    decreases |h|, 0
  {
    if h == [] then None
    else
      var past, last := h[..|h| - 1], h[|h| - 1];
      if last.Succeeded? then None
      else if Answer(past, last.account, last.at) > 0 then Some(last.at) else LastStrike(past)
  }

  /** The accounts that failed within the window before `now` and since the last strike or success. */
  function Recent(h: seq<Incident>, now: Time): set<AccountId>
    decreases |h|, 0
  {
    if h == [] then {}
    else
      var past, last := h[..|h| - 1], h[|h| - 1];
      if last.Succeeded? || Answer(past, last.account, last.at) > 0 then {}
      else Recent(past, now) + (if now - last.at <= WINDOW then {last.account} else {})
  }

  /** The cooldown that history `h` calls for when `account` fails now; none is 0. */
  function Answer(h: seq<Incident>, account: AccountId, now: Time): nat
    decreases |h|, 1
  {
    var strike := LastStrike(h);
    if strike.Some? && now - strike.value <= STRIKE_TTL then REPEAT_COOLDOWN
    else if |Recent(h, now) + {account}| >= 2 then FIRST_COOLDOWN
    else 0
  }

  predicate IsStrike(h: seq<Incident>, k: nat)
    requires k < |h|
  {
    h[k].Failed? && Answer(h[..k], h[k].account, h[k].at) > 0
  }

  /** From position `i` on there is neither a success nor a strike. */
  ghost predicate Quiet(h: seq<Incident>, i: nat) { forall k :: i <= k < |h| ==> h[k].Failed? && !IsStrike(h, k) }

  ghost predicate FailedSince(h: seq<Incident>, i: nat, now: Time, a: AccountId)
  {
    i < |h| && h[i].Failed? && h[i].account == a && now - h[i].at <= WINDOW && Quiet(h, i)
  }

  lemma QuietExtends(h: seq<Incident>, i: nat)
    requires i < |h|
    ensures Quiet(h, i) <==> Quiet(h[..|h| - 1], i) && Quiet(h, |h| - 1)
  {
    var past, n := h[..|h| - 1], |h| - 1;
    assert forall k :: 0 <= k < n ==> past[k] == h[k] && past[..k] == h[..k];
    assert forall k :: 0 <= k < n ==> (IsStrike(past, k) <==> IsStrike(h, k));
  }

  lemma QuietAtTheEnd(h: seq<Incident>)
    requires h != []
    ensures Quiet(h, |h| - 1) <==>
      h[|h| - 1].Failed? && Answer(h[..|h| - 1], h[|h| - 1].account, h[|h| - 1].at) == 0
  {
    assert Quiet(h, |h| - 1) <==> h[|h| - 1].Failed? && !IsStrike(h, |h| - 1);
  }

  lemma RecentAtTheEnd(h: seq<Incident>, now: Time, a: AccountId)
    requires h != []
    ensures a in Recent(h, now) <==>
      Quiet(h, |h| - 1) && (a in Recent(h[..|h| - 1], now) || FailedSince(h, |h| - 1, now, a))
  {
    QuietAtTheEnd(h);
  }

  lemma FailedSinceExtends(h: seq<Incident>, i: nat, now: Time, a: AccountId)
    requires i < |h| - 1
    ensures FailedSince(h, i, now, a) <==> FailedSince(h[..|h| - 1], i, now, a) && Quiet(h, |h| - 1)
  {
    QuietExtends(h, i);
  }

  /** The recent accounts are those with a failure in the window that no strike or success has followed. */
  lemma {:induction false} RecentMeans(h: seq<Incident>, now: Time, a: AccountId)
    ensures a in Recent(h, now) <==> exists i: nat :: FailedSince(h, i, now, a)
    decreases |h|
  {
    if h != [] {
      RecentMeans(h[..|h| - 1], now, a);
      RecentAtTheEnd(h, now, a);
      var past := h[..|h| - 1];
      if a in Recent(past, now) && Quiet(h, |h| - 1) {
        var i: nat :| FailedSince(past, i, now, a);
        FailedSinceExtends(h, i, now, a);
      }
      if i: nat :| FailedSince(h, i, now, a) && i < |h| - 1 {
        FailedSinceExtends(h, i, now, a);
      }
    }
  }

  /** The standing strike is the latest one that no success has followed. */
  lemma {:induction false} LastStrikeMeans(h: seq<Incident>, at: Time)
    ensures LastStrike(h) == Some(at) <==>
      exists i {:trigger h[i]} :: 0 <= i < |h| && IsStrike(h, i) && h[i].at == at
        && forall k :: i < k < |h| ==> h[k].Failed? && !IsStrike(h, k)
    decreases |h|
  {
    if h != [] {
      var past, n := h[..|h| - 1], |h| - 1;
      LastStrikeMeans(past, at);
      assert forall k :: 0 <= k < n ==> past[k] == h[k] && past[..k] == h[..k];
      assert forall k :: 0 <= k < n ==> (IsStrike(past, k) <==> IsStrike(h, k));
    }
  }

  // ---- the online records ---------------------------------------------------------------------------------

  datatype Strike = Strike(count: nat, at: Time)

  datatype Cooldown = Cooldown(deadline: Time, reason: string)

  /** A measured delay, or none after a failure, and when it was noted. */
  datatype Delay = Delay(delay: Option<nat>, checkedAt: Time)

  datatype Records = Records(
    failures: map<NodeId, map<AccountId, Time>>, strikes: map<NodeId, Strike>,
    cooldowns: map<NodeId, Cooldown>, delays: map<NodeId, Delay>, lastGood: map<NodeId, nat>)

  function Failures(r: Records, n: NodeId): map<AccountId, Time> { if n in r.failures then r.failures[n] else map[] }

  function WithinWindow(failures: map<AccountId, Time>, now: Time): map<AccountId, Time>
  {
    map a | a in failures && now - failures[a] <= WINDOW :: failures[a]
  }

  /** A later deadline replaces an earlier one, never the other way round. */
  function MarkUnavailable(r: Records, n: NodeId, seconds: int, reason: string, now: Time): Records
  {
    if n == "" then r
    else
      var deadline := now + Max(1, seconds);
      var earlier := if n in r.cooldowns then r.cooldowns[n].deadline else 0;
      r.(delays := r.delays[n := Delay(None, now)],
         cooldowns :=
           if deadline >= earlier then r.cooldowns[n := Cooldown(deadline, Clip(reason, 80))] else r.cooldowns)
  }

  function LiveStrikes(r: Records, n: NodeId, now: Time): nat
  {
    if n !in r.strikes || now - r.strikes[n].at > STRIKE_TTL then 0 else r.strikes[n].count
  }

  /** A further strike: the failures are spent and the node cools down. */
  function StrikeOut(r: Records, n: NodeId, now: Time): (Records, nat)
  {
    var live := LiveStrikes(r, n, now);
    var cooldown := if live == 0 then FIRST_COOLDOWN else REPEAT_COOLDOWN;
    var struck := r.(strikes := r.strikes[n := Strike(live + 1, now)], failures := r.failures - {n});
    (MarkUnavailable(struck, n, cooldown, "doubao_verification_required", now), cooldown)
  }

  /** `record_node_doubao_verification`. */
  function RecordFailure(r: Records, n: NodeId, account: AccountId, now: Time): (Records, nat)
  {
    if n == "" || account == "" then (r, 0)
    else
      var recent := WithinWindow(Failures(r, n), now)[account := now];
      if LiveStrikes(r, n, now) == 0 && |recent| < 2 then (r.(failures := r.failures[n := recent]), 0)
      else StrikeOut(r, n, now)
  }

  /** `record_node_doubao_success`. */
  function RecordSuccess(r: Records, n: NodeId, now: Time): Records
  {
    if n == "" then r
    else
      r.(failures := r.failures - {n}, strikes := r.strikes - {n}, cooldowns := r.cooldowns - {n},
         delays := if n in r.lastGood then r.delays[n := Delay(Some(r.lastGood[n]), now)] else r.delays - {n})
  }

  /** `node_retry_after`: an expired cooldown is forgotten on the way. */
  function RetryAfter(r: Records, n: NodeId, now: Time): (Records, int)
  {
    if n == "" then (r, 0)
    else if n in r.cooldowns && r.cooldowns[n].deadline > now then (r, Max(1, r.cooldowns[n].deadline - now))
    else
      var rest := r.(cooldowns := r.cooldowns - {n});
      if n in r.delays && r.delays[n].delay.None? && r.delays[n].checkedAt > 0
      then (rest, Max(0, FAILURE_COOLDOWN - (now - r.delays[n].checkedAt)))
      else (rest, 0)
  }

  // ---- runs -----------------------------------------------------------------------------------------------------

  datatype Call =
    | Fail(node: NodeId, account: AccountId, at: Time)
    | Succeed(node: NodeId, at: Time)
    | Mark(node: NodeId, seconds: int, reason: string, at: Time)
    | Query(node: NodeId, at: Time)

  function Step(r: Records, c: Call): Records
  {
    match c
    case Fail(n, account, at) => RecordFailure(r, n, account, at).0
    case Succeed(n, at) => RecordSuccess(r, n, at)
    case Mark(n, seconds, reason, at) => MarkUnavailable(r, n, seconds, reason, at)
    case Query(n, at) => RetryAfter(r, n, at).0
  }

  function Run(r: Records, calls: seq<Call>): Records
  {
    if calls == [] then r else Step(Run(r, calls[..|calls| - 1]), calls[|calls| - 1])
  }

  /** The incidents of one node in a run: its failures with a known account and its successes. */
  function HistoryOf(calls: seq<Call>, n: NodeId): seq<Incident>
  {
    if calls == [] then [] else Extended(HistoryOf(calls[..|calls| - 1], n), calls[|calls| - 1], n)
  }

  function Extended(h: seq<Incident>, c: Call, n: NodeId): seq<Incident>
  {
    match c
    case Fail(m, account, at) => if m == n && account != "" then h + [Failed(account, at)] else h
    case Succeed(m, at) => if m == n then h + [Succeeded(at)] else h
    case _ => h
  }

  predicate InOrder(calls: seq<Call>) { forall i, k :: 0 <= i < k < |calls| ==> calls[i].at <= calls[k].at }

  const NoRecords := Records(map[], map[], map[], map[], map[])

  ghost predicate StrikesAgree(r: Records, n: NodeId, h: seq<Incident>)
  {
    match LastStrike(h)
    case None => n !in r.strikes
    case Some(at) => n in r.strikes && r.strikes[n].at == at && r.strikes[n].count >= 1
  }

  ghost predicate FailuresAgree(failures: map<AccountId, Time>, h: seq<Incident>, since: Time)
  {
    && (forall a :: a in failures ==> failures[a] <= since)
    && (forall now: Time, a :: now >= since ==> (a in Recent(h, now) <==> a in failures && now - failures[a] <= WINDOW))
  }

  /** The records of a node tell the same as its history, now and at any later time. */
  ghost predicate Agrees(r: Records, n: NodeId, h: seq<Incident>, since: Time)
  {
    StrikesAgree(r, n, h) && FailuresAgree(Failures(r, n), h, since)
  }

  /** The answer of the pruned records is the answer of the full history. */
  lemma RecordsAnswerAsHistory(r: Records, n: NodeId, h: seq<Incident>, account: AccountId, now: Time, since: Time)
    requires Agrees(r, n, h, since) && now >= since && n != "" && account != ""
    ensures RecordFailure(r, n, account, now).1 == Answer(h, account, now)
  {
    var recent := WithinWindow(Failures(r, n), now)[account := now];
    assert recent.Keys == Recent(h, now) + {account};
    assert |recent| == |recent.Keys|;
  }

  /** A failure that is not answered joins the recent ones of its node, in the history as in the records. */
  lemma UnansweredFailureJoins(
    failures: map<AccountId, Time>, h: seq<Incident>, account: AccountId, now: Time, since: Time)
    requires FailuresAgree(failures, h, since) && since <= now && Answer(h, account, now) == 0
    ensures FailuresAgree(WithinWindow(failures, now)[account := now], h + [Failed(account, now)], now)
  {
    var longer := h + [Failed(account, now)];
    assert longer[..|longer| - 1] == h && longer[|longer| - 1] == Failed(account, now);
    var kept := WithinWindow(failures, now)[account := now];
    forall later: Time, a | later >= now
      ensures a in Recent(longer, later) <==> a in kept && later - kept[a] <= WINDOW
    {
      assert Recent(longer, later) == Recent(h, later) + (if later - now <= WINDOW then {account} else {});
      assert a != account ==> (a in kept <==> a in failures && now - failures[a] <= WINDOW);
      assert a in Recent(h, later) <==> a in failures && later - failures[a] <= WINDOW;
    }
  }

  /** An answered failure is the last strike, and no failure after it is recent. */
  lemma StrikeOutExtends(r: Records, n: NodeId, h: seq<Incident>, account: AccountId, now: Time)
    requires n != "" && Answer(h, account, now) > 0
    ensures Agrees(StrikeOut(r, n, now).0, n, h + [Failed(account, now)], now)
  {
    var longer := h + [Failed(account, now)];
    assert longer[..|longer| - 1] == h && longer[|longer| - 1] == Failed(account, now);
    assert LastStrike(longer) == Some(now);
    var next := StrikeOut(r, n, now).0;
    assert Failures(next, n) == map[];
    assert n in next.strikes && next.strikes[n] == Strike(LiveStrikes(r, n, now) + 1, now);
  }

  lemma UnansweredFailureExtends(r: Records, n: NodeId, h: seq<Incident>, account: AccountId, now: Time, since: Time)
    requires Agrees(r, n, h, since) && now >= since && n != "" && account != ""
    requires Answer(h, account, now) == 0 && RecordFailure(r, n, account, now).1 == 0
    ensures Agrees(RecordFailure(r, n, account, now).0, n, h + [Failed(account, now)], now)
  {
    var longer := h + [Failed(account, now)];
    assert longer[..|longer| - 1] == h && longer[|longer| - 1] == Failed(account, now);
    assert LastStrike(longer) == LastStrike(h);
    UnansweredFailureJoins(Failures(r, n), h, account, now, since);
  }

  lemma FailureExtends(r: Records, n: NodeId, h: seq<Incident>, account: AccountId, now: Time, since: Time)
    requires Agrees(r, n, h, since) && now >= since && n != "" && account != ""
    ensures Agrees(RecordFailure(r, n, account, now).0, n, h + [Failed(account, now)], now)
  {
    RecordsAnswerAsHistory(r, n, h, account, now, since);
    if Answer(h, account, now) == 0 {
      UnansweredFailureExtends(r, n, h, account, now, since);
    } else {
      StrikeOutExtends(r, n, h, account, now);
    }
  }

  lemma SuccessClears(r: Records, n: NodeId, h: seq<Incident>, now: Time)
    requires n != ""
    ensures Agrees(RecordSuccess(r, n, now), n, h + [Succeeded(now)], now)
  {
    var longer := h + [Succeeded(now)];
    assert longer[..|longer| - 1] == h;
  }

  lemma AgreesLater(r: Records, q: Records, n: NodeId, h: seq<Incident>, since: Time, later: Time)
    requires Agrees(r, n, h, since) && since <= later
    requires SameRecord(r, q, n)
    ensures Agrees(q, n, h, later)
  {
  }

  ghost predicate SameRecord(r: Records, q: Records, n: NodeId)
  {
    && Failures(q, n) == Failures(r, n) && (n in q.strikes <==> n in r.strikes)
    && (n in r.strikes ==> q.strikes[n] == r.strikes[n])
  }

  lemma MarkLeavesRecords(r: Records, m: NodeId, seconds: int, reason: string, now: Time)
    ensures var q := MarkUnavailable(r, m, seconds, reason, now);
      q.failures == r.failures && q.strikes == r.strikes
  {
  }

  lemma StrikeOutLeavesOthers(r: Records, m: NodeId, now: Time, n: NodeId)
    requires m != n
    ensures SameRecord(r, StrikeOut(r, m, now).0, n)
  {
    var live := LiveStrikes(r, m, now);
    var struck := r.(strikes := r.strikes[m := Strike(live + 1, now)], failures := r.failures - {m});
    assert SameRecord(r, struck, n);
    var seconds := if live == 0 then FIRST_COOLDOWN else REPEAT_COOLDOWN;
    MarkLeavesRecords(struck, m, seconds, "doubao_verification_required", now);
  }

  lemma OtherFailureLeavesNode(r: Records, m: NodeId, account: AccountId, now: Time, n: NodeId)
    requires m != n || account == ""
    ensures SameRecord(r, RecordFailure(r, m, account, now).0, n)
  {
    if m != "" && account != "" {
      StrikeOutLeavesOthers(r, m, now, n);
    }
  }

  /** A step that is no incident of node n leaves its failures and strikes alone. */
  lemma OtherStepsLeaveNode(r: Records, c: Call, n: NodeId)
    requires n != "" && !(c.Fail? && c.node == n && c.account != "") && !(c.Succeed? && c.node == n)
    ensures SameRecord(r, Step(r, c), n)
  {
    if c.Fail? { OtherFailureLeavesNode(r, c.node, c.account, c.at, n); }
  }

  lemma StepKeepsAgreement(r: Records, c: Call, n: NodeId, h: seq<Incident>, since: Time)
    requires Agrees(r, n, h, since) && c.at >= since && n != ""
    ensures Agrees(Step(r, c), n, Extended(h, c, n), c.at)
  {
    if c.Fail? && c.node == n && c.account != "" {
      FailureExtends(r, n, h, c.account, c.at, since);
    } else if c.Succeed? && c.node == n {
      SuccessClears(r, n, h, c.at);
    } else {
      OtherStepsLeaveNode(r, c, n);
      AgreesLater(r, Step(r, c), n, h, since, c.at);
    }
  }

  function LastTime(calls: seq<Call>): Time { if calls == [] then 0 else calls[|calls| - 1].at }

  lemma {:induction false} RunAgrees(calls: seq<Call>, n: NodeId)
    requires InOrder(calls) && n != ""
    ensures Agrees(Run(NoRecords, calls), n, HistoryOf(calls, n), LastTime(calls))
    decreases |calls|
  {
    if calls != [] {
      var past := calls[..|calls| - 1];
      RunAgrees(past, n);
      StepKeepsAgreement(Run(NoRecords, past), calls[|calls| - 1], n, HistoryOf(past, n), LastTime(past));
    }
  }

  predicate Struck(h: seq<Incident>, now: Time)
  {
    LastStrike(h).Some? && now - LastStrike(h).value <= STRIKE_TTL
  }

  predicate AnotherFailed(recent: set<AccountId>, account: AccountId)
  {
    exists other :: other in recent && other != account
  }

  lemma AnswerMeaning(h: seq<Incident>, account: AccountId, now: Time)
    ensures Answer(h, account, now) > 0 <==> Struck(h, now) || AnotherFailed(Recent(h, now), account)
    ensures Answer(h, account, now) == REPEAT_COOLDOWN <==> Struck(h, now)
  {
    TwoAccounts(Recent(h, now), account);
  }

  /**
   * After any run over all nodes, a failure is answered with a cooldown exactly when the node has an
   * unexpired strike or a second account failed within the window, and with the long one exactly for
   * the strike; pruning never shows.
   */
  lemma VerificationMatchesHistory(calls: seq<Call>, n: NodeId, account: AccountId, now: Time)
    requires InOrder(calls) && now >= LastTime(calls) && n != "" && account != ""
    ensures var h := HistoryOf(calls, n);
      var answer := RecordFailure(Run(NoRecords, calls), n, account, now).1;
      && (answer > 0 <==> Struck(h, now) || AnotherFailed(Recent(h, now), account))
      && (answer == REPEAT_COOLDOWN <==> Struck(h, now))
  {
    RunAgrees(calls, n);
    RecordsAnswerAsHistory(Run(NoRecords, calls), n, HistoryOf(calls, n), account, now, LastTime(calls));
    AnswerMeaning(HistoryOf(calls, n), account, now);
  }

  lemma TwoAccounts(s: set<AccountId>, a: AccountId)
    ensures |s + {a}| >= 2 <==> AnotherFailed(s, a)
  {
    if b :| b in s && b != a {
      assert {a, b} <= s + {a};
      SubsetIsSmaller({a, b}, s + {a});
    } else {
      assert s + {a} == {a};
    }
  }

  // ---- cooldowns ----------------------------------------------------------------------------------------------

  ghost predicate Blocked(r: Records, n: NodeId, deadline: Time)
  {
    n in r.cooldowns && r.cooldowns[n].deadline >= deadline
  }

  lemma MarkKeepsBlock(r: Records, m: NodeId, seconds: int, reason: string, now: Time, n: NodeId, deadline: Time)
    requires Blocked(r, n, deadline)
    ensures Blocked(MarkUnavailable(r, m, seconds, reason, now), n, deadline)
  {
  }

  lemma StrikeOutKeepsBlock(r: Records, m: NodeId, now: Time, n: NodeId, deadline: Time)
    requires Blocked(r, n, deadline)
    ensures Blocked(StrikeOut(r, m, now).0, n, deadline)
  {
    var live := LiveStrikes(r, m, now);
    var struck := r.(strikes := r.strikes[m := Strike(live + 1, now)], failures := r.failures - {m});
    var seconds := if live == 0 then FIRST_COOLDOWN else REPEAT_COOLDOWN;
    MarkKeepsBlock(struck, m, seconds, "doubao_verification_required", now, n, deadline);
  }

  lemma StepKeepsBlock(r: Records, c: Call, n: NodeId, deadline: Time)
    requires n != "" && Blocked(r, n, deadline) && c.at < deadline && !(c.Succeed? && c.node == n)
    ensures Blocked(Step(r, c), n, deadline)
  {
    match c
    case Fail(m, account, at) => StrikeOutKeepsBlock(r, m, at, n, deadline);
    case Mark(m, seconds, reason, at) => MarkKeepsBlock(r, m, seconds, reason, at, n, deadline);
    case _ =>
  }

  lemma {:induction false} RunKeepsBlock(r: Records, calls: seq<Call>, n: NodeId, deadline: Time)
    requires n != "" && Blocked(r, n, deadline)
    requires forall k :: 0 <= k < |calls| ==> calls[k].at < deadline && !(calls[k].Succeed? && calls[k].node == n)
    ensures Blocked(Run(r, calls), n, deadline)
    decreases |calls|
  {
    if calls != [] {
      RunKeepsBlock(r, calls[..|calls| - 1], n, deadline);
      StepKeepsBlock(Run(r, calls[..|calls| - 1]), calls[|calls| - 1], n, deadline);
    }
  }

  /** A node stays out for its whole cooldown, whatever else is recorded, unless it succeeds. */
  lemma CooldownIsServed(r: Records, n: NodeId, account: AccountId, at: Time, calls: seq<Call>, now: Time)
    requires n != "" && account != "" && RecordFailure(r, n, account, at).1 > 0
    requires at <= now < at + RecordFailure(r, n, account, at).1
    requires forall k :: 0 <= k < |calls| ==> at <= calls[k].at <= now && !(calls[k].Succeed? && calls[k].node == n)
    ensures var (struck, cooldown) := RecordFailure(r, n, account, at);
      RetryAfter(Run(struck, calls), n, now).1 >= at + cooldown - now > 0
  {
    var (struck, cooldown) := RecordFailure(r, n, account, at);
    assert Blocked(struck, n, at + cooldown);
    RunKeepsBlock(struck, calls, n, at + cooldown);
  }

  /** A success makes the node available at once and wipes its record. */
  lemma SuccessRestoresNode(r: Records, n: NodeId, account: AccountId, now: Time)
    requires n != "" && account != ""
    ensures RetryAfter(RecordSuccess(r, n, now), n, now).1 == 0
    ensures RecordFailure(RecordSuccess(r, n, now), n, account, now).1 == 0
  {
    var clean := RecordSuccess(r, n, now);
    assert WithinWindow(Failures(clean, n), now) == map[];
  }

  // ---- the module state ------------------------------------------------------------------------------------------

  class NodeHealth {
    var failures: map<NodeId, map<AccountId, Time>>
    var strikes: map<NodeId, Strike>
    var cooldowns: map<NodeId, Cooldown>
    var delays: map<NodeId, Delay>
    var lastGood: map<NodeId, nat>

    function State(): Records
      reads this
    {
      Records(failures, strikes, cooldowns, delays, lastGood)
    }

    constructor ()
      ensures State() == NoRecords
    {
      failures, strikes, cooldowns, delays, lastGood := map[], map[], map[], map[], map[];
    }

    method MarkNodeUnavailable(node: NodeId, seconds: int, reason: string, now: Time)
      modifies this
      ensures State() == MarkUnavailable(old(State()), node, seconds, reason, now)
    {
      if node == "" { return; }
      delays := delays[node := Delay(None, now)];
      var deadline := now + Max(1, seconds);
      var earlier := if node in cooldowns then cooldowns[node].deadline else 0;
      if deadline >= earlier { cooldowns := cooldowns[node := Cooldown(deadline, Clip(reason, 80))]; }
    }

    /** Drops the failures that have left the window. */
    method PruneFailures(events: map<AccountId, Time>, now: Time) returns (kept: map<AccountId, Time>)
      ensures kept == WithinWindow(events, now)
    {
      kept := map[];
      var rest := events.Keys;
      while rest != {}
        invariant rest <= events.Keys
        invariant forall a :: a in kept <==> a in events && a !in rest && now - events[a] <= WINDOW
        invariant forall a :: a in kept ==> kept[a] == events[a]
        decreases rest
      {
        var a :| a in rest;
        if now - events[a] <= WINDOW { kept := kept[a := events[a]]; }
        rest := rest - {a};
      }
    }

    method RecordVerification(node: NodeId, account: AccountId, now: Time) returns (cooldown: nat)
      modifies this
      ensures (State(), cooldown) == RecordFailure(old(State()), node, account, now)
    {
      if node == "" || account == "" { return 0; }
      var events := PruneFailures(if node in failures then failures[node] else map[], now);
      events := events[account := now];
      ghost var before := State();
      assert events == WithinWindow(Failures(before, node), now)[account := now];
      failures := failures[node := events];
      var previous := if node in strikes then strikes[node].count else 0;
      if node in strikes && now - strikes[node].at > STRIKE_TTL { previous := 0; }
      assert previous == LiveStrikes(before, node, now);
      if previous <= 0 && |events| < 2 { return 0; }
      cooldown := if previous + 1 == 1 then FIRST_COOLDOWN else REPEAT_COOLDOWN;
      strikes := strikes[node := Strike(previous + 1, now)];
      failures := failures - {node};
      assert failures == before.failures - {node};
      assert State() == before.(strikes := before.strikes[node := Strike(previous + 1, now)],
        failures := before.failures - {node});
      MarkNodeUnavailable(node, cooldown, "doubao_verification_required", now);
    }

    method RecordNodeSuccess(node: NodeId, now: Time)
      modifies this
      ensures State() == RecordSuccess(old(State()), node, now)
    {
      if node == "" { return; }
      failures, strikes, cooldowns := failures - {node}, strikes - {node}, cooldowns - {node};
      if node in lastGood {
        delays := delays[node := Delay(Some(lastGood[node]), now)];
      } else {
        delays := delays - {node};
      }
    }

    method NodeRetryAfter(node: NodeId, now: Time) returns (seconds: int)
      modifies this
      ensures (State(), seconds) == RetryAfter(old(State()), node, now)
    {
      if node == "" { return 0; }
      if node in cooldowns && cooldowns[node].deadline > now { return Max(1, cooldowns[node].deadline - now); }
      cooldowns := cooldowns - {node};
      if node in delays && delays[node].delay.None? && delays[node].checkedAt > 0 {
        return Max(0, FAILURE_COOLDOWN - (now - delays[node].checkedAt));
      }
      return 0;
    }
  }
}
