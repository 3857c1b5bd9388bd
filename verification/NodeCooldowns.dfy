/** How long a node stays out: what the records answer after any run, read off the calls that were made. */
module NodeCooldowns {
  import opened Util
  import opened NodeVerification

  /** The seconds that a call keeps node `n` out for, after the calls before it; nothing if it does not. */
  function Sentence(past: seq<Call>, c: Call, n: NodeId): nat
  {
    match c
    case Fail(m, account, at) => if m == n && account != "" then Answer(HistoryOf(past, n), account, at) else 0
    case Mark(m, seconds, _, _) => if m != n then 0 else if seconds < 1 then 1 else seconds
    case _ => 0
  }

  /** The latest end of all sentences since the last success; 0 is none. */
  function OutUntil(calls: seq<Call>, n: NodeId): nat
  {
    if calls == [] then 0
    else
      var past, last := calls[..|calls| - 1], calls[|calls| - 1];
      var sentence := Sentence(past, last, n);
      if last.Succeed? && last.node == n then 0
      else if sentence > 0 && last.at + sentence > OutUntil(past, n) then last.at + sentence
      else OutUntil(past, n)
  }

  /** When the latest sentence since the last success began; 0 is never. */
  function OutSince(calls: seq<Call>, n: NodeId): nat
  {
    if calls == [] then 0
    else
      var past, last := calls[..|calls| - 1], calls[|calls| - 1];
      if last.Succeed? && last.node == n then 0
      else if Sentence(past, last, n) > 0 then last.at else OutSince(past, n)
  }

  /** The records of the node say until when and since when it is out; an expired cooldown may be gone. */
  ghost predicate Tells(r: Records, n: NodeId, until: nat, since: nat, now: Time)
  {
    && (if n in r.cooldowns then r.cooldowns[n].deadline == until else until <= now)
    && (if n in r.delays && r.delays[n].delay.None? then r.delays[n].checkedAt == since else since == 0)
    && n !in r.lastGood && since <= now
  }

  lemma MarkTells(r: Records, n: NodeId, seconds: int, reason: string, at: Time, until: nat, since: nat, before: Time)
    requires n != "" && before <= at && Tells(r, n, until, since, before)
    ensures var last := at + if seconds < 1 then 1 else seconds;
      Tells(MarkUnavailable(r, n, seconds, reason, at), n, if last > until then last else until, at, at)
  {
  }

  ghost predicate SameNode(r: Records, q: Records, n: NodeId)
  {
    && (n in q.cooldowns <==> n in r.cooldowns) && (n in r.cooldowns ==> q.cooldowns[n] == r.cooldowns[n])
    && (n in q.delays <==> n in r.delays) && (n in r.delays ==> q.delays[n] == r.delays[n])
    && q.lastGood == r.lastGood
  }

  lemma OtherMarkKeepsNode(r: Records, m: NodeId, seconds: int, reason: string, at: Time, n: NodeId)
    requires m != n
    ensures SameNode(r, MarkUnavailable(r, m, seconds, reason, at), n)
  {
  }

  lemma StrikeOutTells(r: Records, n: NodeId, at: Time, until: nat, since: nat, before: Time)
    requires n != "" && before <= at && Tells(r, n, until, since, before)
    ensures var (q, seconds) := StrikeOut(r, n, at);
      seconds > 0 && Tells(q, n, if at + seconds > until then at + seconds else until, at, at)
  {
    var live := LiveStrikes(r, n, at);
    var struck := r.(strikes := r.strikes[n := Strike(live + 1, at)], failures := r.failures - {n});
    var seconds := if live == 0 then FIRST_COOLDOWN else REPEAT_COOLDOWN;
    assert Tells(struck, n, until, since, before);
    MarkTells(struck, n, seconds, "doubao_verification_required", at, until, since, before);
  }

  lemma OtherStrikeOutKeepsNode(r: Records, m: NodeId, at: Time, n: NodeId)
    requires m != n
    ensures SameNode(r, StrikeOut(r, m, at).0, n)
  {
    var live := LiveStrikes(r, m, at);
    var struck := r.(strikes := r.strikes[m := Strike(live + 1, at)], failures := r.failures - {m});
    var seconds := if live == 0 then FIRST_COOLDOWN else REPEAT_COOLDOWN;
    OtherMarkKeepsNode(struck, m, seconds, "doubao_verification_required", at, n);
  }

  lemma FailTells(r: Records, m: NodeId, account: AccountId, at: Time, n: NodeId, until: nat, since: nat, before: Time)
    requires n != "" && before <= at && Tells(r, n, until, since, before)
    ensures var (q, answer) := RecordFailure(r, m, account, at);
      var seconds := if m == n then answer else 0;
      Tells(q, n, if seconds > 0 && at + seconds > until then at + seconds else until,
            if seconds > 0 then at else since, at)
  {
    if m == n { StrikeOutTells(r, n, at, until, since, before); } else { OtherStrikeOutKeepsNode(r, m, at, n); }
  }

  lemma FailStepTells(
    h: seq<Incident>, r: Records, m: NodeId, account: AccountId, at: Time, n: NodeId, until: nat, since: nat,
    before: Time)
    requires n != "" && before <= at && Tells(r, n, until, since, before) && Agrees(r, n, h, before)
    ensures var seconds := if m == n && account != "" then Answer(h, account, at) else 0;
      Tells(RecordFailure(r, m, account, at).0, n,
            if seconds > 0 && at + seconds > until then at + seconds else until, if seconds > 0 then at else since, at)
  {
    FailTells(r, m, account, at, n, until, since, before);
    if m == n && account != "" { RecordsAnswerAsHistory(r, n, h, account, at, before); }
  }

  lemma MarkStepTells(
    r: Records, m: NodeId, seconds: int, reason: string, at: Time, n: NodeId, until: nat, since: nat, before: Time)
    requires n != "" && before <= at && Tells(r, n, until, since, before)
    ensures var out := if m != n then 0 else if seconds < 1 then 1 else seconds;
      Tells(MarkUnavailable(r, m, seconds, reason, at), n,
            if out > 0 && at + out > until then at + out else until, if out > 0 then at else since, at)
  {
    if m == n { MarkTells(r, n, seconds, reason, at, until, since, before); }
    else { OtherMarkKeepsNode(r, m, seconds, reason, at, n); }
  }

  lemma QuietStepTells(r: Records, c: Call, n: NodeId, until: nat, since: nat, before: Time)
    requires n != "" && before <= c.at && Tells(r, n, until, since, before) && (c.Succeed? || c.Query?)
    ensures if c.Succeed? && c.node == n then Tells(Step(r, c), n, 0, 0, c.at)
      else Tells(Step(r, c), n, until, since, c.at)
  {
  }

  lemma StepTells(past: seq<Call>, r: Records, c: Call, n: NodeId, until: nat, since: nat, before: Time)
    requires n != "" && before <= c.at && Tells(r, n, until, since, before)
    requires Agrees(r, n, HistoryOf(past, n), before)
    ensures var seconds := Sentence(past, c, n);
      if c.Succeed? && c.node == n then Tells(Step(r, c), n, 0, 0, c.at)
      else Tells(Step(r, c), n, if seconds > 0 && c.at + seconds > until then c.at + seconds else until,
                 if seconds > 0 then c.at else since, c.at)
  {
    match c
    case Fail(m, account, at) => FailStepTells(HistoryOf(past, n), r, m, account, at, n, until, since, before);
    case Mark(m, seconds, reason, at) => MarkStepTells(r, m, seconds, reason, at, n, until, since, before);
    case _ => QuietStepTells(r, c, n, until, since, before);
  }

  lemma {:induction false} RunTells(calls: seq<Call>, n: NodeId)
    requires InOrder(calls) && n != ""
    ensures Tells(Run(NoRecords, calls), n, OutUntil(calls, n), OutSince(calls, n), LastTime(calls))
    decreases |calls|
  {
    if calls != [] {
      var past := calls[..|calls| - 1];
      RunTells(past, n);
      RunAgrees(past, n);
      var until, since := OutUntil(past, n), OutSince(past, n);
      StepTells(past, Run(NoRecords, past), calls[|calls| - 1], n, until, since, LastTime(past));
    }
  }

  /**
   * After any run a node may be tried again exactly when the last of its cooldowns since its last success
   * is over, and never within 90 seconds of the call that took it out. The answer is the time left.
   */
  lemma RetryAfterIsExact(calls: seq<Call>, n: NodeId, now: Time)
    requires InOrder(calls) && now >= LastTime(calls) && n != ""
    ensures RetryAfter(Run(NoRecords, calls), n, now).1 ==
      if OutUntil(calls, n) > now then OutUntil(calls, n) - now
      else if OutSince(calls, n) > 0 && OutSince(calls, n) + 90 > now then OutSince(calls, n) + 90 - now
      else 0
  {
    RunTells(calls, n);
  }
}
