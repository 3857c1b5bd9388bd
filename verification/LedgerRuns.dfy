/** What every run of accounting calls keeps. */
module LedgerRuns {
  import opened Util
  import opened Ledger

  // ---- sums over charge lists ------------------------------------------------------------------

  lemma {:induction false} ActiveOfSum(a: seq<Charge>, b: seq<Charge>)
    ensures ActiveUnits(a + b) == ActiveUnits(a) + ActiveUnits(b)
  {
    if a == [] {
      assert a + b == b;
    } else {
      assert (a + b)[1..] == a[1..] + b;
      ActiveOfSum(a[1..], b);
    }
  }

  lemma {:induction false} ActiveOfNamed(charges: seq<Charge>)
    ensures ActiveUnits(Named(charges)) == ActiveUnits(charges)
    ensures Named(Named(charges)) == Named(charges)
    ensures forall c :: c in Named(charges) <==> c in charges && c.id != ""
  {
    if charges != [] {
      ActiveOfNamed(charges[1..]);
      if charges[0].id != "" {
        assert ([charges[0]] + Named(charges[1..]))[1..] == Named(charges[1..]);
      }
    }
  }

  lemma {:induction false} ActiveOfUpdate(charges: seq<Charge>, i: nat, c: Charge)
    requires i < |charges|
    ensures ActiveUnits(charges[i := c]) == ActiveUnits(charges) - Counted(charges[i]) + Counted(c)
  {
    if i > 0 {
      assert charges[i := c][1..] == charges[1..][i - 1 := c];
      ActiveOfUpdate(charges[1..], i - 1, c);
    }
  }

  lemma {:induction false} ActiveOfSettled(ids: seq<string>)
    requires forall i :: 0 <= i < |ids| ==> ids[i] != ""
    ensures ActiveUnits(SettledCharges(ids)) == |ids|
  {
    if ids != [] {
      assert SettledCharges(ids)[1..] == SettledCharges(ids[1..]);
      ActiveOfSettled(ids[1..]);
    }
  }

  // ---- consistency ---------------------------------------------------------------------------------

  /** The cached value is what the base and the charges add up to; an unopened ledger has no charges. */
  ghost predicate Sound(b: Book)
  {
    b.used >= 0 && (if b.initialized then b.used == Reconciled(b) else b.charges == [])
  }

  /** Both ledgers are sound, and an account with a remote credit has opened its studio ledger. */
  ghost predicate Consistent(a: Account)
  {
    Sound(a.quota) && Sound(a.studio) && (a.sync.Some? ==> a.studio.initialized)
  }

  /** The calls that write the cached value behind the ledger's back. */
  predicate Drift(e: Event) { e.MarkUsed? || (e.TimeOutCharge? && e.id == "") || (e.ExhaustQuota? && e.id == "") }

  lemma CloseKeepsSound(b: Book, id: string, status: ChargeStatus)
    requires Sound(b)
    ensures Sound(CloseBook(b, id, status).0)
  {
  }

  lemma ExhaustKeepsSound(b: Book, id: string, limit: int)
    requires Sound(b) && limit >= 1
    ensures b.initialized ==> Sound(ExhaustBook(b, id, limit))
    ensures Sound(ExhaustStudioBook(b, id, limit))
  {
  }

  lemma TimeOutKeepsSound(b: Book, id: string)
    requires Sound(b) && id != ""
    ensures Sound(TimeOutBook(b, id)) && TimeOutBook(b, id).used >= 1
  {
    var ready := Initialize(b);
    match FindCharge(ready.charges, id, false)
    case None => ActiveOfSum(ready.charges, [Charge(id, 0, Settled)]);
    case Some(i) =>
      var marked := Marked(ready.charges, i, Settled);
      ActiveOfUpdate(marked, i, marked[i].(status := Refunded));
  }

  lemma ReconcileKeepsConsistent(a: Account)
    requires Consistent(a)
    ensures Consistent(ReconcileOnce(a).0)
  {
    ActiveOfNamed(a.quota.charges);
    ActiveOfNamed(a.studio.charges);
  }

  lemma ClosingKeepsConsistent(a: Account, id: string)
    requires Consistent(a)
    ensures Consistent(Refund(a, id).0) && Consistent(Settle(a, id).0)
  {
    CloseKeepsSound(a.quota, id, Refunded);
    CloseKeepsSound(a.studio, id, Refunded);
    CloseKeepsSound(a.quota, id, Settled);
    CloseKeepsSound(a.studio, id, Settled);
    assert !a.quota.initialized ==> a.quota.charges == [];
    assert !a.studio.initialized ==> a.studio.charges == [];
  }

  lemma EndingKeepsConsistent(a: Account, id: string, today: Day)
    requires Consistent(a) && id != ""
    ensures Consistent(TimeOut(a, id, today)) && Consistent(Exhaust(a, id, today))
  {
    TimeOutKeepsSound(if IsStudioCharge(id) then a.studio else a.quota, id);
    ExhaustKeepsSound(a.studio, id, Max(1, a.studioLimit));
    ExhaustKeepsSound(a.quota, id, Max(1, a.limit));
  }

  lemma StepKeepsConsistent(a: Account, e: Event, today: Day)
    requires Consistent(a) && !Drift(e)
    ensures Consistent(Step(a, e, today))
  {
    match e
    case TimeOutCharge(id) => EndingKeepsConsistent(a, id, today);
    case ExhaustQuota(id) => EndingKeepsConsistent(a, id, today);
    case RefundCharge(id) => ClosingKeepsConsistent(a, id);
    case SettleCharge(id) => ClosingKeepsConsistent(a, id);
    case DailyReset => ReconcileKeepsConsistent(a);
    case ReconcilePass => ReconcileKeepsConsistent(a);
    case SuccessRecords(records) =>
    case Claim(_, _, _) =>
    case ResetQuota =>
    case MarkUsed =>
    case SyncStudioCredit(_, _) =>
    case EditLimits(_, _) =>
  }

  /** Any interleaving of ledger calls leaves both cached values equal to their ledgers. */
  lemma {:induction false} RunKeepsConsistent(a: Account, es: seq<DatedEvent>)
    requires Consistent(a) && forall k :: 0 <= k < |es| ==> !Drift(es[k].event)
    ensures Consistent(Run(a, es))
    decreases |es|
  {
    if es != [] {
      StepKeepsConsistent(a, es[0].event, es[0].today);
      RunKeepsConsistent(Step(a, es[0].event, es[0].today), es[1..]);
    }
  }

  /** When exactly a call that bypasses the ledger is harmless. */
  lemma DriftIsHarmlessExactly(a: Account, e: Event, today: Day)
    requires Consistent(a) && Drift(e)
    ensures Consistent(Step(a, e, today)) <==>
      || !a.quota.initialized
      || (e.TimeOutCharge? && a.quota.used >= 1)
      || (e.ExhaustQuota? && a.quota.used >= Max(1, a.limit))
  {
  }

  // ---- claims ------------------------------------------------------------------------------------

  lemma ChargeBookAdds(b: Book, id: string, cost: int)
    requires Sound(b) && cost >= 1 && id != ""
    ensures Sound(ChargeBook(b, id, cost)) && ChargeBook(b, id, cost).used == b.used + cost
    ensures ChargeBook(b, id, cost).initialized
    ensures ChargeBook(b, id, cost).charges == Named(b.charges) + [Charge(id, cost, Charged)]
  {
    ActiveOfNamed(b.charges);
    ActiveOfSum(Named(b.charges), [Charge(id, cost, Charged)]);
  }

  /** A successful claim adds exactly its cost and stays within the limit that admitted it. */
  lemma ClaimAddsItsCost(a: Account, studio: bool, id: string, cost: int, today: Day)
    requires Consistent(a) && id != "" && ClaimAllowed(a, studio, Max(1, cost), today)
    ensures var r := ClaimQuota(a, studio, id, cost, today);
      if studio then
        && r.studio.used == a.studio.used + Max(1, cost) && r.quota == a.quota
        && (if a.sync.Some? && a.sync.value.date == today
            then r.studio.used <= a.sync.value.usedAtSync + a.sync.value.available
            else a.studioLimit == 0 || r.studio.used <= a.studioLimit)
      else
        && r.quota.used == a.quota.used + Max(1, cost) && r.studio == a.studio
        && (a.limit == 0 || r.quota.used <= a.limit)
  {
    ChargeBookAdds(if studio then a.studio else a.quota, id, Max(1, cost));
  }

  ghost predicate Fresh(charges: seq<Charge>, id: string)
  {
    forall k :: 0 <= k < |charges| ==> charges[k].id != id
  }

  lemma {:induction false} FindAppended(charges: seq<Charge>, c: Charge, openOnly: bool)
    requires c.id != "" && (openOnly ==> c.status == Charged)
    requires forall k :: 0 <= k < |charges| ==> charges[k].id != c.id || (openOnly && charges[k].status != Charged)
    ensures FindCharge(charges + [c], c.id, openOnly) == Some(|charges|)
  {
    if charges == [] {
    } else {
      assert (charges + [c])[1..] == charges[1..] + [c];
      FindAppended(charges[1..], c, openOnly);
    }
  }

  lemma NoneMatches(charges: seq<Charge>, id: string, openOnly: bool)
    requires forall k :: 0 <= k < |charges| ==> charges[k].id != id || (openOnly && charges[k].status != Charged)
    ensures FindCharge(charges, id, openOnly) == None
  {
  }

  /** The life of one charge: a refund gives back exactly the claim, once; a late result takes it again. */
  lemma ChargeLifeCycle(b: Book, id: string, cost: int)
    requires Sound(b) && cost >= 1 && id != "" && Fresh(b.charges, id)
    ensures var claimed := ChargeBook(b, id, cost);
      var (refunded, done) := CloseBook(claimed, id, Refunded);
      && done && refunded.used == b.used
      && CloseBook(refunded, id, Refunded) == (refunded, false)
      && CloseBook(refunded, id, Settled) == (refunded, false)
      && TimeOutBook(refunded, id).used == claimed.used
    ensures var claimed := ChargeBook(b, id, cost);
      var (settled, done) := CloseBook(claimed, id, Settled);
      && done && settled.used == claimed.used
      && CloseBook(settled, id, Refunded) == (settled, false)
      && TimeOutBook(settled, id) == settled
  {
    var kept := Named(b.charges);
    ActiveOfNamed(b.charges);
    assert Fresh(kept, id) by {
      forall k | 0 <= k < |kept| ensures kept[k].id != id { assert kept[k] in kept; }
    }
    ChargeBookAdds(b, id, cost);
    var claimed := ChargeBook(b, id, cost);
    FindAppended(kept, Charge(id, cost, Charged), true);
    forall s: ChargeStatus | s != Charged
      ensures CloseBook(claimed, id, s).1
      ensures CloseBook(claimed, id, s).0.charges == kept + [Charge(id, cost, s)]
      ensures CloseBook(claimed, id, s).0.used == (if s == Refunded then b.used else claimed.used)
      ensures forall t :: CloseBook(CloseBook(claimed, id, s).0, id, t) == (CloseBook(claimed, id, s).0, false)
      ensures TimeOutBook(CloseBook(claimed, id, s).0, id).used == claimed.used
      ensures s == Settled ==> TimeOutBook(CloseBook(claimed, id, s).0, id) == CloseBook(claimed, id, s).0
    {
      ClosedCharge(claimed, kept, id, cost, s);
    }
  }

  lemma ClosedCharge(claimed: Book, kept: seq<Charge>, id: string, cost: int, s: ChargeStatus)
    requires claimed.initialized && Sound(claimed) && cost >= 1 && id != "" && s != Charged
    requires claimed.charges == kept + [Charge(id, cost, Charged)] && Fresh(kept, id) && Named(kept) == kept
    requires FindCharge(claimed.charges, id, true) == Some(|kept|)
    ensures var closed := CloseBook(claimed, id, s);
      && closed.1 && closed.0.charges == kept + [Charge(id, cost, s)]
      && closed.0.used == claimed.used - (if s == Refunded then cost else 0)
      && (forall t :: CloseBook(closed.0, id, t) == (closed.0, false))
      && TimeOutBook(closed.0, id).used == claimed.used
      && (s == Settled ==> TimeOutBook(closed.0, id) == closed.0)
  {
    var last := Charge(id, cost, s);
    var closed := CloseBook(claimed, id, s).0;
    ActiveOfUpdate(claimed.charges, |kept|, claimed.charges[|kept|].(status := s));
    assert closed.charges == kept + [last];
    NoneMatches(closed.charges, id, true);
    FindAppended(kept, last, false);
    NamedOfAppend(kept, last);
    ActiveOfUpdate(closed.charges, |kept|, last.(status := Settled));
    assert s == Settled ==> Marked(closed.charges, |kept|, Settled) == closed.charges;
  }

  lemma {:induction false} NamedOfAppend(charges: seq<Charge>, c: Charge)
    requires c.id != ""
    ensures Named(charges + [c]) == Named(charges) + [c]
  {
    if charges == [] {
      assert Named([c]) == [c] + Named([]);
      assert charges + [c] == [c];
    } else {
      assert (charges + [c])[1..] == charges[1..] + [c];
      NamedOfAppend(charges[1..], c);
      assert charges[0].id != "" ==>
        [charges[0]] + (Named(charges[1..]) + [c]) == ([charges[0]] + Named(charges[1..])) + [c];
    }
  }

  // ---- charges only move forward ---------------------------------------------------------------------

  function Rank(s: ChargeStatus): nat { match s case Charged => 0 case Refunded => 1 case Settled => 2 }

  /** Later charges extend earlier ones, keep their ids and units, and never step back in status. */
  ghost predicate Extends(before: seq<Charge>, after: seq<Charge>)
  {
    |before| <= |after| && forall k :: 0 <= k < |before| ==>
      after[k].id == before[k].id && after[k].units == before[k].units
        && Rank(before[k].status) <= Rank(after[k].status)
  }

  ghost predicate AllNamed(charges: seq<Charge>) { forall k :: 0 <= k < |charges| ==> charges[k].id != "" }

  lemma {:induction false} NamedOfAllNamed(charges: seq<Charge>)
    requires AllNamed(charges)
    ensures Named(charges) == charges
  {
    if charges != [] { NamedOfAllNamed(charges[1..]); }
  }

  lemma {:induction false} MissingIsNew(records: seq<string>, present: set<string>)
    ensures Distinct(Missing(records, present))
    ensures forall x :: x in Missing(records, present) <==> x in records && x != "" && x !in present
    decreases |records|
  {
    if records != [] {
      MissingIsNew(records[1..], present);
      MissingIsNew(records[1..], present + {records[0]});
    }
  }

  predicate Clears(e: Event, a: Account, today: Day) { e.ResetQuota? || (e.DailyReset? && a.resetOn != Some(today)) }

  /** What a ledger operation may do to its charges. */
  ghost predicate Grows(before: Book, after: Book) { AllNamed(after.charges) && Extends(before.charges, after.charges) }

  lemma ChargingGrows(b: Book, id: string, cost: int)
    requires AllNamed(b.charges) && id != ""
    ensures Grows(b, ChargeBook(b, id, cost))
  {
    NamedOfAllNamed(b.charges);
  }

  lemma ClosingGrows(b: Book, id: string, status: ChargeStatus)
    requires AllNamed(b.charges) && status != Charged
    ensures Grows(b, CloseBook(b, id, status).0)
  {
  }

  lemma TimeOutGrows(b: Book, id: string)
    requires AllNamed(b.charges) && id != ""
    ensures Grows(b, TimeOutBook(b, id))
  {
    NamedOfAllNamed(b.charges);
  }

  lemma RepairGrows(b: Book)
    requires AllNamed(b.charges)
    ensures Grows(b, ReconcileBook(b).0) && Grows(b, Recomputed(Initialize(b)))
  {
    NamedOfAllNamed(b.charges);
  }

  lemma ExhaustionGrows(b: Book, id: string, limit: int)
    requires AllNamed(b.charges)
    ensures Grows(b, ExhaustBook(b, id, limit))
  {
  }

  lemma StudioExhaustionGrows(b: Book, id: string, limit: int)
    requires AllNamed(b.charges) && id != ""
    ensures Grows(b, ExhaustStudioBook(b, id, limit))
  {
    NamedOfAllNamed(b.charges);
  }

  lemma SuccessGrows(b: Book, records: seq<string>)
    requires AllNamed(b.charges)
    ensures Grows(b, ReconcileSuccess(b, records))
  {
    NamedOfAllNamed(b.charges);
    var missing := Missing(records, Ids(b.charges));
    MissingIsNew(records, Ids(b.charges));
    assert forall i :: 0 <= i < |missing| ==> missing[i] in missing;
  }

  ghost predicate BothGrow(a: Account, r: Account) { Grows(a.quota, r.quota) && Grows(a.studio, r.studio) }

  lemma AccountOperationsGrow(a: Account, id: string, today: Day)
    requires BothGrow(a, a)
    ensures BothGrow(a, Refund(a, id).0) && BothGrow(a, Settle(a, id).0)
    ensures BothGrow(a, TimeOut(a, id, today)) && BothGrow(a, Exhaust(a, id, today))
  {
    forall b | b == a.quota || b == a.studio
      ensures Grows(b, CloseBook(b, id, Refunded).0) && Grows(b, CloseBook(b, id, Settled).0)
      ensures id != "" ==> Grows(b, TimeOutBook(b, id))
      ensures forall limit {:trigger ExhaustBook(b, id, limit)} :: Grows(b, ExhaustBook(b, id, limit))
      ensures id != "" ==>
        forall limit {:trigger ExhaustStudioBook(b, id, limit)} :: Grows(b, ExhaustStudioBook(b, id, limit))
    {
      ClosingGrows(b, id, Refunded);
      ClosingGrows(b, id, Settled);
      if id != "" { TimeOutGrows(b, id); }
      forall limit
        ensures Grows(b, ExhaustBook(b, id, limit)) && (id != "" ==> Grows(b, ExhaustStudioBook(b, id, limit)))
      {
        ExhaustionGrows(b, id, limit);
        if id != "" { StudioExhaustionGrows(b, id, limit); }
      }
    }
  }

  lemma StepOnlyExtends(a: Account, e: Event, today: Day)
    requires BothGrow(a, a) && !Clears(e, a, today) && (e.Claim? ==> e.claimId != "")
    ensures BothGrow(a, Step(a, e, today))
  {
    match e
    case RefundCharge(id) => AccountOperationsGrow(a, id, today);
    case SettleCharge(id) => AccountOperationsGrow(a, id, today);
    case TimeOutCharge(id) => AccountOperationsGrow(a, id, today);
    case ExhaustQuota(id) => AccountOperationsGrow(a, id, today);
    case Claim(_, id, cost) =>
      ChargingGrows(a.quota, id, Max(1, cost));
      ChargingGrows(a.studio, id, Max(1, cost));
    case SuccessRecords(records) => SuccessGrows(a.quota, records);
    case DailyReset => RepairGrows(a.quota); RepairGrows(a.studio);
    case ReconcilePass => RepairGrows(a.quota); RepairGrows(a.studio);
    case SyncStudioCredit(_, _) => RepairGrows(a.studio);
    case MarkUsed =>
    case EditLimits(_, _) =>
  }

  ghost predicate NeverCleared(a: Account, es: seq<DatedEvent>)
    decreases |es|
  {
    es != [] ==>
      && !Clears(es[0].event, a, es[0].today) && (es[0].event.Claim? ==> es[0].event.claimId != "")
      && NeverCleared(Step(a, es[0].event, es[0].today), es[1..])
  }

  /** Between two resets a charge is never dropped or repriced, and a settled one stays settled. */
  lemma {:induction false} RunOnlyExtends(a: Account, es: seq<DatedEvent>)
    requires BothGrow(a, a) && NeverCleared(a, es)
    ensures Extends(a.quota.charges, Run(a, es).quota.charges)
    ensures Extends(a.studio.charges, Run(a, es).studio.charges)
    decreases |es|
  {
    if es != [] {
      var next := Step(a, es[0].event, es[0].today);
      StepOnlyExtends(a, es[0].event, es[0].today);
      RunOnlyExtends(next, es[1..]);
      assert forall k :: 0 <= k < |a.quota.charges| ==> next.quota.charges[k].id == a.quota.charges[k].id;
      assert forall k :: 0 <= k < |a.studio.charges| ==> next.studio.charges[k].id == a.studio.charges[k].id;
    }
  }

  // ---- the remote credit ------------------------------------------------------------------------------

  lemma PendingIsActive(charges: seq<Charge>, id: string)
    ensures 0 <= PendingUnits(charges, id) <= ActiveUnits(charges)
  {
    match FindCharge(charges, id, false)
    case None =>
    case Some(i) =>
      ActiveOfUpdate(charges, i, charges[i].(status := Refunded));
  }

  /** Right after a synchronisation the pending claim is the only local consumption. */
  lemma SyncShowsCreditLessPending(a: Account, available: nat, pendingId: string, today: Day)
    requires a.qianwen && Consistent(a)
    ensures var r := Step(a, SyncStudioCredit(available, pendingId), today);
      && Consistent(r)
      && SyncedRemaining(r, today) == Some(Max(0, available - PendingUnits(Named(a.studio.charges), pendingId)))
      && CreditLaw(r, available, today)
  {
    StepKeepsConsistent(a, SyncStudioCredit(available, pendingId), today);
    PendingIsActive(Named(a.studio.charges), pendingId);
  }

  /** The state of a synchronised account: the limit still is what the synchronisation set. */
  ghost predicate Synced(a: Account, available: nat, today: Day)
  {
    a.sync.Some? && a.sync.value.date == today && a.sync.value.available == available
    && a.studio.initialized
    && (a.sync.value.usedAtSync + available > 0 ==> a.studioLimit == a.sync.value.usedAtSync + available)
  }

  ghost predicate CreditLaw(a: Account, available: nat, today: Day)
  {
    Synced(a, available, today)
    && SyncedRemaining(a, today) == Some(Min(available, Max(0, a.studioLimit - a.studio.used)))
  }

  lemma SyncedMeetsLaw(a: Account, available: nat, today: Day)
    requires Consistent(a) && Synced(a, available, today)
    ensures CreditLaw(a, available, today)
  {
  }

  lemma StepKeepsSynced(a: Account, e: Event, available: nat, today: Day)
    requires Consistent(a) && Synced(a, available, today) && !Drift(e)
    requires !e.SyncStudioCredit? && !e.EditLimits?
    ensures Synced(Step(a, e, today), available, today)
  {
  }

  /**
   * From a synchronisation with `available` credit until the next one or a limit edit, on the same
   * day: the remaining credit is the smaller of what was available and what the limit leaves.
   */
  lemma {:induction false} RunKeepsCreditLaw(a: Account, es: seq<DatedEvent>, available: nat, today: Day)
    requires Consistent(a) && CreditLaw(a, available, today)
    requires forall k :: 0 <= k < |es| ==>
      es[k].today == today && !Drift(es[k].event) && !es[k].event.SyncStudioCredit? && !es[k].event.EditLimits?
    ensures CreditLaw(Run(a, es), available, today)
    decreases |es|
  {
    if es != [] {
      StepKeepsConsistent(a, es[0].event, today);
      StepKeepsSynced(a, es[0].event, available, today);
      SyncedMeetsLaw(Step(a, es[0].event, today), available, today);
      RunKeepsCreditLaw(Step(a, es[0].event, today), es[1..], available, today);
    }
  }

  // ---- reconciliation ----------------------------------------------------------------------------------

  lemma ReconcileIsIdempotent(b: Book)
    requires b.initialized
    ensures var r := ReconcileBook(b).0;
      Sound(r) && r.initialized && ReconcileBook(r) == (r, false)
  {
    ActiveOfNamed(b.charges);
  }

  /** One pass repairs the second ledger only if the first needed no repair. */
  lemma OnePassRepairsExactly(a: Account)
    requires a.quota.initialized && a.studio.initialized && a.qianwen
    ensures var r := ReconcileOnce(a).0;
      Sound(r.quota) && (ReconcileBook(r.studio) == (r.studio, false) <==>
        !ReconcileBook(a.quota).1 || ReconcileBook(a.studio) == (a.studio, false))
  {
    ReconcileIsIdempotent(a.quota);
    ReconcileIsIdempotent(a.studio);
  }

  /** Two passes repair both ledgers from any state; a third one finds nothing to do. */
  lemma TwoPassesReachFixpoint(a: Account)
    requires a.quota.initialized && a.studio.initialized && a.qianwen
    ensures var second := ReconcileOnce(ReconcileOnce(a).0).0;
      Sound(second.quota) && Sound(second.studio) && ReconcileOnce(second) == (second, false)
  {
    ReconcileIsIdempotent(a.quota);
    ReconcileIsIdempotent(a.studio);
  }

  lemma IdsOfSum(a: seq<Charge>, b: seq<Charge>)
    ensures Ids(a + b) == Ids(a) + Ids(b)
  {
    forall x ensures x in Ids(a + b) <==> x in Ids(a) + Ids(b) {
      assert forall c :: c in a + b <==> c in a || c in b;
    }
  }

  lemma SuccessAddsMissing(b: Book, records: seq<string>)
    requires Sound(b)
    ensures var missing := |Missing(records, Ids(Named(b.charges)))|;
      Sound(ReconcileSuccess(b, records))
      && ReconcileSuccess(b, records).used == (if b.initialized then b.used + missing else Max(b.used, missing))
  {
    var existing := Named(b.charges);
    var missing := Missing(records, Ids(existing));
    MissingIsNew(records, Ids(existing));
    assert forall i :: 0 <= i < |missing| ==> missing[i] in missing;
    ActiveOfNamed(b.charges);
    ActiveOfSettled(missing);
    ActiveOfSum(existing, SettledCharges(missing));
  }

  lemma {:induction false} NoneIsMissing(records: seq<string>, present: set<string>)
    requires forall x :: x in records ==> x == "" || x in present
    ensures Missing(records, present) == []
  {
    if records != [] { NoneIsMissing(records[1..], present); }
  }

  lemma NothingIsMissing(existing: seq<Charge>, missing: seq<string>, records: seq<string>)
    requires AllNamed(existing) && missing == Missing(records, Ids(existing))
    ensures Missing(records, Ids(Named(existing + SettledCharges(missing)))) == []
  {
    var added := SettledCharges(missing);
    MissingIsNew(records, Ids(existing));
    assert forall i :: 0 <= i < |missing| ==> missing[i] in missing;
    NamedOfAllNamed(existing + added);
    IdsOfSum(existing, added);
    forall x | x in missing ensures x in Ids(added) {
      var i :| 0 <= i < |missing| && missing[i] == x;
      assert added[i] in added && added[i].id == x;
    }
    NoneIsMissing(records, Ids(existing + added));
  }

  lemma NamedIsAllNamed(charges: seq<Charge>)
    ensures AllNamed(Named(charges))
  {
    ActiveOfNamed(charges);
    forall k | 0 <= k < |Named(charges)| ensures Named(charges)[k].id != "" {
      assert Named(charges)[k] in Named(charges);
    }
  }

  /** How many charges a list of success records adds, and that a second application adds none. */
  lemma SuccessReconciliation(b: Book, records: seq<string>)
    requires Sound(b)
    ensures var missing := |Missing(records, Ids(Named(b.charges)))|;
      var r := ReconcileSuccess(b, records);
      && Sound(r)
      && r.used == (if b.initialized then b.used + missing else Max(b.used, missing))
      && ReconcileSuccess(r, records) == r
  {
    SuccessAddsMissing(b, records);
    NamedIsAllNamed(b.charges);
    NothingIsMissing(Named(b.charges), Missing(records, Ids(Named(b.charges))), records);
  }

  // ---- the same generation on both ledgers -----------------------------------------------------------

  /** The ledger counts a charge with this id: it is there and was not refunded. */
  ghost predicate CountsCharge(b: Book, id: string)
  {
    exists c :: c in b.charges && c.id == id && c.status != Refunded
  }

  ghost predicate PaidTwice(a: Account, id: string) { CountsCharge(a.quota, id) && CountsCharge(a.studio, id) }

  lemma OneMissing(id: string, present: set<string>)
    requires id != ""
    ensures Missing([id], present) == if id in present then [] else [id]
  {
    assert [id][1..] == [];
  }

  /**
   * One success record charges one unit on an opened ledger exactly when its id is not listed, in any status;
   * an unopened ledger, which lists nothing, is raised to one unit at least. Either way a new id counts then.
   */
  lemma SuccessChargesExactly(b: Book, id: string)
    requires Sound(b) && id != ""
    ensures var r := ReconcileSuccess(b, [id]);
      && (b.initialized ==> (r.used == b.used + 1 <==> id !in Ids(Named(b.charges))))
      && (b.initialized && id in Ids(Named(b.charges)) ==> r == b)
      && (!b.initialized ==> r.used == Max(b.used, 1))
      && (CountsCharge(r, id) <==> id !in Ids(Named(b.charges)) || CountsCharge(b, id))
  {
    var existing := Named(b.charges);
    SuccessAddsMissing(b, [id]);
    OneMissing(id, Ids(existing));
    if id !in Ids(existing) { NewSuccessCounts(b, id); }
  }

  lemma NewSuccessCounts(b: Book, id: string)
    requires id != "" && id !in Ids(Named(b.charges))
    ensures CountsCharge(ReconcileSuccess(b, [id]), id)
  {
    OneMissing(id, Ids(Named(b.charges)));
    var r := ReconcileSuccess(b, [id]);
    assert SettledCharges([id])[0] == Charge(id, 0, Settled);
    assert r.charges == Named(b.charges) + SettledCharges([id]);
    assert Charge(id, 0, Settled) in r.charges;
  }

  lemma CountedIsListed(b: Book, id: string)
    requires id != "" && CountsCharge(b, id)
    ensures id in Ids(Named(b.charges))
  {
    ActiveOfNamed(b.charges);
  }

  /**
   * A success record does not look at the studio ledger. It makes both ledgers count the same generation
   * exactly when the first one does not list the id and the studio one has it charged or settled.
   */
  lemma StudioSuccessIsPaidTwiceExactly(a: Account, id: string, today: Day)
    requires Consistent(a) && id != ""
    ensures var r := Step(a, SuccessRecords([id]), today);
      && r.studio == a.studio
      && (!PaidTwice(a, id) && PaidTwice(r, id) <==> id !in Ids(Named(a.quota.charges)) && CountsCharge(a.studio, id))
      && (if a.quota.initialized then r.quota.used == a.quota.used + 1 <==> id !in Ids(Named(a.quota.charges))
          else r.quota.used == Max(a.quota.used, 1))
  {
    SuccessChargesExactly(a.quota, id);
    if CountsCharge(a.quota, id) { CountedIsListed(a.quota, id); }
  }

  lemma ClaimThenSettle(b: Book, id: string, cost: int)
    requires Sound(b) && cost >= 1 && id != "" && Fresh(b.charges, id)
    ensures CountsCharge(CloseBook(ChargeBook(b, id, cost), id, Settled).0, id)
  {
    var kept := Named(b.charges);
    ActiveOfNamed(b.charges);
    assert Fresh(kept, id) by {
      forall k | 0 <= k < |kept| ensures kept[k].id != id { assert kept[k] in kept; }
    }
    ChargeBookAdds(b, id, cost);
    FindAppended(kept, Charge(id, cost, Charged), true);
    ClosedCharge(ChargeBook(b, id, cost), kept, id, cost, Settled);
    var settled := CloseBook(ChargeBook(b, id, cost), id, Settled).0;
    assert settled.charges[|kept|] == Charge(id, cost, Settled);
    assert settled.charges[|kept|] in settled.charges;
  }

  lemma SettledStudioClaim(a: Account, id: string, cost: int, today: Day)
    requires Consistent(a) && IsStudioCharge(id) && Fresh(a.studio.charges, id)
    requires ClaimAllowed(a, true, Max(1, cost), today)
    ensures var r := Step(Step(a, Claim(true, id, cost), today), SettleCharge(id), today);
      r.quota == a.quota && CountsCharge(r.studio, id)
  {
    assert id != "";
    ClaimThenSettle(a.studio, id, Max(1, cost));
  }

  /** The plain life of a studio claim ends so: claimed, settled by its result, and paid again by its success record. */
  lemma SettledStudioClaimIsPaidTwice(a: Account, id: string, cost: int, today: Day)
    requires Consistent(a) && IsStudioCharge(id)
    requires Fresh(a.studio.charges, id) && Fresh(a.quota.charges, id)
    requires ClaimAllowed(a, true, Max(1, cost), today)
    ensures var settled := Step(Step(a, Claim(true, id, cost), today), SettleCharge(id), today);
      var r := Step(settled, SuccessRecords([id]), today);
      && PaidTwice(r, id) && r.studio == settled.studio
      && r.quota.used == if a.quota.initialized then a.quota.used + 1 else Max(a.quota.used, 1)
  {
    var charged := Step(a, Claim(true, id, cost), today);
    var settled := Step(charged, SettleCharge(id), today);
    SettledStudioClaim(a, id, cost, today);
    StepKeepsConsistent(a, Claim(true, id, cost), today);
    StepKeepsConsistent(charged, SettleCharge(id), today);
    assert id !in Ids(Named(a.quota.charges)) by { ActiveOfNamed(a.quota.charges); }
    StudioSuccessIsPaidTwiceExactly(settled, id, today);
  }

  /** A new account of the studio platform: only its studio ledger is open, and nothing is used. */
  predicate NewStudioAccount(a: Account)
  {
    && a.qianwen && !a.quota.initialized && a.quota.charges == [] && a.quota.used == 0
    && a.studio.initialized && a.studio.charges == [] && a.studio.base == 0 && a.studio.used == 0 && a.sync.None?
  }

  lemma StudioUseAfterSettlement(a: Account, id: string, cost: int, today: Day)
    requires Consistent(a) && IsStudioCharge(id) && Fresh(a.studio.charges, id)
    requires ClaimAllowed(a, true, Max(1, cost), today)
    ensures Step(Step(a, Claim(true, id, cost), today), SettleCharge(id), today).studio.used
         == a.studio.used + Max(1, cost)
  {
    ChargeLifeCycle(a.studio, id, Max(1, cost));
    ChargeBookAdds(a.studio, id, Max(1, cost));
  }

  /** A new account is one whose studio ledger is open and empty while the first one waits. */
  lemma NewAccountIsUnused(a: Account, id: string)
    requires NewStudioAccount(a)
    ensures Unused(a, id)
  {
  }

  /** Nothing was used on either ledger, and the first one was never opened. */
  ghost predicate Unused(a: Account, id: string)
  {
    && Consistent(a) && !a.quota.initialized && a.quota.used == 0 && a.studio.used == 0
    && Fresh(a.studio.charges, id) && Fresh(a.quota.charges, id)
  }

  /** So it goes already with the first studio generation of a new account, whose first ledger nobody has opened. */
  lemma FirstStudioClaimIsPaidTwice(a: Account, id: string, cost: int, today: Day)
    requires Unused(a, id) && IsStudioCharge(id) && ClaimAllowed(a, true, Max(1, cost), today)
    ensures var settled := Step(Step(a, Claim(true, id, cost), today), SettleCharge(id), today);
      var r := Step(settled, SuccessRecords([id]), today);
      PaidTwice(r, id) && r.studio.used == Max(1, cost) && r.quota.used == 1
  {
    SettledStudioClaimIsPaidTwice(a, id, cost, today);
    StudioUseAfterSettlement(a, id, cost, today);
  }
}
