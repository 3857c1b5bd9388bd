/** What each accounting call means for an account, stated over the entries of its ledgers. */
module LedgerCalls {
  import opened Util
  import opened Ledger
  import opened LedgerRuns

  predicate ForStudio(id: string) { |id| >= 7 && id[..7] == "studio:" }

  /** The ledger that a charge id names by its prefix, and the account with that ledger replaced. */
  function BookOf(a: Account, id: string): Book { if ForStudio(id) then a.studio else a.quota }

  function With(a: Account, id: string, b: Book): Account
  {
    if ForStudio(id) then a.(studio := b) else a.(quota := b)
  }

  /** Entry `i` is the only open charge with this id. */
  ghost predicate OnlyOpen(charges: seq<Charge>, id: string, i: nat)
  {
    && i < |charges| && charges[i].id == id && charges[i].status == Charged
    && forall k :: 0 <= k < |charges| && k != i ==> charges[k].id != id || charges[k].status != Charged
  }

  ghost predicate NoneOpen(charges: seq<Charge>, id: string)
  {
    forall k :: 0 <= k < |charges| ==> charges[k].id != id || charges[k].status != Charged
  }

  ghost predicate Unlisted(charges: seq<Charge>, id: string)
  {
    forall k :: 0 <= k < |charges| ==> charges[k].id != id
  }

  /** The units that a charge stands for. */
  function UnitsOf(c: Charge): int { if c.units > 1 then c.units else 1 }

  lemma FindsOnlyOpen(charges: seq<Charge>, id: string, i: nat)
    requires id != "" && OnlyOpen(charges, id, i)
    ensures FindCharge(charges, id, true) == Some(i)
  {
    var at := FindCharge(charges, id, true);
    assert at.Some? ==> charges[at.value].id == id && charges[at.value].status == Charged;
  }

  lemma FindsFirst(charges: seq<Charge>, id: string, i: nat)
    requires id != "" && i < |charges| && charges[i].id == id && Unlisted(charges[..i], id)
    ensures FindCharge(charges, id, false) == Some(i)
  {
    assert forall k :: 0 <= k < i ==> charges[..i][k] == charges[k];
  }

  lemma FindsNone(charges: seq<Charge>, id: string)
    requires NoneOpen(charges, id)
    ensures FindCharge(charges, id, true) == None
  {
  }

  /** The charge that is closed, what becomes of the cached value, and that the rest stays. */
  lemma ClosingMeans(b: Book, id: string, i: nat, status: ChargeStatus)
    requires Sound(b) && b.initialized && id != "" && OnlyOpen(b.charges, id, i) && status != Charged
    ensures var used := b.used - (if status == Refunded then UnitsOf(b.charges[i]) else 0);
      CloseBook(b, id, status) ==
        (b.(charges := b.charges[i := Charge(id, b.charges[i].units, status)], used := used), true)
  {
    FindsOnlyOpen(b.charges, id, i);
    var after := Charge(id, b.charges[i].units, status);
    ActiveOfUpdate(b.charges, i, after);
  }

  // ---- refunds ----------------------------------------------------------------------------------------

  /** A refund gives back exactly the units of the open charge, and touches nothing else of the account. */
  lemma RefundGivesBack(a: Account, id: string, i: nat)
    requires Consistent(a) && id != "" && BookOf(a, id).initialized && OnlyOpen(BookOf(a, id).charges, id, i)
    ensures var b := BookOf(a, id);
      var c := b.charges[i];
      Refund(a, id) ==
        (With(a, id, b.(charges := b.charges[i := Charge(id, c.units, Refunded)], used := b.used - UnitsOf(c))), true)
  {
    PrefixMeans(id);
    ClosingMeans(BookOf(a, id), id, i, Refunded);
  }

  lemma PrefixMeans(id: string)
    ensures IsStudioCharge(id) <==> ForStudio(id)
  {
  }

  /** Without an open charge an opened ledger gives nothing back. */
  lemma RefundNeedsOpenCharge(a: Account, id: string)
    requires BookOf(a, id).initialized && NoneOpen(BookOf(a, id).charges, id)
    ensures Refund(a, id) == (a, false)
  {
    PrefixMeans(id);
    FindsNone(BookOf(a, id).charges, id);
  }

  /** A studio refund never touches an unopened ledger. */
  lemma UnopenedStudioRefundsNothing(a: Account, id: string)
    requires ForStudio(id) && !a.studio.initialized
    ensures Refund(a, id) == (a, false)
  {
    PrefixMeans(id);
  }

  /** A second refund of the same charge answers false and changes nothing. */
  lemma RefundOnlyOnce(a: Account, id: string, i: nat)
    requires Consistent(a) && id != "" && BookOf(a, id).initialized && OnlyOpen(BookOf(a, id).charges, id, i)
    ensures Refund(Refund(a, id).0, id) == (Refund(a, id).0, false)
  {
    RefundGivesBack(a, id, i);
    RefundNeedsOpenCharge(Refund(a, id).0, id);
  }

  /** Before the first ledger is opened, a refund lowers the usage by one, once for each id. */
  lemma UnopenedRefundCountsOnce(a: Account, id: string)
    requires !ForStudio(id) && !a.quota.initialized && a.quota.used >= 0 && id != ""
    ensures id in a.refundIds ==> Refund(a, id) == (a, false)
    ensures id !in a.refundIds ==>
      var (r, done) := Refund(a, id);
      && done && r.quota == a.quota.(used := if a.quota.used > 0 then a.quota.used - 1 else 0)
      && r.studio == a.studio && Refund(r, id) == (r, false)
  {
    PrefixMeans(id);
    if id !in a.refundIds {
      var r := Refund(a, id).0;
      assert r.refundIds[|r.refundIds| - 1] == id;
    }
  }

  lemma FreshIsUnlisted(charges: seq<Charge>, id: string)
    requires Unlisted(charges, id)
    ensures Unlisted(Named(charges), id)
  {
    ActiveOfNamed(charges);
    forall k | 0 <= k < |Named(charges)| ensures Named(charges)[k].id != id { assert Named(charges)[k] in charges; }
  }

  // ---- claims ---------------------------------------------------------------------------------------------

  /** An admitted claim appends one open charge of its cost; a refused one changes nothing. */
  lemma ClaimMeans(a: Account, studio: bool, id: string, cost: int, today: Day)
    requires Consistent(a) && id != ""
    ensures var b := if studio then a.studio else a.quota;
      var paid := if cost > 1 then cost else 1;
      var charges := Named(b.charges) + [Charge(id, paid, Charged)];
      var claimed := Book(true, if b.initialized then b.base else b.used, charges, b.used + paid);
      Step(a, Claim(studio, id, cost), today) ==
        if !ClaimAllowed(a, studio, paid, today) then a
        else if studio then a.(studio := claimed) else a.(quota := claimed)
  {
    ChargeBookAdds(if studio then a.studio else a.quota, id, Max(1, cost));
  }

  /**
   * A claim is admitted exactly when the ledger is not marked exhausted for the day and the cost fits: into
   * what the credit of the day leaves, or else into the limit, if there is one.
   */
  lemma ClaimIsAdmittedExactly(a: Account, studio: bool, cost: nat, today: Day)
    requires Consistent(a)
    ensures ClaimAllowed(a, studio, cost, today) <==>
      && (studio ==> a.qianwen && a.studioExhaustedOn != Some(today))
      && (!studio ==> a.exhaustedOn != Some(today))
      && (if studio && a.sync.Some? && a.sync.value.date == today
          then cost == 0 || (a.studio.used <= a.sync.value.usedAtSync && cost <= a.sync.value.available)
               || (a.studio.used > a.sync.value.usedAtSync
                   && cost + (a.studio.used - a.sync.value.usedAtSync) <= a.sync.value.available)
          else if studio then a.studioLimit == 0 || a.studio.used + cost <= a.studioLimit
          else a.limit == 0 || a.quota.used + cost <= a.limit)
  {
  }

  /** A claim that is refunded leaves both cached values as they were. */
  lemma ClaimThenRefund(a: Account, id: string, cost: int, today: Day)
    requires Consistent(a) && id != "" && Unlisted(BookOf(a, id).charges, id)
    requires ClaimAllowed(a, ForStudio(id), if cost > 1 then cost else 1, today)
    ensures var claimed := Step(a, Claim(ForStudio(id), id, cost), today);
      var r := Step(claimed, RefundCharge(id), today);
      && r.quota.used == a.quota.used && r.studio.used == a.studio.used
      && (claimed.quota.used, claimed.studio.used) != (a.quota.used, a.studio.used)
  {
    var studio := ForStudio(id);
    PrefixMeans(id);
    ClaimMeans(a, studio, id, cost, today);
    FreshIsUnlisted(BookOf(a, id).charges, id);
    var claimed := Step(a, Claim(studio, id, cost), today);
    StepKeepsConsistent(a, Claim(studio, id, cost), today);
    var i := |Named(BookOf(a, id).charges)|;
    assert OnlyOpen(BookOf(claimed, id).charges, id, i);
    RefundGivesBack(claimed, id, i);
  }

  // ---- settlements ------------------------------------------------------------------------------------------

  /** A settlement makes the open charge final and moves no unit. */
  lemma SettleIsFinal(a: Account, id: string, i: nat, today: Day)
    requires Consistent(a) && id != "" && BookOf(a, id).initialized && OnlyOpen(BookOf(a, id).charges, id, i)
    ensures var b := BookOf(a, id);
      var r := With(a, id, b.(charges := b.charges[i := Charge(id, b.charges[i].units, Settled)]));
      Settle(a, id) == (r, true) && Step(a, SettleCharge(id), today) == r && Refund(r, id) == (r, false)
  {
    PrefixMeans(id);
    ClosingMeans(BookOf(a, id), id, i, Settled);
    var b := BookOf(a, id);
    RefundNeedsOpenCharge(With(a, id, b.(charges := b.charges[i := Charge(id, b.charges[i].units, Settled)])), id);
  }

  lemma SettleNeedsOpenCharge(a: Account, id: string, today: Day)
    requires NoneOpen(BookOf(a, id).charges, id)
    ensures Settle(a, id) == (a, false) && Step(a, SettleCharge(id), today) == a
  {
    PrefixMeans(id);
    FindsNone(BookOf(a, id).charges, id);
  }

  // ---- exhaustion ---------------------------------------------------------------------------------------------

  /** A limit of the account as an exhaustion takes it. */
  function AtLeastOne(n: int): int { if n > 1 then n else 1 }

  /** The charges after an exhaustion: the open one is given back. */
  ghost predicate GivenBack(before: seq<Charge>, after: seq<Charge>, id: string, i: nat)
    requires OnlyOpen(before, id, i)
  {
    after == before[i := Charge(id, before[i].units, Refunded)]
  }

  /** What filling a ledger makes of it: the limit is used up, and only the base was raised for it. */
  lemma FillingMeans(b: Book, charges: seq<Charge>, limit: int)
    requires limit >= 1
    ensures var r := FilledBook(b, charges, limit);
      && r.charges == charges && r.initialized == b.initialized && r.used >= limit
      && r.used == (if ActiveUnits(charges) > limit then ActiveUnits(charges) else limit)
      && r.base >= 0 && r.used == r.base + ActiveUnits(charges)
  {
  }

  /**
   * Running out of quota on an opened first ledger gives the open charge back, uses the limit up, marks the
   * day, and refuses every further claim of that day.
   */
  lemma ExhaustionFillsQuota(a: Account, id: string, i: nat, today: Day)
    requires Consistent(a) && id != "" && !ForStudio(id) && a.quota.initialized
    requires OnlyOpen(a.quota.charges, id, i)
    ensures var r := Step(a, ExhaustQuota(id), today);
      && GivenBack(a.quota.charges, r.quota.charges, id, i)
      && r.limit == AtLeastOne(a.limit) && r.quota.used >= r.limit && r.exhaustedOn == Some(today)
      && r.studio == a.studio && forall cost :: !ClaimAllowed(r, false, cost, today)
  {
    PrefixMeans(id);
    FindsOnlyOpen(a.quota.charges, id, i);
    FillingMeans(a.quota, a.quota.charges[i := Charge(id, a.quota.charges[i].units, Refunded)], AtLeastOne(a.limit));
  }

  /** The same on the studio ledger. */
  lemma ExhaustionFillsStudio(a: Account, id: string, i: nat, today: Day)
    requires Consistent(a) && ForStudio(id) && a.studio.initialized && AllNamed(a.studio.charges)
    requires OnlyOpen(a.studio.charges, id, i) && forall k :: 0 <= k < i ==> a.studio.charges[k].id != id
    ensures var r := Step(a, ExhaustQuota(id), today);
      && GivenBack(a.studio.charges, r.studio.charges, id, i)
      && r.studioLimit == AtLeastOne(a.studioLimit) && r.studio.used >= r.studioLimit
      && r.studioExhaustedOn == Some(today) && r.quota == a.quota && forall cost :: !ClaimAllowed(r, true, cost, today)
  {
    PrefixMeans(id);
    NamedOfAllNamed(a.studio.charges);
    var at := FindCharge(a.studio.charges, id, false);
    assert at == Some(i);
    FillingMeans(Initialize(a.studio), a.studio.charges[i := Charge(id, a.studio.charges[i].units, Refunded)],
                 AtLeastOne(a.studioLimit));
  }

  /** Without a charge id only the cached value is raised, to the limit at least. */
  lemma ExhaustionWithoutCharge(a: Account, today: Day)
    ensures var r := Step(a, ExhaustQuota(""), today);
      && r.limit == AtLeastOne(a.limit) && r.exhaustedOn == Some(today) && r.studio == a.studio
      && r.quota == a.quota.(used := if a.quota.used > r.limit then a.quota.used else r.limit)
  {
  }

  /** The usage after a time-out: units given back before are taken again. */
  function TakenAgain(b: Book, i: nat): int
    requires i < |b.charges|
  {
    b.used + (if b.charges[i].status == Refunded then UnitsOf(b.charges[i]) else 0)
  }

  /** A time-out records an unknown charge as settled; it counts as one unit. */
  lemma TimeOutRecords(b: Book, id: string)
    requires Sound(b) && b.initialized && AllNamed(b.charges) && id != "" && Unlisted(b.charges, id)
    ensures var r := TimeOutBook(b, id);
      && |r.charges| == |b.charges| + 1 && b.charges <= r.charges && r.used == b.used + 1
      && r.charges[|b.charges|].id == id && r.charges[|b.charges|].status == Settled
  {
    NamedOfAllNamed(b.charges);
    NoneMatches(b.charges, id, false);
    ActiveOfSum(b.charges, [Charge(id, 0, Settled)]);
    ActiveOfOne(Charge(id, 0, Settled));
  }

  /** A time-out settles the first charge with the id. */
  lemma TimeOutSettlesCharge(b: Book, id: string, i: nat)
    requires Sound(b) && b.initialized && AllNamed(b.charges) && id != ""
    requires i < |b.charges| && b.charges[i].id == id && Unlisted(b.charges[..i], id)
    ensures TimeOutBook(b, id) ==
      b.(charges := b.charges[i := Charge(id, b.charges[i].units, Settled)], used := TakenAgain(b, i))
  {
    NamedOfAllNamed(b.charges);
    FindsFirst(b.charges, id, i);
    ActiveOfUpdate(b.charges, i, Charge(id, b.charges[i].units, Settled));
  }

  /** A timed-out generation stays paid on its ledger and puts the account out for the day. */
  lemma TimeOutSettles(a: Account, id: string, today: Day)
    requires id != ""
    ensures var r := Step(a, TimeOutCharge(id), today);
      if ForStudio(id) then
        && r.quota == a.quota && r.studioExhaustedOn == Some(today)
        && r.studio.charges == TimeOutBook(a.studio, id).charges
        && r.studio.used == AtLeastOne(TimeOutBook(a.studio, id).used) && r.studioLimit == AtLeastOne(a.studioLimit)
        && forall cost :: !ClaimAllowed(r, true, cost, today)
      else
        && r.studio == a.studio && r.exhaustedOn == Some(today) && r.quota == TimeOutBook(a.quota, id)
        && forall cost :: !ClaimAllowed(r, false, cost, today)
  {
    PrefixMeans(id);
  }

  lemma ActiveOfOne(c: Charge)
    ensures ActiveUnits([c]) == Counted(c)
  {
    assert [c][1..] == [];
  }

  // ---- resets ---------------------------------------------------------------------------------------------------

  ghost predicate Emptied(b: Book) { b.initialized && b.charges == [] && b.base == 0 && b.used == 0 }

  /** A reset empties the first ledger and, on the studio platform, the second one, with their exhaustion marks. */
  lemma ResetEmpties(a: Account, today: Day)
    ensures var r := Step(a, ResetQuota, today);
      && Emptied(r.quota) && r.exhaustedOn == None
      && (if a.qianwen then Emptied(r.studio) && r.studioExhaustedOn == None
          else r.studio == a.studio && r.studioExhaustedOn == a.studioExhaustedOn)
      && r.limit == a.limit && r.studioLimit == a.studioLimit && r.sync == a.sync && r.resetOn == a.resetOn
  {
  }

  /** The first pass of a day resets; a later one of the same day leaves sound ledgers alone. */
  lemma DailyResetOncePerDay(a: Account, today: Day)
    ensures a.resetOn != Some(today) ==>
      var r := Step(a, DailyReset, today);
      r.resetOn == Some(today) && Emptied(r.quota) && (a.qianwen ==> Emptied(r.studio))
    ensures a.resetOn == Some(today) && Consistent(a) && AllNamed(a.quota.charges) && AllNamed(a.studio.charges) ==>
      Step(a, DailyReset, today) == a
  {
    if AllNamed(a.quota.charges) { NamedOfAllNamed(a.quota.charges); }
    if AllNamed(a.studio.charges) { NamedOfAllNamed(a.studio.charges); }
  }

  // ---- the remote credit ----------------------------------------------------------------------------------

  /** The account after a synchronisation in which `pending` units of the running task are not consumed yet. */
  function Synchronised(a: Account, available: nat, pending: int, today: Day): Account
  {
    var consumed := if a.studio.used > pending then a.studio.used - pending else 0;
    a.(studioLimit := consumed + available, sync := Some(CreditSync(today, available, consumed)),
       studioExhaustedOn := if available < pending then a.studioExhaustedOn else None)
  }

  lemma PendingMeans(charges: seq<Charge>, id: string, i: nat)
    requires id != "" && i < |charges| && charges[i].id == id && Unlisted(charges[..i], id)
    ensures PendingUnits(charges, id) == if charges[i].status == Charged then UnitsOf(charges[i]) else 0
  {
    FindsFirst(charges, id, i);
  }

  lemma SyncIs(a: Account, available: nat, id: string, today: Day)
    requires a.qianwen && Consistent(a) && a.studio.initialized && AllNamed(a.studio.charges)
    ensures Step(a, SyncStudioCredit(available, id), today) ==
      Synchronised(a, available, PendingUnits(a.studio.charges, id), today)
  {
    NamedOfAllNamed(a.studio.charges);
  }

  /** The units of the first charge with the id are pending if it is open; the ledger itself stays. */
  lemma SyncMeans(a: Account, available: nat, id: string, i: nat, today: Day)
    requires a.qianwen && Consistent(a) && a.studio.initialized && AllNamed(a.studio.charges) && id != ""
    requires i < |a.studio.charges| && a.studio.charges[i].id == id && Unlisted(a.studio.charges[..i], id)
    ensures var c := a.studio.charges[i];
      Step(a, SyncStudioCredit(available, id), today) ==
        Synchronised(a, available, if c.status == Charged then UnitsOf(c) else 0, today)
  {
    SyncIs(a, available, id, today);
    PendingMeans(a.studio.charges, id, i);
  }

  lemma SyncWithoutCharge(a: Account, available: nat, id: string, today: Day)
    requires a.qianwen && Consistent(a) && a.studio.initialized && AllNamed(a.studio.charges)
    requires Unlisted(a.studio.charges, id)
    ensures Step(a, SyncStudioCredit(available, id), today) == Synchronised(a, available, 0, today)
  {
    SyncIs(a, available, id, today);
    NoneMatches(a.studio.charges, id, false);
  }
}
