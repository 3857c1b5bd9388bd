/** The stored account as the service updates it in place, each call tied to one `Step` of the ledger model. */
module AccountService {
  import opened Util
  import opened Ledger
  import opened LedgerRuns

  /** Sums the active units of a charge list. */
  method SumActive(charges: seq<Charge>) returns (total: int)
    ensures total == ActiveUnits(charges)
  {
    total := 0;
    for i := 0 to |charges|
      invariant total + ActiveUnits(charges[i..]) == ActiveUnits(charges)
    {
      if charges[i].id != "" && charges[i].status != Refunded {
        total := total + Max(1, charges[i].units);
      }
      assert charges[i..][1..] == charges[i + 1..];
    }
  }

  /** `_quota_charges`: the entries that are charges. */
  method KeepNamed(charges: seq<Charge>) returns (kept: seq<Charge>)
    ensures kept == Named(charges)
  {
    kept := [];
    for i := 0 to |charges|
      invariant kept + Named(charges[i..]) == Named(charges)
    {
      assert charges[i..][1..] == charges[i + 1..];
      if charges[i].id != "" {
        assert kept + ([charges[i]] + Named(charges[i + 1..])) == (kept + [charges[i]]) + Named(charges[i + 1..]);
        kept := kept + [charges[i]];
      }
    }
  }

  lemma {:induction false} FoundAt(charges: seq<Charge>, id: string, openOnly: bool, i: nat)
    requires i < |charges| && id != "" && charges[i].id == id && (openOnly ==> charges[i].status == Charged)
    requires forall k :: 0 <= k < i ==> charges[k].id != id || (openOnly && charges[k].status != Charged)
    ensures FindCharge(charges, id, openOnly) == Some(i)
  {
  }

  /** Scans for the first charge with this id. */
  method Locate(charges: seq<Charge>, id: string, openOnly: bool) returns (at: Option<nat>)
    ensures at == FindCharge(charges, id, openOnly)
  {
    if id == "" { return None; }
    for i := 0 to |charges|
      invariant forall k :: 0 <= k < i ==> charges[k].id != id || (openOnly && charges[k].status != Charged)
    {
      if charges[i].id == id && (!openOnly || charges[i].status == Charged) {
        FoundAt(charges, id, openOnly, i);
        return Some(i);
      }
    }
    NoneMatches(charges, id, openOnly);
    return None;
  }

  /** The records that are not present yet, each once. */
  method CollectMissing(records: seq<string>, known: set<string>) returns (missing: seq<string>)
    ensures missing == Missing(records, known)
  {
    missing := [];
    var present := known;
    for i := 0 to |records|
      invariant missing + Missing(records[i..], present) == Missing(records, known)
    {
      assert records[i..][1..] == records[i + 1..];
      if records[i] != "" && records[i] !in present {
        var next := present + {records[i]};
        assert missing + ([records[i]] + Missing(records[i + 1..], next)) ==
          (missing + [records[i]]) + Missing(records[i + 1..], next);
        missing := missing + [records[i]];
        present := next;
      }
    }
  }

  method AppendSettled(existing: seq<Charge>, ids: seq<string>) returns (charges: seq<Charge>)
    ensures charges == existing + SettledCharges(ids)
  {
    charges := existing;
    for i := 0 to |ids|
      invariant charges == existing + SettledCharges(ids)[..i]
    {
      charges := charges + [Charge(ids[i], 0, Settled)];
    }
  }

  /** The units of the first charge with this id, if it is still open. */
  method OpenUnits(charges: seq<Charge>, id: string) returns (units: int)
    ensures units == PendingUnits(charges, id)
  {
    var at := Locate(charges, id, false);
    if at.None? || charges[at.value].status != Charged { return 0; }
    return Max(1, charges[at.value].units);
  }

  class StoredAccount {
    const qianwen: bool
    var quota: Book
    var studio: Book
    var limit: int
    var studioLimit: int
    var exhaustedOn: Option<Day>
    var studioExhaustedOn: Option<Day>
    var resetOn: Option<Day>
    var refundIds: seq<string>
    var sync: Option<CreditSync>

    function State(): Account
      reads this
    {
      Account(qianwen, quota, studio, limit, studioLimit, exhaustedOn, studioExhaustedOn, resetOn, refundIds, sync)
    }

    /** A new account: a qianwen account opens its studio ledger at once, the other ledger waits. */
    constructor (qianwen: bool, quotaLimit: int, today: Day)
      ensures Consistent(State()) && this.qianwen == qianwen && limit == Max(0, quotaLimit)
      ensures quota == Book(false, 0, [], 0) && resetOn == Some(today) && sync == None
      ensures qianwen ==> NewStudioAccount(State())
    {
      this.qianwen := qianwen;
      quota, studio := Book(false, 0, [], 0), if qianwen then EmptyBook else Book(false, 0, [], 0);
      limit, studioLimit := Max(0, quotaLimit), 60;
      exhaustedOn, studioExhaustedOn, resetOn := None, None, Some(today);
      refundIds, sync := [], None;
    }

    /** `_initialize_quota_ledger` on either ledger. */
    method OpenBook(b: Book) returns (r: Book)
      ensures r == Initialize(b)
    {
      r := b;
      if !r.initialized {
        r := r.(base := Max(0, r.used), initialized := true);
      }
      var kept := KeepNamed(r.charges);
      r := r.(charges := kept);
    }

    method Recompute(b: Book) returns (r: Book)
      ensures r == Recomputed(b)
    {
      var active := SumActive(b.charges);
      r := b.(used := Max(0, b.base) + active);
    }

    /** Charges an account that the selection accepted; a refused claim changes nothing. */
    method ClaimForWorker(studioQuota: bool, id: string, cost: int, today: Day) returns (claimed: bool)
      modifies this
      ensures State() == Step(old(State()), Claim(studioQuota, id, cost), today)
      ensures claimed == ClaimAllowed(old(State()), studioQuota, Max(1, cost), today)
    {
      if !ClaimAllowed(State(), studioQuota, Max(1, cost), today) { return false; }
      var book := OpenBook(if studioQuota then studio else quota);
      book := book.(charges := book.charges + [Charge(id, Max(1, cost), Charged)]);
      book := Recompute(book);
      if studioQuota { studio := book; } else { quota := book; }
      return true;
    }

    /** Marks the first open charge with this id and recomputes the cached value. */
    method CloseOpenCharge(b: Book, id: string, status: ChargeStatus) returns (r: Book, done: bool)
      ensures (r, done) == CloseBook(b, id, status)
    {
      var at := Locate(b.charges, id, true);
      if at.None? { return b, false; }
      r := Recompute(b.(charges := b.charges[at.value := b.charges[at.value].(status := status)]));
      done := true;
    }

    method RefundQuota(id: string, today: Day) returns (done: bool)
      modifies this
      ensures (State(), done) == Refund(old(State()), id)
      ensures State() == Step(old(State()), RefundCharge(id), today)
    {
      if IsStudioCharge(id) {
        if !studio.initialized { return false; }
        studio, done := CloseOpenCharge(studio, id, Refunded);
        return;
      }
      if quota.initialized {
        quota, done := CloseOpenCharge(quota, id, Refunded);
        return;
      }
      if id != "" && id in refundIds { return false; }
      quota := quota.(used := Max(0, Max(0, quota.used) - 1));
      if id != "" {
        refundIds := refundIds + [id];
        if |refundIds| > LEGACY_REFUND_MEMORY {
          refundIds := refundIds[|refundIds| - LEGACY_REFUND_MEMORY..];
        }
      }
      return true;
    }

    method SettleQuota(id: string, today: Day) returns (done: bool)
      modifies this
      ensures State() == Step(old(State()), SettleCharge(id), today)
      ensures done == (id != "" && Settle(old(State()), id).1)
    {
      if id == "" { return false; }
      if IsStudioCharge(id) {
        studio, done := CloseOpenCharge(studio, id, Settled);
      } else {
        quota, done := CloseOpenCharge(quota, id, Settled);
      }
    }

    /** Settles the charge of a timed-out generation, recording it when it was never seen. */
    method SettleTimedOut(b: Book, id: string) returns (r: Book)
      ensures r == TimeOutBook(b, id)
    {
      r := OpenBook(b);
      var at := Locate(r.charges, id, false);
      if at.None? {
        r := r.(charges := r.charges + [Charge(id, 0, Settled)]);
      } else {
        r := r.(charges := r.charges[at.value := r.charges[at.value].(status := Settled)]);
      }
      r := Recompute(r);
    }

    method ExhaustTimedOut(id: string, today: Day)
      modifies this
      ensures State() == Step(old(State()), TimeOutCharge(id), today)
    {
      if IsStudioCharge(id) {
        studio := SettleTimedOut(studio, id);
        studioLimit := Max(1, studioLimit);
        studio := studio.(used := Max(1, studio.used));
        studioExhaustedOn := Some(today);
        return;
      }
      if id != "" {
        quota := SettleTimedOut(quota, id);
      } else {
        quota := quota.(used := Max(1, quota.used));
      }
      exhaustedOn := Some(today);
    }

    /** Raises the base so that the ledger reaches the limit. */
    method FillBook(b: Book, bound: int) returns (r: Book)
      ensures r == FilledBook(b, b.charges, bound)
    {
      var active := SumActive(b.charges);
      r := b.(base := Max(0, bound - active));
      r := r.(used := Max(bound, Max(0, r.base) + active));
    }

    method ExhaustAccount(id: string, today: Day)
      modifies this
      ensures State() == Step(old(State()), ExhaustQuota(id), today)
    {
      if IsStudioCharge(id) {
        var bound := Max(1, studioLimit);
        var book := OpenBook(studio);
        var at := Locate(book.charges, id, false);
        if at.None? {
          book := book.(charges := book.charges + [Charge(id, 0, Refunded)]);
        } else if book.charges[at.value].status == Charged {
          book := book.(charges := Marked(book.charges, at.value, Refunded));
        }
        studio := FillBook(book, bound);
        studioLimit := bound;
        studioExhaustedOn := Some(today);
        return;
      }
      var bound := Max(1, limit);
      limit := bound;
      if id != "" && quota.initialized {
        var book := quota;
        var at := Locate(book.charges, id, true);
        if at.Some? {
          book := book.(charges := Marked(book.charges, at.value, Refunded));
        }
        quota := FillBook(book, bound);
      } else {
        quota := quota.(used := Max(bound, quota.used));
      }
      exhaustedOn := Some(today);
    }

    method ResetAccountQuota(today: Day)
      modifies this
      ensures State() == Step(old(State()), ResetQuota, today)
    {
      quota, exhaustedOn := EmptyBook, None;
      if qianwen {
        studio, studioExhaustedOn := EmptyBook, None;
      }
    }

    method RepairBook(b: Book) returns (r: Book, changed: bool)
      ensures (r, changed) == ReconcileBook(b)
    {
      if !b.initialized { return b, false; }
      var kept := KeepNamed(b.charges);
      var active := SumActive(b.charges);
      var expected := Max(0, b.base) + active;
      changed := b.charges != kept || Max(0, b.used) != expected;
      ActiveOfNamed(b.charges);
      r := b.(charges := kept, used := expected);
    }

    /** One reconciliation pass: the second ledger is reached only when the first was in order. */
    method ReconcileQuotas(today: Day) returns (changed: bool)
      modifies this
      ensures (State(), changed) == ReconcileOnce(old(State()))
      ensures State() == Step(old(State()), ReconcilePass, today)
    {
      quota, changed := RepairBook(quota);
      if !changed && qianwen {
        studio, changed := RepairBook(studio);
      }
    }

    method ResetDailyIfNeeded(today: Day) returns (changed: bool)
      modifies this
      ensures State() == Step(old(State()), DailyReset, today)
      ensures changed == (old(resetOn) != Some(today) || ReconcileOnce(old(State())).1)
    {
      if resetOn == Some(today) {
        changed := ReconcileQuotas(today);
        return;
      }
      ResetAccountQuota(today);
      resetOn := Some(today);
      changed := true;
    }

    /** The charges of successful generations that are missing are added to the first ledger. */
    method ReconcileSuccessCharges(records: seq<string>, today: Day) returns (added: nat)
      modifies this
      ensures State() == Step(old(State()), SuccessRecords(records), today)
      ensures added == |Missing(records, Ids(Named(old(quota).charges)))|
    {
      var existing := KeepNamed(quota.charges);
      var missing := CollectMissing(records, Ids(existing));
      added := |missing|;
      if missing == [] { return; }
      var book := quota;
      if !book.initialized {
        book := book.(base := Max(0, Max(0, book.used) - |missing|), initialized := true);
      }
      var charges := AppendSettled(existing, missing);
      quota := Recompute(book.(charges := charges));
    }

    method MarkAccountUsed(today: Day)
      modifies this
      ensures State() == Step(old(State()), MarkUsed, today)
    {
      quota := quota.(used := Max(0, quota.used) + 1);
    }

    /** Takes over the remote credit; the open charge of the running task is not counted against it. */
    method SyncStudio(available: nat, pendingId: string, today: Day) returns (synced: bool)
      modifies this
      ensures State() == Step(old(State()), SyncStudioCredit(available, pendingId), today) && synced == qianwen
    {
      if !qianwen { return false; }
      var book := OpenBook(studio);
      book := Recompute(book);
      var pending := OpenUnits(book.charges, pendingId);
      var before := Max(0, book.used - pending);
      studio, studioLimit := book, before + available;
      sync := Some(CreditSync(today, available, before));
      if available >= pending { studioExhaustedOn := None; }
      return true;
    }
  }

  /** `reconcile_account_quotas`: one pass over every account of the document. */
  method ReconcileAll(accounts: seq<StoredAccount>, today: Day) returns (repaired: nat)
    requires Distinct(accounts)
    modifies set a | a in accounts
    ensures forall k :: 0 <= k < |accounts| ==> accounts[k].State() == ReconcileOnce(old(accounts[k].State())).0
    ensures repaired == 0 <==> forall k :: 0 <= k < |accounts| ==> !ReconcileOnce(old(accounts[k].State())).1
  {
    repaired := 0;
    for i := 0 to |accounts|
      invariant forall k :: 0 <= k < |accounts| ==>
        accounts[k].State() == if k < i then ReconcileOnce(old(accounts[k].State())).0 else old(accounts[k].State())
      invariant repaired == 0 <==> forall k :: 0 <= k < i ==> !ReconcileOnce(old(accounts[k].State())).1
    {
      var changed := accounts[i].ReconcileQuotas(today);
      if changed { repaired := repaired + 1; }
    }
  }
}
