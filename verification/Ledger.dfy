/** The quota ledgers of one account: what each accounting call does to them. */
module Ledger {
  import opened Util

  type Day = int

  datatype ChargeStatus = Charged | Settled | Refunded

  datatype Charge = Charge(id: string, units: int, status: ChargeStatus)

  /** One ledger: the cached `used` beside the base and the list of charges that explain it. */
  datatype Book = Book(initialized: bool, base: int, charges: seq<Charge>, used: int)

  datatype CreditSync = CreditSync(date: Day, available: nat, usedAtSync: nat)

  datatype Account = Account(
    qianwen: bool, quota: Book, studio: Book, limit: int, studioLimit: int,
    exhaustedOn: Option<Day>, studioExhaustedOn: Option<Day>, resetOn: Option<Day>,
    refundIds: seq<string>, sync: Option<CreditSync>)

  const STUDIO_PREFIX := "studio:"
  const LEGACY_REFUND_MEMORY: nat := 1000

  predicate IsStudioCharge(id: string) { STUDIO_PREFIX <= id }

  /** Only entries with an id are charges; an entry without units counts as one. */
  function Named(charges: seq<Charge>): seq<Charge>
  {
    if charges == [] then []
    else if charges[0].id != "" then [charges[0]] + Named(charges[1..]) else Named(charges[1..])
  }

  function Units(c: Charge): int { Max(1, c.units) }

  function Counted(c: Charge): int { if c.id != "" && c.status != Refunded then Units(c) else 0 }

  function ActiveUnits(charges: seq<Charge>): (n: int)
    ensures n >= 0
  {
    if charges == [] then 0 else Counted(charges[0]) + ActiveUnits(charges[1..])
  }

  /** `_reconciled_quota_used`. */
  function Reconciled(b: Book): int { Max(0, b.base) + ActiveUnits(b.charges) }

  /** The first charge with this id, in any status or only while still charged. */
  function FindCharge(charges: seq<Charge>, id: string, openOnly: bool): (r: Option<nat>)
    ensures r.Some? ==> r.value < |charges| && charges[r.value].id == id && id != ""
    ensures r.Some? && openOnly ==> charges[r.value].status == Charged
    ensures r.Some? ==> forall k :: 0 <= k < r.value ==>
      charges[k].id != id || (openOnly && charges[k].status != Charged)
    ensures r.None? && id != "" ==> forall k :: 0 <= k < |charges| ==>
      charges[k].id != id || (openOnly && charges[k].status != Charged)
  {
    if charges == [] || id == "" then None
    else if charges[0].id == id && (!openOnly || charges[0].status == Charged) then Some(0)
    else match FindCharge(charges[1..], id, openOnly) case Some(k) => Some(k + 1) case None => None
  }

  function Initialize(b: Book): Book
  {
    b.(base := if b.initialized then b.base else Max(0, b.used), initialized := true, charges := Named(b.charges))
  }

  function Recomputed(b: Book): Book { b.(used := Reconciled(b)) }

  function Marked(charges: seq<Charge>, i: nat, status: ChargeStatus): seq<Charge>
    requires i < |charges|
  {
    charges[i := charges[i].(status := status)]
  }

  function ChargeBook(b: Book, id: string, cost: int): Book
  {
    var ready := Initialize(b);
    Recomputed(ready.(charges := ready.charges + [Charge(id, cost, Charged)]))
  }

  /** A refund or a settlement of an open charge. */
  function CloseBook(b: Book, id: string, status: ChargeStatus): (Book, bool)
  {
    match FindCharge(b.charges, id, true)
    case None => (b, false)
    case Some(i) => (Recomputed(b.(charges := Marked(b.charges, i, status))), true)
  }

  /** A timed-out generation stays paid, even if it was refunded or never recorded. */
  function TimeOutBook(b: Book, id: string): Book
  {
    var ready := Initialize(b);
    var charges := match FindCharge(ready.charges, id, false)
      case None => ready.charges + [Charge(id, 0, Settled)]
      case Some(i) => Marked(ready.charges, i, Settled);
    Recomputed(ready.(charges := charges))
  }

  /** Fills the ledger up to `limit` by raising its base. */
  function FilledBook(b: Book, charges: seq<Charge>, limit: int): Book
  {
    var full := b.(charges := charges, base := Max(0, limit - ActiveUnits(charges)));
    full.(used := Max(limit, Reconciled(full)))
  }

  function ExhaustBook(b: Book, id: string, limit: int): Book
  {
    var charges := match FindCharge(b.charges, id, true)
      case None => b.charges
      case Some(i) => Marked(b.charges, i, Refunded);
    FilledBook(b, charges, limit)
  }

  function ExhaustStudioBook(b: Book, id: string, limit: int): Book
  {
    var ready := Initialize(b);
    var charges := match FindCharge(ready.charges, id, false)
      case None => ready.charges + [Charge(id, 0, Refunded)]
      case Some(i) => if ready.charges[i].status == Charged then Marked(ready.charges, i, Refunded) else ready.charges;
    FilledBook(ready, charges, limit)
  }

  const EmptyBook := Book(true, 0, [], 0)

  /** `_reconcile_account`: whether the cached values had drifted, and the repaired ledger. */
  function ReconcileBook(b: Book): (Book, bool)
  {
    if !b.initialized then (b, false)
    else (Recomputed(b.(charges := Named(b.charges))), b.charges != Named(b.charges) || Max(0, b.used) != Reconciled(b))
  }

  /** The studio ledger is looked at only when the first one needed no repair. */
  function ReconcileOnce(a: Account): (Account, bool)
  {
    var (quota, changed) := ReconcileBook(a.quota);
    if changed || !a.qianwen then (a.(quota := quota), changed)
    else
      var (studio, studioChanged) := ReconcileBook(a.studio);
      (a.(quota := quota, studio := studio), studioChanged)
  }

  function Ids(charges: seq<Charge>): set<string> { set c | c in charges :: c.id }

  /** The records not yet present, each id once, in order. */
  function Missing(records: seq<string>, present: set<string>): seq<string>
  {
    if records == [] then []
    else if records[0] == "" || records[0] in present then Missing(records[1..], present)
    else [records[0]] + Missing(records[1..], present + {records[0]})
  }

  function SettledCharges(ids: seq<string>): (r: seq<Charge>)
    ensures |r| == |ids| && forall i :: 0 <= i < |r| ==> r[i] == Charge(ids[i], 0, Settled)
  {
    seq(|ids|, i requires 0 <= i < |ids| => Charge(ids[i], 0, Settled))
  }

  /** Adds the charges of successful generations that the ledger never saw. */
  function ReconcileSuccess(b: Book, records: seq<string>): Book
  {
    var existing := Named(b.charges);
    var missing := Missing(records, Ids(existing));
    if missing == [] then b
    else
      Recomputed(b.(initialized := true, charges := existing + SettledCharges(missing),
                    base := if b.initialized then b.base else Max(0, Max(0, b.used) - |missing|)))
  }

  /** Credit still available according to the last remote synchronisation of the day. */
  function SyncedRemaining(a: Account, today: Day): Option<nat>
  {
    if a.sync.None? || a.sync.value.date != today then None
    else
      var consumed := Max(0, Reconciled(a.studio) - a.sync.value.usedAtSync);
      Some(Max(0, a.sync.value.available - consumed))
  }

  /** Whether `cost` more units fit: the remote credit decides for a synchronised studio claim. */
  predicate QuotaAvailable(a: Account, studio: bool, cost: int, today: Day)
  {
    var remaining := SyncedRemaining(a, today);
    if studio && remaining.Some? then remaining.value >= cost
    else
      var limit, used := if studio then a.studioLimit else a.limit, if studio then a.studio.used else a.quota.used;
      limit == 0 || used + cost <= limit
  }

  predicate ClaimAllowed(a: Account, studio: bool, cost: int, today: Day)
  {
    (if studio then a.qianwen && a.studioExhaustedOn != Some(today) else a.exhaustedOn != Some(today))
    && QuotaAvailable(a, studio, cost, today)
  }

  function ResetStudio(a: Account): Account
  {
    if a.qianwen then a.(studio := EmptyBook, studioExhaustedOn := None) else a
  }

  function ResetAll(a: Account): Account { ResetStudio(a.(quota := EmptyBook, exhaustedOn := None)) }

  /** Units of the pending charge, when the first entry with its id is still open. */
  function PendingUnits(charges: seq<Charge>, id: string): int
  {
    match FindCharge(charges, id, false)
    case None => 0
    case Some(i) => if charges[i].status == Charged then Units(charges[i]) else 0
  }

  function SyncCredit(a: Account, available: nat, pendingId: string, today: Day): Account
  {
    var ready := Recomputed(Initialize(a.studio));
    var pending := PendingUnits(ready.charges, pendingId);
    var before := Max(0, ready.used - pending);
    a.(studio := ready, studioLimit := before + available, sync := Some(CreditSync(today, available, before)),
       studioExhaustedOn := if available >= pending then None else a.studioExhaustedOn)
  }

  function LegacyRefund(a: Account, id: string): (Account, bool)
  {
    var seen := a.refundIds;
    if id != "" && id in seen then (a, false)
    else
      var paid := a.(quota := a.quota.(used := Max(0, Max(0, a.quota.used) - 1)));
      if id == "" then (paid, true)
      else
        var ids := seen + [id];
        (paid.(refundIds := if |ids| <= LEGACY_REFUND_MEMORY then ids else ids[|ids| - LEGACY_REFUND_MEMORY..]), true)
  }

  function Refund(a: Account, id: string): (Account, bool)
  {
    if IsStudioCharge(id) then
      if !a.studio.initialized then (a, false)
      else var (studio, done) := CloseBook(a.studio, id, Refunded); (a.(studio := studio), done)
    else if a.quota.initialized then
      var (quota, done) := CloseBook(a.quota, id, Refunded); (a.(quota := quota), done)
    else LegacyRefund(a, id)
  }

  function Settle(a: Account, id: string): (Account, bool)
  {
    if IsStudioCharge(id) then
      var (studio, done) := CloseBook(a.studio, id, Settled); (a.(studio := studio), done)
    else
      var (quota, done) := CloseBook(a.quota, id, Settled); (a.(quota := quota), done)
  }

  function TimeOut(a: Account, id: string, today: Day): Account
  {
    if IsStudioCharge(id) then
      var book := TimeOutBook(a.studio, id);
      a.(studio := book.(used := Max(1, book.used)), studioLimit := Max(1, a.studioLimit),
        studioExhaustedOn := Some(today))
    else if id != "" then a.(quota := TimeOutBook(a.quota, id), exhaustedOn := Some(today))
    else a.(quota := a.quota.(used := Max(1, a.quota.used)), exhaustedOn := Some(today))
  }

  function Exhaust(a: Account, id: string, today: Day): Account
  {
    if IsStudioCharge(id) then
      var limit := Max(1, a.studioLimit);
      a.(studio := ExhaustStudioBook(a.studio, id, limit), studioLimit := limit, studioExhaustedOn := Some(today))
    else
      var limit := Max(1, a.limit);
      var book := if id != "" && a.quota.initialized then ExhaustBook(a.quota, id, limit)
                  else a.quota.(used := Max(limit, a.quota.used));
      a.(quota := book, limit := limit, exhaustedOn := Some(today))
  }

  datatype Event =
    | Claim(studio: bool, claimId: string, cost: int)
    | RefundCharge(id: string)
    | SettleCharge(id: string)
    | TimeOutCharge(id: string)
    | ExhaustQuota(id: string)
    | ResetQuota
    | DailyReset
    | ReconcilePass
    | SuccessRecords(records: seq<string>)
    | MarkUsed
    | SyncStudioCredit(available: nat, pendingId: string)
    | EditLimits(newLimit: Option<nat>, newStudioLimit: Option<nat>)

  function ClaimQuota(a: Account, studio: bool, id: string, cost: int, today: Day): Account
  {
    if !ClaimAllowed(a, studio, Max(1, cost), today) then a
    else if studio then a.(studio := ChargeBook(a.studio, id, Max(1, cost)))
    else a.(quota := ChargeBook(a.quota, id, Max(1, cost)))
  }

  function Step(a: Account, e: Event, today: Day): Account
  {
    match e
    case Claim(studio, id, cost) => ClaimQuota(a, studio, id, cost, today)
    case RefundCharge(id) => Refund(a, id).0
    case SettleCharge(id) => if id == "" then a else Settle(a, id).0
    case TimeOutCharge(id) => TimeOut(a, id, today)
    case ExhaustQuota(id) => Exhaust(a, id, today)
    case ResetQuota => ResetAll(a)
    case DailyReset => if a.resetOn == Some(today) then ReconcileOnce(a).0 else ResetAll(a).(resetOn := Some(today))
    case ReconcilePass => ReconcileOnce(a).0
    case SuccessRecords(records) => a.(quota := ReconcileSuccess(a.quota, records))
    case MarkUsed => a.(quota := a.quota.(used := Max(0, a.quota.used) + 1))
    case SyncStudioCredit(available, pendingId) => if a.qianwen then SyncCredit(a, available, pendingId, today) else a
    case EditLimits(newLimit, newStudioLimit) =>
      a.(limit := if newLimit.Some? then newLimit.value else a.limit,
         studioLimit := if newStudioLimit.Some? && a.qianwen then newStudioLimit.value else a.studioLimit)
  }

  datatype DatedEvent = DatedEvent(event: Event, today: Day)

  function Run(a: Account, es: seq<DatedEvent>): Account
    decreases |es|
  {
    if es == [] then a else Run(Step(a, es[0].event, es[0].today), es[1..])
  }
}
