/**
 * The account selection, written twice in the program: as a filter and a sort over the documents
 * in memory, and as the WHERE and ORDER BY of one SQL statement. Account ids are the numeric values
 * of their hexadecimal strings; timestamps are numbers, 0 for an account that was never used.
 */
module Selection {
  import opened Util
  import Ledger
  import LedgerRuns

  type AccountId = nat
  type Time = int

  datatype Cookie = Cookie(name: string, value: string)

  datatype Candidate = Candidate(
    id: AccountId, enabled: bool, status: string, platform: string, tenSecondOnly: bool, currentTask: string,
    cookies: seq<Cookie>, cooldownUntil: Option<Time>, source: string, lastUsedAt: nat, ledger: Ledger.Account)

  /** The platform that is asked for is a normalised one. */
  type Platform = s: string | s != "" witness "dola"

  datatype Query = Query(
    platform: Platform, excluded: set<AccountId>, preferred: Option<AccountId>, cost: int, duration: int,
    adminFirst: bool, studioBucket: bool, today: Ledger.Day, now: Time)

  const TICKET := "tongyi_sso_ticket"
  const UNLIMITED: int := 1000000

  function Cost(q: Query): int { Max(1, q.cost) }

  predicate StudioQuota(q: Query) { q.platform == "qianwen" && q.studioBucket }

  /** `name.replace("\\_", "_")`. */
  function Unescape(name: string): string
  {
    if |name| >= 2 && name[0] == '\\' && name[1] == '_' then "_" + Unescape(name[2..])
    else if name == "" then "" else [name[0]] + Unescape(name[1..])
  }

  predicate IsTicket(c: Cookie) { Unescape(c.name) == TICKET }

  // ---- in memory -----------------------------------------------------------------------------

  predicate HasTicket(c: Candidate)
  {
    exists i :: 0 <= i < |c.cookies| && IsTicket(c.cookies[i]) && !Blank(c.cookies[i].value)
  }

  predicate SupportsDuration(c: Candidate, platform: string, duration: int)
  {
    !(platform == "dola" && c.tenSecondOnly && (duration <= 0 || duration > 10))
  }

  /** `str(value or default)`. */
  function Or(value: string, default: string): string { if value == "" then default else value }

  predicate Keeps(c: Candidate, q: Query)
  {
    && c.enabled && Or(c.status, "normal") == "normal" && Or(c.platform, "dola") == q.platform
    && SupportsDuration(c, q.platform, q.duration)
    && c.id !in q.excluded && (q.preferred.None? || c.id == q.preferred.value)
    && c.currentTask == "" && c.cookies != []
    && (StudioQuota(q) ==> HasTicket(c))
    && (c.cooldownUntil.None? || c.cooldownUntil.value <= q.now)
    && (if StudioQuota(q) then c.ledger.studioExhaustedOn else c.ledger.exhaustedOn) != Some(q.today)
    && Ledger.QuotaAvailable(c.ledger, StudioQuota(q), Cost(q), q.today)
  }

  datatype Key = Key(source: nat, negRemaining: int, used: int, lastUsed: nat)

  predicate KeyLe(a: Key, b: Key)
  {
    || a.source < b.source
    || (a.source == b.source && (a.negRemaining < b.negRemaining
    || (a.negRemaining == b.negRemaining && (a.used < b.used
    || (a.used == b.used && a.lastUsed <= b.lastUsed)))))
  }

  function PreferredSource(q: Query): string { if q.adminFirst then "admin" else "api" }

  function MemoryRank(c: Candidate, q: Query): nat
  {
    if AsciiLower(Or(c.source, "admin")) == PreferredSource(q) then 0 else 1
  }

  /** The sort key of the in-memory selection: what is left is never shown below zero. */
  function MemoryKey(c: Candidate, q: Query): Key
  {
    var limit := Max(0, if StudioQuota(q) then c.ledger.studioLimit else c.ledger.limit);
    var used := Max(0, if StudioQuota(q) then c.ledger.studio.used else c.ledger.quota.used);
    var synced := if StudioQuota(q) then Ledger.SyncedRemaining(c.ledger, q.today) else None;
    var remaining := if synced.Some? then synced.value else if limit == 0 then UNLIMITED else Max(0, limit - used);
    Key(MemoryRank(c, q), -remaining, used, c.lastUsedAt)
  }

  function Chosen(accounts: seq<Candidate>, q: Query): Option<Candidate>
  {
    var kept := Filter((c: Candidate) => Keeps(c, q), accounts);
    if kept == [] then None else Some(Sort((a, b) => KeyLe(MemoryKey(a, q), MemoryKey(b, q)), kept)[0])
  }

  // ---- in SQL ----------------------------------------------------------------------------------

  /** `btrim(value) <> ''`: only spaces are trimmed. */
  predicate SqlBlank(s: string) { forall i :: 0 <= i < |s| ==> s[i] == ' ' }

  predicate SqlHasTicket(c: Candidate)
  {
    exists i :: 0 <= i < |c.cookies| && IsTicket(c.cookies[i]) && !SqlBlank(c.cookies[i].value)
  }

  /** A column that holds digits, or the default of the CASE expression. */
  function SqlNumber(value: int, default: int): int { if value >= 0 then value else default }

  /** The remote credit as SQL sees it: measured by the cached value, not by the ledger. */
  function SqlSyncedRemaining(c: Candidate, used: int): int
  {
    match c.ledger.sync
    case None => 0
    case Some(s) => Max(0, s.available - Max(0, used - s.usedAtSync))
  }

  function SqlLimit(c: Candidate, studio: bool): int
  {
    if studio then SqlNumber(c.ledger.studioLimit, 60) else SqlNumber(c.ledger.limit, 0)
  }

  function SqlUsed(c: Candidate, studio: bool): int
  {
    SqlNumber(if studio then c.ledger.studio.used else c.ledger.quota.used, 0)
  }

  predicate SqlSyncedToday(c: Candidate, q: Query) { c.ledger.sync.Some? && c.ledger.sync.value.date == q.today }

  predicate SqlQuota(c: Candidate, q: Query)
  {
    var limit, used := SqlLimit(c, StudioQuota(q)), SqlUsed(c, StudioQuota(q));
    if StudioQuota(q) then
      || (!SqlSyncedToday(c, q) && (limit == 0 || used + Cost(q) <= limit))
      || (SqlSyncedToday(c, q) && SqlSyncedRemaining(c, used) >= Cost(q))
    else limit == 0 || used + Cost(q) <= limit
  }

  predicate SqlWhere(c: Candidate, q: Query)
  {
    && c.enabled && c.status == "normal" && c.platform == q.platform && c.currentTask == "" && c.cookies != []
    && (if StudioQuota(q) then c.ledger.studioExhaustedOn else c.ledger.exhaustedOn) != Some(q.today)
    && SqlQuota(c, q)
    && (c.cooldownUntil.None? || c.cooldownUntil.value <= q.now)
    && (q.platform == "dola" && (q.duration <= 0 || q.duration > 10) ==> !c.tenSecondOnly)
    && (StudioQuota(q) ==> SqlHasTicket(c))
    && c.id !in q.excluded && (q.preferred.Some? ==> c.id == q.preferred.value)
  }

  /** The statement compares the source as it is stored. */
  function SqlRank(c: Candidate, q: Query): nat { if c.source == PreferredSource(q) then 0 else 1 }

  /** The sort key of the statement: what is left is not clamped. */
  function SqlKey(c: Candidate, q: Query): Key
  {
    var limit, used := SqlLimit(c, StudioQuota(q)), SqlUsed(c, StudioQuota(q));
    var remaining :=
      if StudioQuota(q) && SqlSyncedToday(c, q) then SqlSyncedRemaining(c, used)
      else if limit == 0 then UNLIMITED else limit - used;
    Key(SqlRank(c, q), -remaining, used, c.lastUsedAt)
  }

  predicate SqlBefore(a: Candidate, b: Candidate, q: Query)
  {
    KeyLe(SqlKey(a, q), SqlKey(b, q)) && (SqlKey(a, q) == SqlKey(b, q) ==> a.id <= b.id)
  }

  /** The row the statement returns; rows locked by others are skipped. */
  function SqlChosen(accounts: seq<Candidate>, q: Query, locked: set<AccountId>): Option<Candidate>
  {
    var kept := Filter((c: Candidate) => SqlWhere(c, q) && c.id !in locked, accounts);
    if kept == [] then None else Some(Sort((a, b) => SqlBefore(a, b, q), kept)[0])
  }

  // ---- the two agree ------------------------------------------------------------------------------

  /** Limits are not negative, and the ledgers are what every run of ledger calls leaves. */
  ghost predicate WellFormed(c: Candidate)
  {
    c.ledger.limit >= 0 && c.ledger.studioLimit >= 0 && LedgerRuns.Consistent(c.ledger)
  }

  predicate OtherBlank(value: string) { Blank(value) && !SqlBlank(value) }

  /** A ticket cookie that is empty to Python but not to SQL, with no usable ticket beside it. */
  predicate OnlyWhitespaceTicket(c: Candidate)
  {
    && (exists i :: 0 <= i < |c.cookies| && IsTicket(c.cookies[i]) && OtherBlank(c.cookies[i].value))
    && (forall i :: 0 <= i < |c.cookies| && IsTicket(c.cookies[i]) ==> Blank(c.cookies[i].value))
  }

  lemma TicketsAgreeExactly(c: Candidate)
    ensures (SqlHasTicket(c) == HasTicket(c)) <==> !OnlyWhitespaceTicket(c)
    ensures HasTicket(c) ==> SqlHasTicket(c)
  {
    forall i | 0 <= i < |c.cookies| && SqlBlank(c.cookies[i].value) ensures Blank(c.cookies[i].value) {
    }
  }

  lemma QuotaConditionsAgree(c: Candidate, q: Query)
    requires WellFormed(c)
    ensures SqlQuota(c, q) <==> Ledger.QuotaAvailable(c.ledger, StudioQuota(q), Cost(q), q.today)
  {
  }

  /** An empty status or platform is a default in memory, and only there. */
  predicate FieldsFilled(c: Candidate) { c.status != "" && c.platform != "" }

  /**
   * The statement finds further accounts exactly for a whitespace ticket, and misses accounts that the memory
   * filter keeps exactly for an empty status or platform.
   */
  lemma FiltersAgreeExactly(c: Candidate, q: Query)
    requires WellFormed(c)
    ensures SqlWhere(c, q) ==> (Keeps(c, q) <==> !(StudioQuota(q) && OnlyWhitespaceTicket(c)))
    ensures Keeps(c, q) ==> (SqlWhere(c, q) <==> FieldsFilled(c))
  {
    TicketsAgreeExactly(c);
    QuotaConditionsAgree(c, q);
  }

  /** A source that is the preferred one only after defaulting and lowering its case. */
  predicate OddSource(c: Candidate, q: Query)
  {
    AsciiLower(Or(c.source, "admin")) == PreferredSource(q) && c.source != PreferredSource(q)
  }

  lemma RanksAgreeExactly(c: Candidate, q: Query)
    ensures SqlRank(c, q) == MemoryRank(c, q) <==> !OddSource(c, q)
  {
    assert AsciiLower("admin") == "admin" && AsciiLower("api") == "api";
  }

  /**
   * On an admitted row the clamp has nothing to do, so that both keys are the same exactly when the source
   * is spelled as the statement expects it.
   */
  lemma KeysAgreeExactly(c: Candidate, q: Query)
    requires WellFormed(c) && SqlQuota(c, q)
    ensures SqlKey(c, q) == MemoryKey(c, q) <==> !OddSource(c, q)
  {
    RanksAgreeExactly(c, q);
  }

  lemma KeyOrderIsTotal(q: Query)
    ensures TotalPreorder((a: Candidate, b: Candidate) => KeyLe(MemoryKey(a, q), MemoryKey(b, q)))
    ensures TotalPreorder((a: Candidate, b: Candidate) => SqlBefore(a, b, q))
  {
  }

  lemma KeyLeAntisymmetric(a: Key, b: Key)
    requires KeyLe(a, b) && KeyLe(b, a)
    ensures a == b
  {
  }

  /** The in-memory choice is a kept account with a least key. */
  lemma ChosenIsLeast(accounts: seq<Candidate>, q: Query)
    ensures match Chosen(accounts, q)
      case None => forall c :: c in accounts ==> !Keeps(c, q)
      case Some(r) => (
        && r in accounts && Keeps(r, q)
        && forall c :: c in accounts && Keeps(c, q) ==> KeyLe(MemoryKey(r, q), MemoryKey(c, q)))
  {
    var kept := Filter((c: Candidate) => Keeps(c, q), accounts);
    if kept == [] {
      forall c | c in accounts ensures !Keeps(c, q) { assert c !in kept; }
    } else {
      var le := (a: Candidate, b: Candidate) => KeyLe(MemoryKey(a, q), MemoryKey(b, q));
      KeyOrderIsTotal(q);
      HeadOfSortIsLeast(le, kept);
      var r := Sort(le, kept)[0];
      forall c | c in accounts && Keeps(c, q) ensures KeyLe(MemoryKey(r, q), MemoryKey(c, q)) {
        assert c in kept;
        assert le(r, c);
      }
    }
  }

  lemma SqlChosenIsLeast(accounts: seq<Candidate>, q: Query, locked: set<AccountId>)
    ensures match SqlChosen(accounts, q, locked)
      case None => forall c :: c in accounts && c.id !in locked ==> !SqlWhere(c, q)
      case Some(r) => (
        && r in accounts && SqlWhere(r, q) && r.id !in locked
        && forall c :: c in accounts && SqlWhere(c, q) && c.id !in locked ==>
             KeyLe(SqlKey(r, q), SqlKey(c, q)) && (SqlKey(r, q) == SqlKey(c, q) ==> r.id <= c.id))
  {
    var kept := Filter((c: Candidate) => SqlWhere(c, q) && c.id !in locked, accounts);
    if kept == [] {
      forall c | c in accounts && c.id !in locked ensures !SqlWhere(c, q) { assert c !in kept; }
    } else {
      var le := (a: Candidate, b: Candidate) => SqlBefore(a, b, q);
      KeyOrderIsTotal(q);
      HeadOfSortIsLeast(le, kept);
      var r := Sort(le, kept)[0];
      forall c | c in accounts && SqlWhere(c, q) && c.id !in locked
        ensures KeyLe(SqlKey(r, q), SqlKey(c, q)) && (SqlKey(r, q) == SqlKey(c, q) ==> r.id <= c.id)
      {
        assert c in kept;
        assert le(r, c);
      }
    }
  }

  /** The row that the statement picks although the re-check then refuses it. */
  lemma WhitespaceTicketFailsRecheck(c: Candidate, q: Query)
    requires WellFormed(c) && StudioQuota(q) && SqlWhere(c, q) && OnlyWhitespaceTicket(c)
    ensures SqlChosen([c], q, {}) == Some(c) && Chosen([c], q) == None
  {
    FiltersAgreeExactly(c, q);
    assert c in [c];
    SqlChosenIsLeast([c], q, {});
    ChosenIsLeast([c], q);
  }

  ghost predicate Comparable(c: Candidate, q: Query)
  {
    WellFormed(c) && FieldsFilled(c) && !OddSource(c, q) && !(StudioQuota(q) && OnlyWhitespaceTicket(c))
  }

  /**
   * The statement refines the in-memory selection: it finds a row exactly when the selection finds
   * an account, and that row has the key of the account. With locked rows, it does so on the rest.
   */
  lemma SqlRefinesSelection(accounts: seq<Candidate>, q: Query, locked: set<AccountId>)
    requires forall c :: c in accounts ==> Comparable(c, q)
    ensures var visible := Filter((c: Candidate) => c.id !in locked, accounts);
      var row, account := SqlChosen(accounts, q, locked), Chosen(visible, q);
      && (row.None? <==> account.None?)
      && (row.Some? ==> row.value in visible && Keeps(row.value, q))
      && (row.Some? ==> MemoryKey(row.value, q) == MemoryKey(account.value, q))
  {
    var visible := Filter((c: Candidate) => c.id !in locked, accounts);
    SqlChosenIsLeast(accounts, q, locked);
    ChosenIsLeast(visible, q);
    forall c | c in accounts
      ensures Keeps(c, q) <==> SqlWhere(c, q)
      ensures SqlWhere(c, q) ==> SqlKey(c, q) == MemoryKey(c, q)
    {
      FiltersAgreeExactly(c, q);
      if SqlWhere(c, q) { KeysAgreeExactly(c, q); }
    }
    var row, account := SqlChosen(accounts, q, locked), Chosen(visible, q);
    if row.Some? && account.Some? {
      KeyLeAntisymmetric(MemoryKey(row.value, q), MemoryKey(account.value, q));
    }
  }

  /** The query of the re-check: nothing is excluded, and the clock is read again. */
  function Again(q: Query, today: Ledger.Day, now: Time): Query { q.(excluded := {}, today := today, now := now) }

  /**
   * The re-check reads the clock again. It accepts an account that was kept exactly when the new day is not
   * one on which the account is marked exhausted, and its studio quota, if asked for, suffices on that day.
   */
  lemma RecheckAcceptsExactly(c: Candidate, q: Query, today: Ledger.Day, now: Time)
    requires Keeps(c, q) && q.now <= now
    ensures Chosen([c], Again(q, today, now)) == Some(c) <==>
      && (if StudioQuota(q) then c.ledger.studioExhaustedOn else c.ledger.exhaustedOn) != Some(today)
      && (StudioQuota(q) ==> Ledger.QuotaAvailable(c.ledger, true, Cost(q), today))
  {
    ChosenIsLeast([c], Again(q, today, now));
    assert c in [c];
  }

  /**
   * On the day of the statement the re-check inside the transaction never refuses the row, and the claim
   * then stays in bounds.
   */
  lemma RecheckAcceptsRow(accounts: seq<Candidate>, q: Query, locked: set<AccountId>, chargeId: string, now: Time)
    requires forall c :: c in accounts ==> Comparable(c, q)
    requires SqlChosen(accounts, q, locked).Some? && chargeId != "" && q.now <= now
    requires q.platform == "qianwen" <==> SqlChosen(accounts, q, locked).value.ledger.qianwen
    ensures var row := SqlChosen(accounts, q, locked).value;
      && Chosen([row], Again(q, q.today, now)) == Some(row)
      && Ledger.ClaimAllowed(row.ledger, StudioQuota(q), Cost(q), q.today)
      && (!StudioQuota(q) && row.ledger.limit > 0 ==>
            Ledger.ClaimQuota(row.ledger, false, chargeId, q.cost, q.today).quota.used <= row.ledger.limit)
  {
    SqlRefinesSelection(accounts, q, locked);
    SqlChosenIsLeast(accounts, q, locked);
    var row := SqlChosen(accounts, q, locked).value;
    RecheckAcceptsExactly(row, q, q.today, now);
    LedgerRuns.ClaimAddsItsCost(row.ledger, StudioQuota(q), chargeId, q.cost, q.today);
  }

  // ---- what the choice means -----------------------------------------------------------------------

  /** The account is of the source that goes first. */
  ghost predicate Favoured(c: Candidate, q: Query)
  {
    AsciiLower(if c.source == "" then "admin" else c.source) == (if q.adminFirst then "admin" else "api")
  }

  /** The ledger that the query draws on, and its limit. */
  function BookFor(c: Candidate, q: Query): (Ledger.Book, int)
  {
    if q.platform == "qianwen" && q.studioBucket then (c.ledger.studio, c.ledger.studioLimit)
    else (c.ledger.quota, c.ledger.limit)
  }

  /** The remote credit of the day counts instead of the limit. */
  predicate SyncedToday(c: Candidate, q: Query)
  {
    q.platform == "qianwen" && q.studioBucket && c.ledger.sync.Some? && c.ledger.sync.value.date == q.today
  }

  /** What is left of the remote credit, or else of the limit; no limit counts as a million. */
  function Left(c: Candidate, q: Query): int
  {
    var (book, limit) := BookFor(c, q);
    if SyncedToday(c, q) then
      var spent := if book.used > c.ledger.sync.value.usedAtSync then book.used - c.ledger.sync.value.usedAtSync else 0;
      if c.ledger.sync.value.available > spent then c.ledger.sync.value.available - spent else 0
    else if limit == 0 then 1000000
    else if limit > book.used then limit - book.used else 0
  }

  /** Favoured before others, then more left, then less used, then longer unused. */
  ghost predicate ComesFirst(r: Candidate, c: Candidate, q: Query)
  {
    var used, other := BookFor(r, q).0.used, BookFor(c, q).0.used;
    && (Favoured(c, q) ==> Favoured(r, q))
    && (Favoured(c, q) == Favoured(r, q) ==>
          && Left(c, q) <= Left(r, q)
          && (Left(c, q) == Left(r, q) ==> used <= other && (used == other ==> r.lastUsedAt <= c.lastUsedAt)))
  }

  lemma MemoryKeyMeans(c: Candidate, q: Query)
    requires WellFormed(c)
    ensures MemoryKey(c, q) ==
      Key(if Favoured(c, q) then 0 else 1, -Left(c, q), BookFor(c, q).0.used, c.lastUsedAt)
  {
    assert SyncedToday(c, q) ==> c.ledger.studio.initialized;
  }

  lemma SmallerKeyComesFirst(r: Candidate, c: Candidate, q: Query)
    requires WellFormed(r) && WellFormed(c)
    ensures KeyLe(MemoryKey(r, q), MemoryKey(c, q)) ==> ComesFirst(r, c, q)
  {
    MemoryKeyMeans(r, q);
    MemoryKeyMeans(c, q);
  }

  /** No account that may be chosen comes before the one that the in-memory selection chooses. */
  lemma ChosenComesFirst(accounts: seq<Candidate>, q: Query, r: Candidate, c: Candidate)
    requires forall x :: x in accounts ==> WellFormed(x)
    requires Chosen(accounts, q) == Some(r) && c in accounts && Keeps(c, q)
    ensures r in accounts && Keeps(r, q) && ComesFirst(r, c, q)
  {
    ChosenIsLeast(accounts, q);
    SmallerKeyComesFirst(r, c, q);
  }

  /** Nor does any before the row of the statement; full ties go to the smaller id. */
  lemma SqlChosenComesFirst(accounts: seq<Candidate>, q: Query, locked: set<AccountId>, r: Candidate, c: Candidate)
    requires forall x :: x in accounts ==> Comparable(x, q)
    requires SqlChosen(accounts, q, locked) == Some(r) && c in accounts && c.id !in locked && SqlWhere(c, q)
    ensures r in accounts && r.id !in locked && SqlWhere(r, q) && ComesFirst(r, c, q)
    ensures ComesFirst(c, r, q) ==> r.id <= c.id
  {
    SqlChosenIsLeast(accounts, q, locked);
    KeysAgreeExactly(r, q);
    KeysAgreeExactly(c, q);
    SmallerKeyComesFirst(r, c, q);
    if ComesFirst(c, r, q) {
      MemoryKeyMeans(r, q);
      MemoryKeyMeans(c, q);
    }
  }

  /** Of accounts that tie in memory, the first of the document is chosen. */
  lemma ChosenIsFirstOfTies(accounts: seq<Candidate>, q: Query) returns (at: nat)
    requires Chosen(accounts, q).Some? && forall x :: x in accounts ==> WellFormed(x)
    ensures at < |accounts| && Chosen(accounts, q) == Some(accounts[at])
    ensures forall i :: 0 <= i < at && Keeps(accounts[i], q) ==> !ComesFirst(accounts[i], accounts[at], q)
  {
    var keeps := (c: Candidate) => Keeps(c, q);
    var le := (a: Candidate, b: Candidate) => KeyLe(MemoryKey(a, q), MemoryKey(b, q));
    var kept := Filter(keeps, accounts);
    KeyOrderIsTotal(q);
    var k := HeadOfSortIsFirst(le, kept);
    at := FilterPosition(keeps, accounts, k);
    forall i | 0 <= i < at && Keeps(accounts[i], q) ensures !ComesFirst(accounts[i], accounts[at], q) {
      var j := FilterIndex(keeps, accounts, i, at, k);
      assert !le(kept[j], kept[k]);
      MemoryKeyMeans(accounts[i], q);
      MemoryKeyMeans(accounts[at], q);
    }
  }

  /** What an account has to be to serve a query. */
  ghost predicate Fit(c: Candidate, q: Query)
  {
    var (book, limit) := BookFor(c, q);
    var cost := if q.cost > 1 then q.cost else 1;
    && c.enabled && c.status in {"", "normal"} && c.currentTask == "" && |c.cookies| > 0
    && (c.platform == q.platform || (c.platform == "" && q.platform == "dola"))
    && !(c.id in q.excluded) && (q.preferred == None || q.preferred == Some(c.id))
    && (c.cooldownUntil.Some? ==> c.cooldownUntil.value <= q.now)
    && (q.platform == "dola" && c.tenSecondOnly ==> 1 <= q.duration <= 10)
    && (q.platform == "qianwen" && q.studioBucket ==>
          && c.ledger.studioExhaustedOn != Some(q.today)
          && exists i :: 0 <= i < |c.cookies| && IsTicket(c.cookies[i]) && !Blank(c.cookies[i].value))
    && (!(q.platform == "qianwen" && q.studioBucket) ==> c.ledger.exhaustedOn != Some(q.today))
    && (if SyncedToday(c, q) then cost <= Left(c, q) else limit == 0 || book.used + cost <= limit)
  }

  lemma RoomMeans(c: Candidate, q: Query)
    requires WellFormed(c)
    ensures Ledger.QuotaAvailable(c.ledger, StudioQuota(q), Cost(q), q.today) <==>
      var (book, limit) := BookFor(c, q);
      var cost := if q.cost > 1 then q.cost else 1;
      if SyncedToday(c, q) then cost <= Left(c, q) else limit == 0 || book.used + cost <= limit
  {
  }

  lemma KeptIsFit(c: Candidate, q: Query)
    requires WellFormed(c)
    ensures Keeps(c, q) <==> Fit(c, q)
  {
    RoomMeans(c, q);
  }

  /** The in-memory selection gives a fit account, and none only when no account is fit. */
  lemma ChosenIsFit(accounts: seq<Candidate>, q: Query)
    requires forall x :: x in accounts ==> WellFormed(x)
    ensures Chosen(accounts, q).Some? ==> Chosen(accounts, q).value in accounts && Fit(Chosen(accounts, q).value, q)
    ensures Chosen(accounts, q).None? ==> forall c :: c in accounts ==> !Fit(c, q)
  {
    ChosenIsLeast(accounts, q);
    forall c | c in accounts ensures Keeps(c, q) <==> Fit(c, q) { KeptIsFit(c, q); }
  }
}
