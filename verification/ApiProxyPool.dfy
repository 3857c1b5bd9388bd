/**
 * The pool of proxy endpoints fetched from a provider. Slot records are entries of a map keyed by
 * identity, because leases keep slots that have left the table. Each critical section is one step,
 * for the time before the pool is stopped; a cancelled refresh is a step of its own.
 */
module ApiProxyPool {
  import opened SlotTable
  import opened Util

  type NodeId = string
  type Time = int

  datatype Slot = Slot(nodeId: NodeId, active: int, invalid: bool, totalLeases: nat, cooldownUntil: Time)

  datatype Pool = Pool(
    maxEndpoints: nat, contextsPerEndpoint: nat, maxRefreshes: nat,
    table: seq<SlotId>, slots: map<SlotId, Slot>, launching: int, failures: nat, refreshNotBefore: Time)

  const FAILURE_BACKOFF_MAX: nat := 15

  function Purge(table: seq<SlotId>, slots: map<SlotId, Slot>): (r: seq<SlotId>)
    ensures |r| <= |table|
  {
    if table == [] then []
    else if table[0] in slots && slots[table[0]].invalid && slots[table[0]].active == 0 then Purge(table[1..], slots)
    else [table[0]] + Purge(table[1..], slots)
  }

  predicate Open(pool: Pool, s: SlotId, excluded: set<NodeId>)
  {
    s in pool.slots && !pool.slots[s].invalid && pool.slots[s].nodeId !in excluded
    && pool.slots[s].active < pool.contextsPerEndpoint
  }

  predicate Candidate(pool: Pool, s: SlotId, excluded: set<NodeId>, now: Time)
  {
    Open(pool, s, excluded) && pool.slots[s].cooldownUntil <= now
  }

  predicate Cooling(pool: Pool, s: SlotId, excluded: set<NodeId>, now: Time)
  {
    Open(pool, s, excluded) && pool.slots[s].cooldownUntil > now
  }

  function CandidateRule(pool: Pool, excluded: set<NodeId>, now: Time): SlotId -> bool
  {
    (s: SlotId) => Candidate(pool, s, excluded, now)
  }

  function CoolingRule(pool: Pool, excluded: set<NodeId>, now: Time): SlotId -> bool
  {
    (s: SlotId) => Cooling(pool, s, excluded, now)
  }

  /** The choice among several least loaded candidates is left open, as `random_select` leaves it. */
  predicate LeastLoaded(pool: Pool, s: SlotId, excluded: set<NodeId>, now: Time)
  {
    s in pool.table && Candidate(pool, s, excluded, now)
    && forall t :: t in pool.table && Candidate(pool, t, excluded, now) ==> pool.slots[s].active <= pool.slots[t].active
  }

  datatype Outcome = Leased(slot: SlotId) | Refresh(known: set<NodeId>) | Sleep | Wait

  function Lease(pool: Pool, s: SlotId): Pool
    requires s in pool.slots
  {
    pool.(slots := pool.slots[s := pool.slots[s].(active := pool.slots[s].active + 1,
                                                  totalLeases := pool.slots[s].totalLeases + 1)])
  }

  function KnownNodes(pool: Pool): set<NodeId> { set s | s in pool.table && s in pool.slots :: pool.slots[s].nodeId }

  function Purged(pool: Pool): Pool { pool.(table := Purge(pool.table, pool.slots)) }

  /** One turn of `acquire` under the lock; `choice` is the least loaded candidate that is taken. */
  function Acquire(pool: Pool, excluded: set<NodeId>, choice: SlotId, now: Time): (Pool, Outcome)
    requires First(CandidateRule(Purged(pool), excluded, now), Purged(pool).table).Some? ==>
      LeastLoaded(Purged(pool), choice, excluded, now)
  {
    var p := Purged(pool);
    if First(CandidateRule(p, excluded, now), p.table).Some? then (Lease(p, choice), Leased(choice))
    else if p.refreshNotBefore > now then (p, Sleep)
    else if |p.table| + p.launching < p.maxEndpoints && p.launching < p.maxRefreshes
    then (p.(launching := p.launching + 1), Refresh(KnownNodes(p)))
    else if First(CoolingRule(p, excluded, now), p.table).Some? then (p, Sleep)
    else (p, Wait)
  }

  predicate SameNode(pool: Pool, s: SlotId, nodeId: NodeId)
  {
    s in pool.slots && pool.slots[s].nodeId == nodeId && !pool.slots[s].invalid
  }

  function SameNodeRule(pool: Pool, nodeId: NodeId): SlotId -> bool { (s: SlotId) => SameNode(pool, s, nodeId) }

  function Recovered(pool: Pool): Pool { pool.(failures := 0, refreshNotBefore := 0) }

  /** The section after a successful fetch: a known endpoint is shared, a new one is added. */
  function FinishRefresh(pool: Pool, nodeId: NodeId, excluded: set<NodeId>, spare: SlotId): (Pool, Outcome)
  {
    var p := pool.(launching := Max(0, pool.launching - 1));
    match First(SameNodeRule(p, nodeId), p.table)
    case Some(s) =>
      if nodeId !in excluded && p.slots[s].active < p.contextsPerEndpoint
      then (Recovered(Lease(p, s)), Leased(s)) else (p, Sleep)
    case None =>
      var slots := p.slots[spare := Slot(nodeId, 1, false, 1, 0)];
      (Recovered(p.(table := p.table + [spare], slots := slots)), Leased(spare))
  }

  function Backoff(failures: nat): int
  {
    Min(FAILURE_BACKOFF_MAX, if failures == 0 then 1 else if failures == 1 then 2 else if failures == 2 then 4 else 8)
  }

  /** The section after a failed fetch. */
  function FailRefresh(pool: Pool, now: Time): Pool
  {
    pool.(launching := Max(0, pool.launching - 1), failures := pool.failures + 1,
          refreshNotBefore := Max(pool.refreshNotBefore, now + Backoff(pool.failures + 1)))
  }

  function Release(pool: Pool, s: SlotId): Pool
    requires s in pool.slots
  {
    var slot := pool.slots[s].(active := Max(0, pool.slots[s].active - 1));
    var p := pool.(slots := pool.slots[s := slot]);
    if slot.invalid && slot.active == 0 && s in pool.table then p.(table := Remove(pool.table, s)) else p
  }

  function Invalidate(pool: Pool, s: SlotId): Pool
    requires s in pool.slots
  {
    pool.(slots := pool.slots[s := pool.slots[s].(invalid := true)])
  }

  function Cooldown(pool: Pool, s: SlotId, seconds: int, now: Time): Pool
    requires s in pool.slots
  {
    var until := Max(pool.slots[s].cooldownUntil, now + Max(1, seconds));
    pool.(slots := pool.slots[s := pool.slots[s].(cooldownUntil := until)])
  }

  // ---- fetching an endpoint ---------------------------------------------------------------------------------------

  datatype Answer = FetchError | EmptyEndpoint | Endpoint(nodeId: NodeId, healthy: bool)

  const MAX_FETCHES: nat := 6
  const MAX_DISTINCT: nat := 3
  const MAX_ERRORS: nat := 3

  function ErrorCount(answers: seq<Answer>, n: nat): nat
    requires n <= |answers|
  {
    if n == 0 then 0 else ErrorCount(answers, n - 1) + (if answers[n - 1].FetchError? then 1 else 0)
  }

  function NodesSeen(answers: seq<Answer>, n: nat): set<NodeId>
    requires n <= |answers|
  {
    set i | 0 <= i < n && answers[i].Endpoint? :: answers[i].nodeId
  }

  /** Answer `k` is the first one for its endpoint. */
  predicate FirstSight(answers: seq<Answer>, k: nat)
    requires k < |answers|
  {
    answers[k].Endpoint? && answers[k].nodeId !in NodesSeen(answers, k)
  }

  /** The endpoint that answer `k` yields: seen first now, not excluded and healthy. */
  predicate Acceptable(answers: seq<Answer>, k: nat, excluded: set<NodeId>)
    requires k < |answers|
  {
    FirstSight(answers, k) && answers[k].nodeId !in excluded && answers[k].healthy
  }

  /** `_fetch_available_endpoint` from fetch `used` on, with the endpoints seen and the errors met so far. */
  function FetchFrom(
    answers: seq<Answer>, avoid: set<NodeId>, used: nat, seen: set<NodeId>, errors: nat): Option<NodeId>
    requires |answers| >= MAX_FETCHES
    decreases MAX_FETCHES - used
  {
    if |seen| >= MAX_DISTINCT || used >= MAX_FETCHES then None
    else
      match answers[used]
      case FetchError =>
        if errors + 1 >= MAX_ERRORS then None else FetchFrom(answers, avoid, used + 1, seen, errors + 1)
      case EmptyEndpoint => FetchFrom(answers, avoid, used + 1, seen, errors)
      case Endpoint(node, healthy) =>
        if node in seen then FetchFrom(answers, avoid, used + 1, seen, errors)
        else if node in avoid || !healthy then FetchFrom(answers, avoid, used + 1, seen + {node}, errors)
        else Some(node)
  }

  function Fetched(answers: seq<Answer>, avoid: set<NodeId>): Option<NodeId>
    requires |answers| >= MAX_FETCHES
  {
    FetchFrom(answers, avoid, 0, {}, 0)
  }

  /** Whatever the provider answers, a fetch yields a healthy endpoint that was not to be avoided. */
  lemma {:induction false} FetchedIsNotAvoided(
    answers: seq<Answer>, avoid: set<NodeId>, used: nat, seen: set<NodeId>, errors: nat)
    requires |answers| >= MAX_FETCHES
    ensures var found := FetchFrom(answers, avoid, used, seen, errors);
      found.Some? ==> found.value !in avoid && Endpoint(found.value, true) in answers
    decreases MAX_FETCHES - used
  {
    if |seen| < MAX_DISTINCT && used < MAX_FETCHES {
      var more := match answers[used] case Endpoint(node, _) => seen + {node} case _ => seen;
      FetchedIsNotAvoided(answers, avoid, used + 1, seen, errors);
      FetchedIsNotAvoided(answers, avoid, used + 1, more, errors);
      FetchedIsNotAvoided(answers, avoid, used + 1, seen, errors + 1);
      assert answers[used] in answers;
    }
  }

  /** What `used` fetches tell about the result: the first acceptable answer, or a limit that is used up. */
  ghost predicate FetchEnds(answers: seq<Answer>, avoid: set<NodeId>, used: nat, found: Option<NodeId>)
    requires |answers| >= MAX_FETCHES
  {
    && used <= MAX_FETCHES
    && (forall k :: 0 <= k < used && Acceptable(answers, k, avoid) ==> found.Some? && k == used - 1)
    && match found
       case Some(node) =>
         && 1 <= used && Acceptable(answers, used - 1, avoid) && node == answers[used - 1].nodeId
         && |NodesSeen(answers, used - 1)| < MAX_DISTINCT && ErrorCount(answers, used) < MAX_ERRORS
       case None =>
         used == MAX_FETCHES || |NodesSeen(answers, used)| >= MAX_DISTINCT || ErrorCount(answers, used) >= MAX_ERRORS
  }

  lemma OneMoreSeen(answers: seq<Answer>, used: nat)
    requires used < |answers|
    ensures NodesSeen(answers, used + 1) ==
      match answers[used] case Endpoint(node, _) => NodesSeen(answers, used) + {node} case _ => NodesSeen(answers, used)
  {
  }

  /** The search after `used` fetches. */
  function FetchAfter(answers: seq<Answer>, avoid: set<NodeId>, used: nat): Option<NodeId>
    requires |answers| >= MAX_FETCHES && used <= |answers|
  {
    FetchFrom(answers, avoid, used, NodesSeen(answers, used), ErrorCount(answers, used))
  }

  lemma OneMoreFetch(answers: seq<Answer>, avoid: set<NodeId>, used: nat)
    requires |answers| >= MAX_FETCHES && used < MAX_FETCHES && |NodesSeen(answers, used)| < MAX_DISTINCT
    requires ErrorCount(answers, used) < MAX_ERRORS
    ensures FetchAfter(answers, avoid, used) ==
      if Acceptable(answers, used, avoid) then Some(answers[used].nodeId)
      else if ErrorCount(answers, used + 1) >= MAX_ERRORS then None
      else FetchAfter(answers, avoid, used + 1)
  {
    OneMoreSeen(answers, used);
    if answers[used].Endpoint? && answers[used].nodeId in NodesSeen(answers, used) {
      assert NodesSeen(answers, used + 1) == NodesSeen(answers, used);
    }
  }

  lemma {:induction false} FetchAfterEnds(answers: seq<Answer>, avoid: set<NodeId>, used: nat) returns (last: nat)
    requires |answers| >= MAX_FETCHES && used <= MAX_FETCHES && ErrorCount(answers, used) < MAX_ERRORS
    requires forall k :: 0 <= k < used ==> !Acceptable(answers, k, avoid)
    ensures FetchEnds(answers, avoid, last, FetchAfter(answers, avoid, used))
    decreases MAX_FETCHES - used
  {
    last := used;
    if |NodesSeen(answers, used)| < MAX_DISTINCT && used < MAX_FETCHES {
      OneMoreFetch(answers, avoid, used);
      if Acceptable(answers, used, avoid) || ErrorCount(answers, used + 1) >= MAX_ERRORS {
        last := used + 1;
      } else {
        last := FetchAfterEnds(answers, avoid, used + 1);
      }
    }
  }

  /**
   * `_fetch_available_endpoint`: `answers` is what the provider and the probe would say, in order.
   * It returns the first acceptable endpoint, and gives up only after three errors, three distinct
   * endpoints or six fetches.
   */
  method FetchAvailable(answers: seq<Answer>, excluded: set<NodeId>) returns (found: Option<NodeId>)
    requires |answers| >= MAX_FETCHES
    ensures found == Fetched(answers, excluded)
    ensures exists used :: FetchEnds(answers, excluded, used, found)
  {
    found := FetchInTurn(answers, excluded);
    assert NodesSeen(answers, 0) == {};
    ghost var last := FetchAfterEnds(answers, excluded, 0);
  }

  method FetchInTurn(answers: seq<Answer>, excluded: set<NodeId>) returns (found: Option<NodeId>)
    requires |answers| >= MAX_FETCHES
    ensures found == Fetched(answers, excluded)
  {
    var seen: set<NodeId>, errors, used := {}, 0, 0;
    while |seen| < MAX_DISTINCT && used < MAX_FETCHES
      invariant used <= MAX_FETCHES
      invariant FetchFrom(answers, excluded, used, seen, errors) == Fetched(answers, excluded)
    {
      var answer := answers[used];
      used := used + 1;
      if answer.FetchError? {
        errors := errors + 1;
        if errors >= MAX_ERRORS { return None; }
        continue;
      }
      if answer.EmptyEndpoint? || answer.nodeId in seen { continue; }
      seen := seen + {answer.nodeId};
      if answer.nodeId in excluded || !answer.healthy { continue; }
      return Some(answer.nodeId);
    }
    found := None;
  }

  // ---- the pool with its callers ------------------------------------------------------------------------

  /** What a refresh is not to bring: the nodes its caller excluded and those listed when it began. */
  datatype Request = Request(excluded: set<NodeId>, known: set<NodeId>)

  /**
   * `held` counts the unreleased leases of each slot, `pending` are the refreshes under way, `leaked`
   * the cancelled ones.
   */
  datatype World = World(pool: Pool, held: multiset<SlotId>, pending: seq<Request>, leaked: nat)

  datatype Event =
    | DoAcquire(excluded: set<NodeId>, choice: SlotId, now: Time)
    | DoFinish(at: nat, answers: seq<Answer>, spare: SlotId)
    | DoFail(at: nat, now: Time)
    | DoCancel(at: nat)
    | DoRelease(slot: SlotId)
    | DoInvalidate(slot: SlotId)
    | DoCooldown(slot: SlotId, seconds: int, now: Time)

  function Avoided(r: Request): set<NodeId> { r.excluded + r.known }

  /** A lease is released once; a refresh ends once, and only with what it fetched; a new slot is a new identity. */
  predicate Legal(w: World, e: Event)
  {
    match e
    case DoAcquire(excluded, choice, now) =>
      First(CandidateRule(Purged(w.pool), excluded, now), Purged(w.pool).table).Some? ==>
        LeastLoaded(Purged(w.pool), choice, excluded, now)
    case DoFinish(at, answers, spare) =>
      && at < |w.pending| && spare !in w.pool.slots
      && |answers| >= MAX_FETCHES && Fetched(answers, Avoided(w.pending[at])).Some?
    case DoFail(at, _) => at < |w.pending|
    case DoCancel(at) => at < |w.pending|
    case DoRelease(s) => s in w.held && s in w.pool.slots
    case DoInvalidate(s) => s in w.pool.slots
    case DoCooldown(s, _, _) => s in w.pool.slots
  }

  function Hold(held: multiset<SlotId>, outcome: Outcome): multiset<SlotId>
  {
    if outcome.Leased? then held + multiset{outcome.slot} else held
  }

  function WithoutRequest(pending: seq<Request>, at: nat): (r: seq<Request>)
    requires at < |pending|
    ensures |r| == |pending| - 1
  {
    pending[..at] + pending[at + 1..]
  }

  function Next(w: World, e: Event): World
    requires Legal(w, e)
  {
    match e
    case DoAcquire(excluded, choice, now) =>
      var (pool, outcome) := Acquire(w.pool, excluded, choice, now);
      var begun := if outcome.Refresh? then [Request(excluded, outcome.known)] else [];
      World(pool, Hold(w.held, outcome), w.pending + begun, w.leaked)
    case DoFinish(at, answers, spare) =>
      var request := w.pending[at];
      var (pool, outcome) := FinishRefresh(w.pool, Fetched(answers, Avoided(request)).value, request.excluded, spare);
      World(pool, Hold(w.held, outcome), WithoutRequest(w.pending, at), w.leaked)
    case DoFail(at, now) => w.(pool := FailRefresh(w.pool, now), pending := WithoutRequest(w.pending, at))
    case DoCancel(at) => w.(pending := WithoutRequest(w.pending, at), leaked := w.leaked + 1)
    case DoRelease(s) => w.(pool := Release(w.pool, s), held := w.held - multiset{s})
    case DoInvalidate(s) => w.(pool := Invalidate(w.pool, s))
    case DoCooldown(s, seconds, now) => w.(pool := Cooldown(w.pool, s, seconds, now))
  }

  // ---- the invariant ------------------------------------------------------------------------------------------

  ghost predicate SlotInv(w: World, s: SlotId)
    requires s in w.pool.slots
  {
    && w.pool.slots[s].active == w.held[s] && w.pool.slots[s].active <= w.pool.contextsPerEndpoint
    && (w.pool.slots[s].active > 0 ==> s in w.pool.table)
  }

  ghost predicate DistinctNodes(pool: Pool)
  {
    forall s, t ::
      (s in pool.table && t in pool.table && s in pool.slots && t in pool.slots && s != t
       && !pool.slots[s].invalid && !pool.slots[t].invalid)
      ==> pool.slots[s].nodeId != pool.slots[t].nodeId
  }

  ghost predicate Inv(w: World)
  {
    && w.pool.contextsPerEndpoint >= 1
    && |w.pool.table| + w.pool.launching <= w.pool.maxEndpoints && w.pool.launching <= w.pool.maxRefreshes
    && w.pool.launching == |w.pending| + w.leaked
    && Distinct(w.pool.table) && (forall s :: s in w.pool.table ==> s in w.pool.slots)
    && (forall s :: s in w.held ==> s in w.pool.slots)
    && (forall s :: s in w.pool.slots ==> SlotInv(w, s))
    && DistinctNodes(w.pool)
  }

  lemma {:induction false} PurgeMembers(table: seq<SlotId>, slots: map<SlotId, Slot>)
    requires Distinct(table)
    ensures Distinct(Purge(table, slots))
    ensures forall s :: s in Purge(table, slots) <==>
      s in table && !(s in slots && slots[s].invalid && slots[s].active == 0)
  {
    if table != [] {
      PurgeMembers(table[1..], slots);
      assert table[0] !in table[1..];
      assert table[0] !in Purge(table[1..], slots);
    }
  }

  lemma PurgeKeepsInv(w: World)
    requires Inv(w)
    ensures Inv(w.(pool := Purged(w.pool)))
  {
    PurgeMembers(w.pool.table, w.pool.slots);
    var r := w.(pool := Purged(w.pool));
    forall s | s in r.pool.slots ensures SlotInv(r, s) { assert SlotInv(w, s); }
  }

  lemma LeaseKeepsInv(w: World, s: SlotId)
    requires Inv(w) && s in w.pool.table && w.pool.slots[s].active < w.pool.contextsPerEndpoint
    ensures Inv(w.(pool := Lease(w.pool, s), held := w.held + multiset{s}))
  {
    var r := w.(pool := Lease(w.pool, s), held := w.held + multiset{s});
    forall t | t in r.pool.slots ensures SlotInv(r, t) { assert SlotInv(w, t); }
  }

  function Reserved(p: World, request: Request): World
  {
    p.(pool := p.pool.(launching := p.pool.launching + 1), pending := p.pending + [request])
  }

  lemma ReservationKeepsInv(p: World, request: Request)
    requires Inv(p) && |p.pool.table| + p.pool.launching < p.pool.maxEndpoints && p.pool.launching < p.pool.maxRefreshes
    ensures Inv(Reserved(p, request))
  {
    var r := Reserved(p, request);
    forall s | s in r.pool.slots ensures SlotInv(r, s) { assert SlotInv(p, s); }
  }

  lemma AcquireIs(w: World, e: Event)
    requires Legal(w, e) && e.DoAcquire?
    ensures var p := w.(pool := Purged(w.pool));
      Next(w, e) ==
        if First(CandidateRule(p.pool, e.excluded, e.now), p.pool.table).Some? then
          p.(pool := Lease(p.pool, e.choice), held := p.held + multiset{e.choice})
        else if Acquire(w.pool, e.excluded, e.choice, e.now).1.Refresh? then
          Reserved(p, Request(e.excluded, KnownNodes(p.pool)))
        else p
    ensures Acquire(w.pool, e.excluded, e.choice, e.now).1.Refresh? ==>
      |Purged(w.pool).table| + w.pool.launching < w.pool.maxEndpoints && w.pool.launching < w.pool.maxRefreshes
  {
  }

  lemma AcquireKeepsInv(w: World, e: Event)
    requires Inv(w) && Legal(w, e) && e.DoAcquire?
    ensures Inv(Next(w, e))
  {
    PurgeKeepsInv(w);
    AcquireIs(w, e);
    var p := w.(pool := Purged(w.pool));
    if First(CandidateRule(p.pool, e.excluded, e.now), p.pool.table).Some? {
      LeaseKeepsInv(p, e.choice);
    } else if Acquire(w.pool, e.excluded, e.choice, e.now).1.Refresh? {
      ReservationKeepsInv(p, Request(e.excluded, KnownNodes(p.pool)));
    }
  }

  /** A new endpoint under a new identity leaves all other slots as they are. */
  lemma AddedSlots(w: World, nodeId: NodeId, spare: SlotId)
    requires Inv(w) && spare !in w.pool.slots
    ensures var r := Added(w, nodeId, spare);
      && spare !in w.pool.table && spare !in w.held
      && r.held[spare] == 1 && r.pool.slots[spare] == Slot(nodeId, 1, false, 1, 0)
      && (forall t :: t in r.pool.slots ==> SlotInv(r, t))
  {
    var r := Added(w, nodeId, spare);
    forall t | t in r.pool.slots ensures SlotInv(r, t) {
      if t != spare { assert SlotInv(w, t); }
    }
  }

  lemma AddedIsDistinct(w: World, nodeId: NodeId, spare: SlotId)
    requires DistinctNodes(w.pool) && Distinct(w.pool.table) && spare !in w.pool.table && spare !in w.pool.slots
    requires forall s :: s in w.pool.table ==> !SameNode(w.pool, s, nodeId)
    ensures DistinctNodes(Added(w, nodeId, spare).pool) && Distinct(Added(w, nodeId, spare).pool.table)
  {
  }

  lemma AddKeepsInv(w: World, nodeId: NodeId, spare: SlotId)
    requires Inv(w) && spare !in w.pool.slots && |w.pool.table| + w.pool.launching < w.pool.maxEndpoints
    requires forall s :: s in w.pool.table ==> !SameNode(w.pool, s, nodeId)
    ensures Inv(Added(w, nodeId, spare))
  {
    AddedSlots(w, nodeId, spare);
    AddedIsDistinct(w, nodeId, spare);
  }

  lemma BackoffFieldsAreFree(w: World, failures: nat, refreshNotBefore: Time)
    requires Inv(w)
    ensures Inv(w.(pool := w.pool.(failures := failures, refreshNotBefore := refreshNotBefore)))
  {
    var r := w.(pool := w.pool.(failures := failures, refreshNotBefore := refreshNotBefore));
    forall s | s in r.pool.slots ensures SlotInv(r, s) { assert SlotInv(w, s); }
  }

  function Unreserved(w: World, at: nat): World
    requires at < |w.pending|
  {
    w.(pool := w.pool.(launching := Max(0, w.pool.launching - 1)), pending := WithoutRequest(w.pending, at))
  }

  /** A refresh that is over gives its reservation back. */
  lemma UnreserveKeepsInv(w: World, at: nat)
    requires Inv(w) && at < |w.pending|
    ensures Inv(Unreserved(w, at)) && |w.pool.table| + Unreserved(w, at).pool.launching < w.pool.maxEndpoints
    ensures Unreserved(w, at).pool.table == w.pool.table && Unreserved(w, at).pool.slots == w.pool.slots
  {
    var r := Unreserved(w, at);
    forall s | s in r.pool.slots ensures SlotInv(r, s) { assert SlotInv(w, s); }
  }

  function Rested(w: World): World { w.(pool := Recovered(w.pool)) }

  function Shared(w: World, s: SlotId): World
    requires s in w.pool.slots
  {
    w.(pool := Lease(w.pool, s), held := w.held + multiset{s})
  }

  function Added(w: World, nodeId: NodeId, spare: SlotId): World
  {
    w.(pool := w.pool.(table := w.pool.table + [spare], slots := w.pool.slots[spare := Slot(nodeId, 1, false, 1, 0)]),
       held := w.held + multiset{spare})
  }

  /** The node that a finished refresh brings. */
  function NodeOf(w: World, e: Event): NodeId
    requires Legal(w, e) && e.DoFinish?
  {
    Fetched(e.answers, Avoided(w.pending[e.at])).value
  }

  lemma NodeIsNotAvoided(w: World, e: Event)
    requires Legal(w, e) && e.DoFinish?
    ensures NodeOf(w, e) !in w.pending[e.at].excluded && NodeOf(w, e) !in w.pending[e.at].known
  {
    FetchedIsNotAvoided(e.answers, Avoided(w.pending[e.at]), 0, {}, 0);
  }

  lemma FinishIs(w: World, e: Event)
    requires Legal(w, e) && e.DoFinish?
    ensures var p := Unreserved(w, e.at);
      Next(w, e) == match First(SameNodeRule(p.pool, NodeOf(w, e)), p.pool.table)
        case Some(s) => if p.pool.slots[s].active < p.pool.contextsPerEndpoint then Rested(Shared(p, s)) else p
        case None => Rested(Added(p, NodeOf(w, e), e.spare))
  {
    NodeIsNotAvoided(w, e);
  }

  lemma SharingKeepsInv(p: World, s: SlotId)
    requires Inv(p) && s in p.pool.table && p.pool.slots[s].active < p.pool.contextsPerEndpoint
    ensures Inv(Rested(Shared(p, s)))
  {
    LeaseKeepsInv(p, s);
    BackoffFieldsAreFree(Shared(p, s), 0, 0);
  }

  lemma AddingKeepsInv(p: World, nodeId: NodeId, spare: SlotId)
    requires Inv(p) && spare !in p.pool.slots && |p.pool.table| + p.pool.launching < p.pool.maxEndpoints
    requires First(SameNodeRule(p.pool, nodeId), p.pool.table).None?
    ensures Inv(Rested(Added(p, nodeId, spare)))
  {
    forall s | s in p.pool.table ensures !SameNode(p.pool, s, nodeId) { assert !SameNodeRule(p.pool, nodeId)(s); }
    AddKeepsInv(p, nodeId, spare);
    BackoffFieldsAreFree(Added(p, nodeId, spare), 0, 0);
  }

  lemma FinishKeepsInv(w: World, e: Event)
    requires Inv(w) && Legal(w, e) && e.DoFinish?
    ensures Inv(Next(w, e))
  {
    UnreserveKeepsInv(w, e.at);
    FinishIs(w, e);
    FinishedKeepsInv(Unreserved(w, e.at), NodeOf(w, e), e.spare, Next(w, e));
  }

  lemma FinishedKeepsInv(p: World, nodeId: NodeId, spare: SlotId, r: World)
    requires Inv(p) && spare !in p.pool.slots && |p.pool.table| + p.pool.launching < p.pool.maxEndpoints
    requires r == match First(SameNodeRule(p.pool, nodeId), p.pool.table)
      case Some(s) => if p.pool.slots[s].active < p.pool.contextsPerEndpoint then Rested(Shared(p, s)) else p
      case None => Rested(Added(p, nodeId, spare))
    ensures Inv(r)
  {
    match First(SameNodeRule(p.pool, nodeId), p.pool.table)
    case Some(s) => if p.pool.slots[s].active < p.pool.contextsPerEndpoint { SharingKeepsInv(p, s); }
    case None => AddingKeepsInv(p, nodeId, spare);
  }

  function Lowered(w: World, s: SlotId): World
    requires s in w.pool.slots
  {
    var slot := w.pool.slots[s].(active := Max(0, w.pool.slots[s].active - 1));
    w.(pool := w.pool.(slots := w.pool.slots[s := slot]), held := w.held - multiset{s})
  }

  lemma LoweringKeepsInv(w: World, s: SlotId)
    requires Inv(w) && s in w.held && s in w.pool.slots
    ensures Inv(Lowered(w, s)) && s in w.pool.table
  {
    var r := Lowered(w, s);
    assert SlotInv(w, s);
    forall t | t in r.pool.slots ensures SlotInv(r, t) { assert SlotInv(w, t); }
  }

  lemma DroppingUnusedKeepsInv(w: World, s: SlotId)
    requires Inv(w) && s in w.pool.table && w.pool.slots[s].active == 0
    ensures Inv(w.(pool := w.pool.(table := Remove(w.pool.table, s))))
  {
    RemoveMembers(w.pool.table, s);
    var r := w.(pool := w.pool.(table := Remove(w.pool.table, s)));
    forall t | t in r.pool.slots ensures SlotInv(r, t) { assert SlotInv(w, t); }
  }

  lemma ReleaseIs(w: World, s: SlotId)
    requires s in w.held && s in w.pool.slots && s in w.pool.table
    ensures var r := Lowered(w, s);
      Next(w, DoRelease(s)) ==
        if r.pool.slots[s].invalid && r.pool.slots[s].active == 0
        then r.(pool := r.pool.(table := Remove(r.pool.table, s))) else r
  {
    var r, q := Lowered(w, s), Release(w.pool, s);
    assert q.slots == r.pool.slots;
    if r.pool.slots[s].invalid && r.pool.slots[s].active == 0 {
      assert q == r.pool.(table := Remove(r.pool.table, s));
    } else {
      assert q == r.pool;
    }
  }

  lemma ReleaseKeepsInv(w: World, s: SlotId)
    requires Inv(w) && s in w.held && s in w.pool.slots
    ensures Inv(Next(w, DoRelease(s)))
  {
    LoweringKeepsInv(w, s);
    ReleaseIs(w, s);
    var r := Lowered(w, s);
    if r.pool.slots[s].invalid && r.pool.slots[s].active == 0 { DroppingUnusedKeepsInv(r, s); }
  }

  lemma MarkKeepsInv(w: World, s: SlotId, slot: Slot)
    requires Inv(w) && s in w.pool.slots
    requires slot.active == w.pool.slots[s].active && slot.nodeId == w.pool.slots[s].nodeId
    requires w.pool.slots[s].invalid ==> slot.invalid
    ensures Inv(w.(pool := w.pool.(slots := w.pool.slots[s := slot])))
  {
    var r := w.(pool := w.pool.(slots := w.pool.slots[s := slot]));
    forall t | t in r.pool.slots ensures SlotInv(r, t) { assert SlotInv(w, t); }
  }

  lemma FailKeepsInv(w: World, at: nat, now: Time)
    requires Inv(w) && at < |w.pending|
    ensures Inv(Next(w, DoFail(at, now)))
  {
    UnreserveKeepsInv(w, at);
    var r := Next(w, DoFail(at, now));
    BackoffFieldsAreFree(Unreserved(w, at), r.pool.failures, r.pool.refreshNotBefore);
  }

  lemma CancelKeepsInv(w: World, at: nat)
    requires Inv(w) && at < |w.pending|
    ensures Inv(Next(w, DoCancel(at)))
  {
    var r := Next(w, DoCancel(at));
    forall s | s in r.pool.slots ensures SlotInv(r, s) { assert SlotInv(w, s); }
  }

  lemma InvalidateKeepsInv(w: World, s: SlotId)
    requires Inv(w) && s in w.pool.slots
    ensures Inv(Next(w, DoInvalidate(s)))
  {
    MarkKeepsInv(w, s, w.pool.slots[s].(invalid := true));
  }

  lemma CooldownKeepsInv(w: World, s: SlotId, seconds: int, now: Time)
    requires Inv(w) && s in w.pool.slots
    ensures Inv(Next(w, DoCooldown(s, seconds, now)))
  {
    MarkKeepsInv(w, s, w.pool.slots[s].(cooldownUntil := Max(w.pool.slots[s].cooldownUntil, now + Max(1, seconds))));
  }

  lemma NextKeepsInv(w: World, e: Event)
    requires Inv(w) && Legal(w, e)
    ensures Inv(Next(w, e))
  {
    match e
    case DoAcquire(_, _, _) => AcquireKeepsInv(w, e);
    case DoFinish(_, _, _) => FinishKeepsInv(w, e);
    case DoFail(at, now) => FailKeepsInv(w, at, now);
    case DoCancel(at) => CancelKeepsInv(w, at);
    case DoRelease(s) => ReleaseKeepsInv(w, s);
    case DoInvalidate(s) => InvalidateKeepsInv(w, s);
    case DoCooldown(s, seconds, now) => CooldownKeepsInv(w, s, seconds, now);
  }

  ghost predicate Reaches(from: World, es: seq<Event>, to: World)
    decreases |es|
  {
    if es == [] then to == from else Legal(from, es[0]) && Reaches(Next(from, es[0]), es[1..], to)
  }

  function EmptyWorld(maxEndpoints: nat, contexts: nat, maxRefreshes: nat): World
  {
    World(Pool(maxEndpoints, contexts, maxRefreshes, [], map[], 0, 0, 0), multiset{}, [], 0)
  }

  /** Limits never change, and a cancelled refresh is never forgotten. */
  ghost predicate SameLimits(w: World, r: World)
  {
    && r.pool.maxEndpoints == w.pool.maxEndpoints && r.pool.contextsPerEndpoint == w.pool.contextsPerEndpoint
    && r.pool.maxRefreshes == w.pool.maxRefreshes && w.leaked <= r.leaked
  }

  lemma FinishKeepsLimits(w: World, e: Event)
    requires Legal(w, e) && e.DoFinish?
    ensures SameLimits(w, Next(w, e))
  {
    FinishIs(w, e);
  }

  lemma AcquireKeepsLimits(w: World, e: Event)
    requires Legal(w, e) && e.DoAcquire?
    ensures SameLimits(w, Next(w, e))
  {
    AcquireIs(w, e);
  }

  lemma ReleaseKeepsLimits(w: World, s: SlotId)
    requires Legal(w, DoRelease(s))
    ensures SameLimits(w, Next(w, DoRelease(s)))
  {
  }

  lemma NextKeepsLimits(w: World, e: Event)
    requires Legal(w, e)
    ensures SameLimits(w, Next(w, e))
  {
    match e
    case DoAcquire(_, _, _) => AcquireKeepsLimits(w, e);
    case DoFinish(_, _, _) => FinishKeepsLimits(w, e);
    case DoRelease(s) => ReleaseKeepsLimits(w, s);
    case _ =>
  }

  lemma {:induction false} RunKeepsInv(w: World, es: seq<Event>, r: World)
    requires Inv(w) && Reaches(w, es, r)
    ensures Inv(r) && SameLimits(w, r)
    decreases |es|
  {
    if es != [] {
      var next := Next(w, es[0]);
      NextKeepsInv(w, es[0]);
      NextKeepsLimits(w, es[0]);
      RunKeepsInv(next, es[1..], r);
    }
  }

  function LoadOf(pool: Pool): SlotId -> int { (s: SlotId) => if s in pool.slots then pool.slots[s].active else 0 }

  function ActiveLeases(pool: Pool): int { Total(LoadOf(pool), pool.table) }

  /**
   * In every reachable state the table and the reservations respect their limits even when refreshes
   * were cancelled, valid endpoints are distinct, and the table accounts for every unreleased lease.
   */
  lemma ReachablePoolIsSafe(maxEndpoints: nat, contexts: nat, maxRefreshes: nat, es: seq<Event>, w: World)
    requires maxEndpoints >= 1 && contexts >= 1 && maxRefreshes >= 1
    requires Reaches(EmptyWorld(maxEndpoints, contexts, maxRefreshes), es, w)
    ensures Inv(w)
    ensures |w.pool.table| + w.pool.launching <= maxEndpoints && w.pool.launching <= maxRefreshes
    ensures w.pool.launching == |w.pending| + w.leaked
    ensures forall s :: s in w.pool.slots ==> w.pool.slots[s].active == w.held[s] <= contexts
    ensures DistinctNodes(w.pool)
    ensures ActiveLeases(w.pool) == |w.held| <= maxEndpoints * contexts
  {
    RunKeepsInv(EmptyWorld(maxEndpoints, contexts, maxRefreshes), es, w);
    forall s | s in w.pool.slots
      ensures w.pool.slots[s].active == w.held[s] <= contexts && (w.pool.slots[s].active > 0 ==> s in w.pool.table)
    {
      assert SlotInv(w, s);
    }
    TotalCountsHolders(LoadOf(w.pool), w.pool.table, w.held);
    TotalIsBounded(LoadOf(w.pool), w.pool.table, contexts, maxEndpoints);
  }

  // ---- the pool object ----------------------------------------------------------------------------------------------

  class ReusableApiProxyPool {
    const maxEndpoints: nat
    const contextsPerEndpoint: nat
    const maxRefreshes: nat
    var table: seq<SlotId>
    var slots: map<SlotId, Slot>
    var launching: int
    var failures: nat
    var refreshNotBefore: Time

    function State(): Pool
      reads this
    {
      Pool(maxEndpoints, contextsPerEndpoint, maxRefreshes, table, slots, launching, failures, refreshNotBefore)
    }

    constructor (endpoints: int, contexts: int, refreshes: int)
      ensures State() == EmptyWorld(Max(1, endpoints), Max(1, contexts), Max(1, Min(Max(1, endpoints), refreshes))).pool
      ensures Inv(World(State(), multiset{}, [], 0)) && maxRefreshes <= maxEndpoints
    {
      maxEndpoints, contextsPerEndpoint := Max(1, endpoints), Max(1, contexts);
      maxRefreshes := Max(1, Min(Max(1, endpoints), refreshes));
      table, slots, launching, failures, refreshNotBefore := [], map[], 0, 0, 0;
    }

    method PurgeTable()
      modifies this`table
      ensures table == Purge(old(table), slots)
    {
      var kept: seq<SlotId> := [];
      for i := 0 to |table|
        invariant unchanged(this) && Purge(table, slots) == kept + Purge(table[i..], slots)
      {
        assert table[i..][1..] == table[i + 1..];
        var s := table[i];
        if !(s in slots && slots[s].invalid && slots[s].active == 0) { kept := kept + [s]; }
      }
      table := kept;
    }

    /** The smallest number of leases of a candidate, if there is one. */
    method SmallestLoad(excluded: set<NodeId>, now: Time) returns (minimum: Option<int>)
      ensures minimum.None? <==> forall k :: 0 <= k < |table| ==> !Candidate(State(), table[k], excluded, now)
      ensures minimum.Some? ==>
        exists k :: 0 <= k < |table| && Candidate(State(), table[k], excluded, now)
          && slots[table[k]].active == minimum.value
      ensures minimum.Some? ==>
        forall k :: 0 <= k < |table| && Candidate(State(), table[k], excluded, now) ==>
          minimum.value <= slots[table[k]].active
    {
      minimum := None;
      for i := 0 to |table|
        invariant minimum.None? ==> forall k :: 0 <= k < i ==> !Candidate(State(), table[k], excluded, now)
        invariant minimum.Some? ==>
          exists k :: 0 <= k < i && Candidate(State(), table[k], excluded, now)
            && slots[table[k]].active == minimum.value
        invariant minimum.Some? ==>
          forall k :: 0 <= k < i && Candidate(State(), table[k], excluded, now) ==>
            minimum.value <= slots[table[k]].active
      {
        if Candidate(State(), table[i], excluded, now) {
          var load := slots[table[i]].active;
          minimum := Some(if minimum.None? then load else Min(load, minimum.value));
        }
      }
    }

    /** The candidates with the fewest leases. */
    method LeastActive(excluded: set<NodeId>, now: Time) returns (least: seq<SlotId>)
      ensures least == [] <==> First(CandidateRule(State(), excluded, now), table).None?
      ensures forall s :: s in least <==> LeastLoaded(State(), s, excluded, now)
    {
      var minimum := SmallestLoad(excluded, now);
      least := [];
      for i := 0 to |table|
        invariant forall s :: s in least ==>
          s in table && Candidate(State(), s, excluded, now) && minimum == Some(slots[s].active)
        invariant forall k :: 0 <= k < i ==>
          (Candidate(State(), table[k], excluded, now) && minimum == Some(slots[table[k]].active) ==> table[k] in least)
      {
        if Candidate(State(), table[i], excluded, now) && minimum == Some(slots[table[i]].active) {
          least := least + [table[i]];
        }
      }
      NoCandidateExactly(minimum.None?, excluded, now);
      assert least != [] ==> least[0] in least;
      if minimum.Some? {
        var k :| 0 <= k < |table| && Candidate(State(), table[k], excluded, now)
          && slots[table[k]].active == minimum.value;
        assert table[k] in least;
      }
    }

    lemma NoCandidateExactly(none: bool, excluded: set<NodeId>, now: Time)
      requires none <==> forall k :: 0 <= k < |table| ==> !Candidate(State(), table[k], excluded, now)
      ensures none <==> First(CandidateRule(State(), excluded, now), table).None?
    {
      var first := First(CandidateRule(State(), excluded, now), table);
      if first.Some? {
        var k :| 0 <= k < |table| && table[k] == first.value;
      } else {
        forall k | 0 <= k < |table| ensures !Candidate(State(), table[k], excluded, now) {
          assert !CandidateRule(State(), excluded, now)(table[k]);
        }
      }
    }

    /** One of the least loaded candidates: drawn at random, or the one with the smallest node id. */
    method Choose(least: seq<SlotId>, randomSelect: bool, draw: nat) returns (best: SlotId)
      requires least != [] && forall s :: s in least ==> s in slots
      ensures best in least
      ensures !randomSelect ==> forall s :: s in least ==> StringLe(slots[best].nodeId, slots[s].nodeId)
    {
      if randomSelect { return least[draw % |least|]; }
      best := least[0];
      StringLeIsTotal(slots[best].nodeId, slots[best].nodeId);
      for i := 1 to |least|
        invariant best in least && forall k :: 0 <= k < i ==> StringLe(slots[best].nodeId, slots[least[k]].nodeId)
      {
        var node := slots[least[i]].nodeId;
        StringLeIsTotal(slots[best].nodeId, node);
        StringLeIsTotal(node, node);
        if !StringLe(slots[best].nodeId, node) {
          forall k | 0 <= k < i ensures StringLe(node, slots[least[k]].nodeId) {
            StringLeIsTransitive(node, slots[best].nodeId, slots[least[k]].nodeId);
          }
          best := least[i];
        }
      }
    }

    method TakeLease(s: SlotId)
      requires s in slots
      modifies this`slots
      ensures State() == Lease(old(State()), s)
    {
      slots := slots[s := slots[s].(active := slots[s].active + 1, totalLeases := slots[s].totalLeases + 1)];
    }

    /** One turn of the acquire loop under the lock. */
    method AcquireTurn(excluded: set<NodeId>, randomSelect: bool, draw: nat, now: Time)
      returns (outcome: Outcome, ghost choice: SlotId)
      modifies this
      ensures First(CandidateRule(Purged(old(State())), excluded, now), Purged(old(State())).table).Some? ==>
        LeastLoaded(Purged(old(State())), choice, excluded, now)
      ensures (State(), outcome) == Acquire(old(State()), excluded, choice, now)
    {
      PurgeTable();
      choice := 0;
      var least := LeastActive(excluded, now);
      if least != [] {
        var best := Choose(least, randomSelect, draw);
        choice := best;
        TakeLease(best);
        return Leased(best), best;
      }
      if refreshNotBefore > now { return Sleep, choice; }
      if |table| + launching < maxEndpoints && launching < maxRefreshes {
        var known := KnownNodes(State());
        launching := launching + 1;
        return Refresh(known), choice;
      }
      var cooling := false;
      for i := 0 to |table|
        invariant cooling <==> exists k :: 0 <= k < i && Cooling(State(), table[k], excluded, now)
      {
        cooling := cooling || Cooling(State(), table[i], excluded, now);
      }
      ghost var first := First(CoolingRule(State(), excluded, now), table);
      assert cooling <==> first.Some? by {
        if first.Some? {
          var k :| 0 <= k < |table| && table[k] == first.value;
        }
        if cooling {
          var k :| 0 <= k < |table| && Cooling(State(), table[k], excluded, now);
          assert CoolingRule(State(), excluded, now)(table[k]);
        }
      }
      return if cooling then Sleep else Wait, choice;
    }

    /** The section after a fetch that found `nodeId`. */
    method EndRefresh(nodeId: NodeId, excluded: set<NodeId>, spare: SlotId) returns (outcome: Outcome)
      modifies this
      ensures (State(), outcome) == FinishRefresh(old(State()), nodeId, excluded, spare)
    {
      launching := Max(0, launching - 1);
      ghost var p := State();
      for i := 0 to |table|
        invariant State() == p && First(SameNodeRule(p, nodeId), table) == First(SameNodeRule(p, nodeId), table[i..])
      {
        assert table[i..][1..] == table[i + 1..];
        var s := table[i];
        if s in slots && slots[s].nodeId == nodeId && !slots[s].invalid {
          if nodeId in excluded || slots[s].active >= contextsPerEndpoint { return Sleep; }
          TakeLease(s);
          failures, refreshNotBefore := 0, 0;
          return Leased(s);
        }
      }
      slots := slots[spare := Slot(nodeId, 1, false, 1, 0)];
      table := table + [spare];
      failures, refreshNotBefore := 0, 0;
      return Leased(spare);
    }

    method EndFailedRefresh(now: Time)
      modifies this
      ensures State() == FailRefresh(old(State()), now)
    {
      launching := Max(0, launching - 1);
      failures := failures + 1;
      refreshNotBefore := Max(refreshNotBefore, now + Backoff(failures));
    }

    method ReleaseSlot(s: SlotId)
      requires s in slots
      modifies this
      ensures State() == Release(old(State()), s)
    {
      slots := slots[s := slots[s].(active := Max(0, slots[s].active - 1))];
      if slots[s].invalid && slots[s].active == 0 && s in table { table := Remove(table, s); }
    }
  }

  class ApiProxyLease {
    const pool: ReusableApiProxyPool
    const slot: SlotId
    var released: bool

    constructor (pool: ReusableApiProxyPool, slot: SlotId)
      ensures this.pool == pool && this.slot == slot && !released
    {
      this.pool, this.slot, released := pool, slot, false;
    }

    /** The second and every later release of a lease changes nothing. */
    method Close()
      requires slot in pool.slots
      modifies this, pool
      ensures released
      ensures pool.State() == if old(released) then old(pool.State()) else Release(old(pool.State()), slot)
    {
      if released { return; }
      released := true;
      pool.ReleaseSlot(slot);
    }

    method MarkInvalid()
      requires slot in pool.slots
      modifies pool
      ensures pool.State() == Invalidate(old(pool.State()), slot)
    {
      pool.slots := pool.slots[slot := pool.slots[slot].(invalid := true)];
    }

    method CoolDown(seconds: int, now: Time)
      requires slot in pool.slots
      modifies pool
      ensures pool.State() == Cooldown(old(pool.State()), slot, seconds, now)
    {
      var until := Max(pool.slots[slot].cooldownUntil, now + Max(1, seconds));
      pool.slots := pool.slots[slot := pool.slots[slot].(cooldownUntil := until)];
    }
  }
}
