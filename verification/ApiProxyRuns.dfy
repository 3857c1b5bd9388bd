/** Whole runs of the endpoint pool: what may be granted, and when refreshes stop for good. */
module ApiProxyRuns {
  import opened ApiProxyPool
  import opened SlotTable
  import opened Util

  // ---- what is granted ---------------------------------------------------------------------------------

  predicate Asks(e: Event) { e.DoAcquire? || e.DoFinish? }

  function OutcomeOf(w: World, e: Event): Outcome
    requires Legal(w, e) && Asks(e)
  {
    match e
    case DoAcquire(excluded, choice, now) => Acquire(w.pool, excluded, choice, now).1
    case DoFinish(at, _, spare) => FinishRefresh(w.pool, NodeOf(w, e), w.pending[at].excluded, spare).1
  }

  /** The nodes that the caller of an acquire, or of the acquire behind a refresh, excluded. */
  function Exclusions(w: World, e: Event): set<NodeId>
    requires Legal(w, e) && Asks(e)
  {
    if e.DoAcquire? then e.excluded else w.pending[e.at].excluded
  }

  lemma AcquireGrants(w: World, e: Event)
    requires Legal(w, e) && e.DoAcquire? && OutcomeOf(w, e).Leased?
    ensures var s := OutcomeOf(w, e).slot;
      && s == e.choice && s in w.pool.slots && s in Next(w, e).pool.slots
      && Candidate(w.pool, s, e.excluded, e.now)
      && Next(w, e).pool.slots[s].nodeId == w.pool.slots[s].nodeId && !Next(w, e).pool.slots[s].invalid
  {
  }

  lemma RefreshGrants(w: World, e: Event)
    requires Legal(w, e) && e.DoFinish? && OutcomeOf(w, e).Leased?
    ensures var s, node := OutcomeOf(w, e).slot, NodeOf(w, e);
      && s in Next(w, e).pool.slots
      && Next(w, e).pool.slots[s].nodeId == node && !Next(w, e).pool.slots[s].invalid
      && node !in w.pending[e.at].excluded && node !in w.pending[e.at].known
      && (s in w.pool.slots ==> w.pool.slots[s].active < w.pool.contextsPerEndpoint && !w.pool.slots[s].invalid)
  {
    NodeIsNotAvoided(w, e);
  }

  /**
   * Whatever the provider answers, no lease is granted on an excluded, invalid or full endpoint; an
   * acquire does not grant a cooling one either.
   */
  lemma GrantsRespectExclusions(w: World, e: Event)
    requires Legal(w, e) && Asks(e) && OutcomeOf(w, e).Leased?
    ensures var s := OutcomeOf(w, e).slot;
      && s in Next(w, e).pool.slots
      && Next(w, e).pool.slots[s].nodeId !in Exclusions(w, e) && !Next(w, e).pool.slots[s].invalid
      && (s in w.pool.slots ==> !w.pool.slots[s].invalid && w.pool.slots[s].active < w.pool.contextsPerEndpoint)
      && (e.DoAcquire? ==> s in w.pool.slots && w.pool.slots[s].cooldownUntil <= e.now)
  {
    if e.DoAcquire? { AcquireGrants(w, e); } else { RefreshGrants(w, e); }
  }

  // ---- cooling endpoints ---------------------------------------------------------------------------------

  predicate LeasesCooling(w: World, e: Event, now: Time)
    requires Legal(w, e) && e.DoFinish?
  {
    var outcome := OutcomeOf(w, e);
    outcome.Leased? && outcome.slot in Next(w, e).pool.slots && Next(w, e).pool.slots[outcome.slot].cooldownUntil > now
  }

  /** The endpoint that a refresh brings is already listed, by its first valid slot. */
  function Duplicate(w: World, e: Event): Option<SlotId>
    requires Legal(w, e) && e.DoFinish?
  {
    First(SameNodeRule(w.pool, NodeOf(w, e)), w.pool.table)
  }

  lemma {:induction false} FirstIgnoresCounters(a: Pool, b: Pool, node: NodeId, table: seq<SlotId>)
    requires a.slots == b.slots
    ensures First(SameNodeRule(a, node), table) == First(SameNodeRule(b, node), table)
  {
    if table != [] { FirstIgnoresCounters(a, b, node, table[1..]); }
  }

  lemma FinishOutcome(w: World, e: Event)
    requires Legal(w, e) && e.DoFinish?
    ensures match Duplicate(w, e)
      case Some(s) =>
        if w.pool.slots[s].active < w.pool.contextsPerEndpoint then
          && OutcomeOf(w, e) == Leased(s) && s in Next(w, e).pool.slots
          && Next(w, e).pool.slots[s].cooldownUntil == w.pool.slots[s].cooldownUntil
        else OutcomeOf(w, e) == Sleep
      case None =>
        && OutcomeOf(w, e) == Leased(e.spare) && e.spare in Next(w, e).pool.slots
        && Next(w, e).pool.slots[e.spare].cooldownUntil == 0
  {
    NodeIsNotAvoided(w, e);
    var p := w.pool.(launching := Max(0, w.pool.launching - 1));
    FirstIgnoresCounters(p, w.pool, NodeOf(w, e), w.pool.table);
  }

  /**
   * A finished refresh leases a cooling endpoint exactly when the endpoint it brings is already listed,
   * and the first valid slot of it is cooling and has room. The check that an acquire makes is missing.
   */
  lemma RefreshLeasesCoolingExactly(w: World, e: Event, now: Time)
    requires Legal(w, e) && e.DoFinish? && now >= 0
    ensures LeasesCooling(w, e, now) <==>
      match Duplicate(w, e)
      case Some(s) => w.pool.slots[s].cooldownUntil > now && w.pool.slots[s].active < w.pool.contextsPerEndpoint
      case None => false
  {
    FinishOutcome(w, e);
  }

  /** With one refresh at a time, every listed node was listed when the pending refresh began. */
  ghost predicate Foreseen(w: World)
  {
    && w.pool.maxRefreshes <= 1
    && forall i, s :: 0 <= i < |w.pending| && s in w.pool.table && s in w.pool.slots ==>
         w.pool.slots[s].nodeId in w.pending[i].known
  }

  /** No slot joins the table and no slot changes its node. */
  ghost predicate NothingJoins(p: Pool, q: Pool)
  {
    && q.maxRefreshes == p.maxRefreshes
    && (forall s :: s in q.table ==> s in p.table)
    && (forall s :: s in q.slots && s in q.table ==> s in p.slots && q.slots[s].nodeId == p.slots[s].nodeId)
  }

  lemma ForeseenLasts(w: World, r: World)
    requires Foreseen(w) && NothingJoins(w.pool, r.pool) && forall q :: q in r.pending ==> q in w.pending
    ensures Foreseen(r)
  {
    forall i, s | 0 <= i < |r.pending| && s in r.pool.table && s in r.pool.slots
      ensures r.pool.slots[s].nodeId in r.pending[i].known
    {
      assert r.pending[i] in w.pending;
    }
  }

  lemma AcquireForesees(w: World, e: Event)
    requires Inv(w) && Foreseen(w) && Legal(w, e) && e.DoAcquire?
    ensures Foreseen(Next(w, e))
  {
    PurgeMembers(w.pool.table, w.pool.slots);
    var p := w.(pool := Purged(w.pool));
    ForeseenLasts(w, p);
    AcquireIs(w, e);
    if First(CandidateRule(p.pool, e.excluded, e.now), p.pool.table).Some? {
      ForeseenLasts(p, Next(w, e));
    }
  }

  lemma ReleaseForesees(w: World, s: SlotId)
    requires Inv(w) && Foreseen(w) && Legal(w, DoRelease(s))
    ensures Foreseen(Next(w, DoRelease(s)))
  {
    assert SlotInv(w, s);
    RemoveMembers(w.pool.table, s);
    ForeseenLasts(w, Next(w, DoRelease(s)));
  }

  lemma NextForesees(w: World, e: Event)
    requires Inv(w) && Foreseen(w) && Legal(w, e)
    ensures Foreseen(Next(w, e))
  {
    match e
    case DoAcquire(_, _, _) => AcquireForesees(w, e);
    case DoFinish(_, _, _) =>
      FinishIs(w, e);
      assert Next(w, e).pending == [];
    case DoFail(_, _) => assert Next(w, e).pending == [];
    case DoCancel(_) => assert Next(w, e).pending == [];
    case DoRelease(s) => ReleaseForesees(w, s);
    case DoInvalidate(_) => ForeseenLasts(w, Next(w, e));
    case DoCooldown(_, _, _) => ForeseenLasts(w, Next(w, e));
  }

  lemma {:induction false} RunForesees(w: World, es: seq<Event>, r: World)
    requires Inv(w) && Foreseen(w) && Reaches(w, es, r)
    ensures Inv(r) && Foreseen(r)
    decreases |es|
  {
    if es != [] {
      NextKeepsInv(w, es[0]);
      NextForesees(w, es[0]);
      RunForesees(Next(w, es[0]), es[1..], r);
    }
  }

  /** A pool that refreshes one endpoint at a time never leases a cooling endpoint, in any run. */
  lemma SoleRefreshNeverLeasesCooling(maxEndpoints: nat, contexts: nat, es: seq<Event>, w: World, e: Event, now: Time)
    requires maxEndpoints >= 1 && contexts >= 1 && now >= 0
    requires Reaches(EmptyWorld(maxEndpoints, contexts, 1), es, w) && Legal(w, e) && e.DoFinish?
    ensures !LeasesCooling(w, e, now)
  {
    RunForesees(EmptyWorld(maxEndpoints, contexts, 1), es, w);
    NodeIsNotAvoided(w, e);
    RefreshLeasesCoolingExactly(w, e, now);
    var d := Duplicate(w, e);
    assert d.Some? ==> SameNodeRule(w.pool, NodeOf(w, e))(d.value);
  }

  /** The provider answers with the same healthy endpoint every time. */
  const SameAnswers: seq<Answer> := seq(MAX_FETCHES, i => Endpoint("n", true))

  /** One of two concurrent refreshes brought the endpoint, which was told to cool down and then released. */
  function CoolingWorld(maxEndpoints: nat, contexts: nat, maxRefreshes: nat): World
  {
    World(Pool(maxEndpoints, contexts, maxRefreshes, [0], map[0 := Slot("n", 0, false, 1, 101)], 1, 0, 0),
          multiset{}, [Request({}, {})], 0)
  }

  function TwoRefreshes(maxEndpoints: nat, contexts: nat, maxRefreshes: nat): World
  {
    World(Pool(maxEndpoints, contexts, maxRefreshes, [], map[], 2, 0, 0), multiset{},
          [Request({}, {}), Request({}, {})], 0)
  }

  lemma RefreshBegins(w: World)
    requires w.pool.table == [] && w.pool.refreshNotBefore <= 0
    requires w.pool.launching < w.pool.maxEndpoints && w.pool.launching < w.pool.maxRefreshes
    ensures Legal(w, DoAcquire({}, 0, 0))
    ensures Next(w, DoAcquire({}, 0, 0)) ==
      w.(pool := w.pool.(launching := w.pool.launching + 1), pending := w.pending + [Request({}, {})])
  {
    assert KnownNodes(Purged(w.pool)) == {};
  }

  lemma TwoRefreshesReachable(maxEndpoints: nat, contexts: nat, maxRefreshes: nat)
    requires maxEndpoints >= 2 && maxRefreshes >= 2
    ensures Reaches(EmptyWorld(maxEndpoints, contexts, maxRefreshes), [DoAcquire({}, 0, 0), DoAcquire({}, 0, 0)],
                    TwoRefreshes(maxEndpoints, contexts, maxRefreshes))
  {
    var w, e := EmptyWorld(maxEndpoints, contexts, maxRefreshes), DoAcquire({}, 0, 0);
    RefreshBegins(w);
    var mid := Next(w, e);
    RefreshBegins(mid);
    OneStep(w, e);
    OneStep(mid, e);
    assert Next(mid, e) == TwoRefreshes(maxEndpoints, contexts, maxRefreshes);
    ReachesOnward(w, [e], mid, [e], Next(mid, e));
    assert [e] + [e] == [e, e];
  }

  lemma SameAnswersFetch()
    ensures Fetched(SameAnswers, {}) == Some("n")
  {
  }

  lemma EndpointIsBrought(w: World, e: Event)
    requires w == TwoRefreshes(w.pool.maxEndpoints, w.pool.contextsPerEndpoint, w.pool.maxRefreshes)
    requires e == DoFinish(0, SameAnswers, 0)
    ensures Legal(w, e)
    ensures var slots: map<SlotId, Slot> := map[0 := Slot("n", 1, false, 1, 0)];
      Next(w, e) == w.(pool := w.pool.(table := [0], slots := slots, launching := 1),
                       held := multiset{0}, pending := [Request({}, {})])
  {
    SameAnswersFetch();
    assert Avoided(w.pending[0]) == {};
    assert NodeOf(w, e) == "n";
    FinishIs(w, e);
    assert Next(w, e).pool.slots == map[0 := Slot("n", 1, false, 1, 0)];
    assert Next(w, e).pending == [Request({}, {})];
  }

  lemma CoolsAndIsReleased(w: World)
    requires w.pool.table == [0] && w.pool.slots == map[0 := Slot("n", 1, false, 1, 0)] && w.held == multiset{0}
    ensures Legal(w, DoCooldown(0, 100, 1)) && Legal(Next(w, DoCooldown(0, 100, 1)), DoRelease(0))
    ensures Next(Next(w, DoCooldown(0, 100, 1)), DoRelease(0)) ==
      w.(pool := w.pool.(slots := map[0 := Slot("n", 0, false, 1, 101)]), held := multiset{})
  {
    var mid := Next(w, DoCooldown(0, 100, 1));
    assert mid.pool.slots == map[0 := Slot("n", 1, false, 1, 101)];
    assert Next(mid, DoRelease(0)).pool.slots == map[0 := Slot("n", 0, false, 1, 101)];
  }

  lemma CoolingReachable(maxEndpoints: nat, contexts: nat, maxRefreshes: nat) returns (es: seq<Event>)
    ensures Reaches(TwoRefreshes(maxEndpoints, contexts, maxRefreshes), es,
                    CoolingWorld(maxEndpoints, contexts, maxRefreshes))
  {
    var w, e := TwoRefreshes(maxEndpoints, contexts, maxRefreshes), DoFinish(0, SameAnswers, 0);
    EndpointIsBrought(w, e);
    var one := Next(w, e);
    CoolsAndIsReleased(one);
    var two := Next(one, DoCooldown(0, 100, 1));
    OneStep(two, DoRelease(0));
    EventInFront(one, DoCooldown(0, 100, 1), [DoRelease(0)], Next(two, DoRelease(0)));
    EventInFront(w, e, [DoCooldown(0, 100, 1)] + [DoRelease(0)], Next(two, DoRelease(0)));
    es := [e] + ([DoCooldown(0, 100, 1)] + [DoRelease(0)]);
  }

  /** Two concurrent refreshes suffice: a reachable state in which the second one leases a cooling endpoint. */
  lemma CoolingEndpointIsLeased(maxEndpoints: nat, contexts: nat, maxRefreshes: nat) returns (es: seq<Event>)
    requires maxEndpoints >= 2 && contexts >= 1 && maxRefreshes >= 2
    ensures Reaches(EmptyWorld(maxEndpoints, contexts, maxRefreshes), es,
                    CoolingWorld(maxEndpoints, contexts, maxRefreshes))
    ensures var w, e := CoolingWorld(maxEndpoints, contexts, maxRefreshes), DoFinish(0, SameAnswers, 7);
      Legal(w, e) && OutcomeOf(w, e) == Leased(0) && LeasesCooling(w, e, 1)
  {
    var w := CoolingWorld(maxEndpoints, contexts, maxRefreshes);
    var rest := CoolingReachable(maxEndpoints, contexts, maxRefreshes);
    es := [DoAcquire({}, 0, 0), DoAcquire({}, 0, 0)] + rest;
    TwoRefreshesReachable(maxEndpoints, contexts, maxRefreshes);
    ReachesOnward(EmptyWorld(maxEndpoints, contexts, maxRefreshes), [DoAcquire({}, 0, 0), DoAcquire({}, 0, 0)],
                  TwoRefreshes(maxEndpoints, contexts, maxRefreshes), rest, w);
    SecondRefreshLeases(w);
  }

  lemma SecondRefreshLeases(w: World)
    requires w == CoolingWorld(w.pool.maxEndpoints, w.pool.contextsPerEndpoint, w.pool.maxRefreshes)
    requires w.pool.contextsPerEndpoint >= 1
    ensures var e := DoFinish(0, SameAnswers, 7); Legal(w, e) && OutcomeOf(w, e) == Leased(0) && LeasesCooling(w, e, 1)
  {
    var e := DoFinish(0, SameAnswers, 7);
    SameAnswersFetch();
    assert Avoided(w.pending[0]) == {} && NodeOf(w, e) == "n";
    assert Duplicate(w, e) == Some(0);
    FinishOutcome(w, e);
    RefreshLeasesCoolingExactly(w, e, 1);
  }

  /** Some run of the pool leads to a refresh that leases a cooling endpoint. */
  ghost predicate CanLeaseCooling(start: World)
  {
    exists es, w, e, now :: now >= 0 && Reaches(start, es, w) && Legal(w, e) && e.DoFinish? && LeasesCooling(w, e, now)
  }

  lemma TwoRefreshesMayLeaseCooling(maxEndpoints: nat, contexts: nat, maxRefreshes: nat)
    requires maxEndpoints >= 2 && contexts >= 1 && maxRefreshes >= 2
    ensures CanLeaseCooling(EmptyWorld(maxEndpoints, contexts, maxRefreshes))
  {
    var es := CoolingEndpointIsLeased(maxEndpoints, contexts, maxRefreshes);
    var w, e := CoolingWorld(maxEndpoints, contexts, maxRefreshes), DoFinish(0, SameAnswers, 7);
    assert Reaches(EmptyWorld(maxEndpoints, contexts, maxRefreshes), es, w) && LeasesCooling(w, e, 1);
  }

  lemma OneRefreshMayNot(maxEndpoints: nat, contexts: nat)
    requires maxEndpoints >= 1 && contexts >= 1
    ensures !CanLeaseCooling(EmptyWorld(maxEndpoints, contexts, 1))
  {
    var start := EmptyWorld(maxEndpoints, contexts, 1);
    if CanLeaseCooling(start) {
      var es, w, e, now :|
        now >= 0 && Reaches(start, es, w) && Legal(w, e) && e.DoFinish? && LeasesCooling(w, e, now);
      SoleRefreshNeverLeasesCooling(maxEndpoints, contexts, es, w, e, now);
    }
  }

  /** Exactly the pools that refresh more than one endpoint at a time can lease a cooling one. */
  lemma CoolingLeaseIsPossibleExactly(maxEndpoints: nat, contexts: nat, maxRefreshes: nat)
    requires 1 <= maxRefreshes <= maxEndpoints && contexts >= 1
    ensures CanLeaseCooling(EmptyWorld(maxEndpoints, contexts, maxRefreshes)) <==> maxRefreshes >= 2
  {
    if maxRefreshes >= 2 {
      TwoRefreshesMayLeaseCooling(maxEndpoints, contexts, maxRefreshes);
    } else {
      OneRefreshMayNot(maxEndpoints, contexts);
    }
  }

  // ---- invalid endpoints -----------------------------------------------------------------------------------

  ghost predicate Invalid(w: World, s: SlotId) { s in w.pool.slots && w.pool.slots[s].invalid }

  lemma NextKeepsInvalid(w: World, e: Event, s: SlotId)
    requires Legal(w, e) && Invalid(w, s)
    ensures Invalid(Next(w, e), s)
  {
    if e.DoAcquire? {
      AcquireKeepsInvalid(w, e, s);
    } else if e.DoFinish? {
      FinishKeepsInvalid(w, e, s);
    }
  }

  lemma AcquireKeepsInvalid(w: World, e: Event, s: SlotId)
    requires Legal(w, e) && Invalid(w, s) && e.DoAcquire?
    ensures Invalid(Next(w, e), s)
  {
    AcquireIs(w, e);
  }

  lemma FinishKeepsInvalid(w: World, e: Event, s: SlotId)
    requires Legal(w, e) && Invalid(w, s) && e.DoFinish?
    ensures Invalid(Next(w, e), s)
  {
    FinishIs(w, e);
  }

  /** An invalid slot stays invalid, so that no later acquire and no later refresh grants it. */
  lemma {:induction false} InvalidIsNeverGranted(w: World, es: seq<Event>, r: World, e: Event, s: SlotId)
    requires Invalid(w, s) && Reaches(w, es, r) && Legal(r, e) && Asks(e)
    ensures Invalid(r, s) && OutcomeOf(r, e) != Leased(s)
    decreases |es|
  {
    if es == [] {
      if OutcomeOf(r, e).Leased? { GrantsRespectExclusions(r, e); }
    } else {
      NextKeepsInvalid(w, es[0], s);
      InvalidIsNeverGranted(Next(w, es[0]), es[1..], r, e, s);
    }
  }

  // ---- leaked reservations -----------------------------------------------------------------------------------

  predicate StartsRefresh(w: World, e: Event)
  {
    Legal(w, e) && e.DoAcquire? && Acquire(w.pool, e.excluded, e.choice, e.now).1.Refresh?
  }

  /** The time at which the program reads the clock in an event, if it does. */
  function TimeOf(e: Event): Option<Time>
  {
    match e
    case DoAcquire(_, _, now) => Some(now)
    case DoFail(_, now) => Some(now)
    case DoCooldown(_, _, now) => Some(now)
    case _ => None
  }

  /** The clock starts at `from` and never goes back. */
  ghost predicate InOrder(es: seq<Event>, from: Time)
  {
    && (forall i :: 0 <= i < |es| && TimeOf(es[i]).Some? ==> from <= TimeOf(es[i]).value)
    && forall i, j :: 0 <= i < j < |es| && TimeOf(es[i]).Some? && TimeOf(es[j]).Some? ==>
         TimeOf(es[i]).value <= TimeOf(es[j]).value
  }

  /** No event reads a clock that shows anything but `now`. */
  ghost predicate AllAt(es: seq<Event>, now: Time)
  {
    forall e :: e in es && TimeOf(e).Some? ==> TimeOf(e).value == now
  }

  lemma AllAtOnward(first: seq<Event>, second: seq<Event>, now: Time)
    requires AllAt(first, now) && AllAt(second, now)
    ensures AllAt(first + second, now)
  {
  }

  lemma LastInOrder(es: seq<Event>, e: Event, from: Time)
    requires AllAt(es, from) && TimeOf(e).Some? && from <= TimeOf(e).value
    ensures InOrder(es + [e], from)
  {
    var all := es + [e];
    assert forall i :: 0 <= i < |es| ==> all[i] in es;
  }

  /** Some continuation leads to an acquire that starts a refresh, without turning the clock back behind `from`. */
  ghost predicate CanRefreshFrom(w: World, from: Time)
  {
    exists es, r, e :: Reaches(w, es, r) && StartsRefresh(r, e) && InOrder(es + [e], from)
  }

  /** Some continuation leads to an acquire that starts a refresh. */
  ghost predicate CanRefresh(w: World)
  {
    exists es, r, e :: Reaches(w, es, r) && StartsRefresh(r, e)
  }

  lemma EventInFront(w: World, e: Event, rest: seq<Event>, r: World)
    requires Legal(w, e) && Reaches(Next(w, e), rest, r)
    ensures Reaches(w, [e] + rest, r)
  {
    assert ([e] + rest)[1..] == rest;
  }

  lemma HeadAndRest(first: seq<Event>, second: seq<Event>)
    requires first != []
    ensures [first[0]] + (first[1..] + second) == first + second
  {
  }

  lemma {:induction false} ReachesOnward(w: World, first: seq<Event>, mid: World, second: seq<Event>, r: World)
    requires Reaches(w, first, mid) && Reaches(mid, second, r)
    ensures Reaches(w, first + second, r)
    decreases |first|
  {
    if first == [] {
      assert first + second == second;
    } else {
      var e, rest := first[0], first[1..];
      ReachesOnward(Next(w, e), rest, mid, second, r);
      EventInFront(w, e, rest + second, r);
      HeadAndRest(first, second);
    }
  }

  lemma OneStep(w: World, e: Event)
    requires Legal(w, e)
    ensures Reaches(w, [e], Next(w, e))
  {
    assert [e][1..] == [];
  }

  lemma FailOne(w: World, now: Time) returns (es: seq<Event>, r: World)
    requires Inv(w) && w.pending != []
    ensures Reaches(w, es, r) && Inv(r) && SameLimits(w, r) && AllAt(es, now)
    ensures |r.pending| == |w.pending| - 1 && r.leaked == w.leaked && r.pool.table == w.pool.table
  {
    es, r := [DoFail(0, now)], Next(w, DoFail(0, now));
    FailKeepsInv(w, 0, now);
    OneStep(w, DoFail(0, now));
  }

  /** The pending refreshes can all fail. */
  lemma {:induction false} FailPending(w: World, now: Time) returns (es: seq<Event>, r: World)
    requires Inv(w)
    ensures Reaches(w, es, r) && Inv(r) && SameLimits(w, r) && AllAt(es, now)
    ensures r.pending == [] && r.leaked == w.leaked && r.pool.table == w.pool.table
    decreases |w.pending|
  {
    if w.pending == [] {
      es, r := [], w;
    } else {
      var first, next := FailOne(w, now);
      var rest, last := FailPending(next, now);
      ReachesOnward(w, first, next, rest, last);
      AllAtOnward(first, rest, now);
      es, r := first + rest, last;
    }
  }

  ghost predicate FirstInvalid(w: World, n: nat)
  {
    n <= |w.pool.table| && forall i :: 0 <= i < n ==> Invalid(w, w.pool.table[i])
  }

  lemma InvalidateNext(w: World, n: nat, now: Time) returns (es: seq<Event>, r: World)
    requires Inv(w) && n < |w.pool.table| && FirstInvalid(w, n)
    ensures Reaches(w, es, r) && Inv(r) && SameLimits(w, r) && FirstInvalid(r, n + 1) && AllAt(es, now)
    ensures r.pending == w.pending && r.leaked == w.leaked && |r.pool.table| == |w.pool.table|
  {
    var s := w.pool.table[n];
    assert s in w.pool.table;
    es, r := [DoInvalidate(s)], Next(w, DoInvalidate(s));
    InvalidateKeepsInv(w, s);
    OneStep(w, DoInvalidate(s));
    forall i | 0 <= i < n + 1 ensures Invalid(r, r.pool.table[i]) {
      assert i < n ==> Invalid(w, w.pool.table[i]);
    }
  }

  /** The listed slots can all be invalidated. */
  lemma {:induction false} InvalidateListed(w: World, n: nat, now: Time) returns (es: seq<Event>, r: World)
    requires Inv(w) && FirstInvalid(w, n)
    ensures Reaches(w, es, r) && Inv(r) && SameLimits(w, r) && FirstInvalid(r, |r.pool.table|) && AllAt(es, now)
    ensures r.pending == w.pending && r.leaked == w.leaked
    decreases |w.pool.table| - n
  {
    if n == |w.pool.table| {
      es, r := [], w;
    } else {
      var first, next := InvalidateNext(w, n, now);
      var rest, last := InvalidateListed(next, n + 1, now);
      ReachesOnward(w, first, next, rest, last);
      AllAtOnward(first, rest, now);
      es, r := first + rest, last;
    }
  }

  ghost predicate AllInvalid(w: World) { forall s :: s in w.pool.table ==> Invalid(w, s) }

  lemma ReleaseKeepsInvalid(w: World, s: SlotId)
    requires Inv(w) && AllInvalid(w) && Legal(w, DoRelease(s))
    ensures AllInvalid(Next(w, DoRelease(s)))
  {
    var r := Next(w, DoRelease(s));
    assert SlotInv(w, s);
    RemoveMembers(w.pool.table, s);
    forall t | t in r.pool.table ensures Invalid(r, t) { assert Invalid(w, t); }
  }

  lemma ReleaseOne(w: World, s: SlotId, now: Time) returns (es: seq<Event>, r: World)
    requires Inv(w) && AllInvalid(w) && s in w.held
    ensures Reaches(w, es, r) && Inv(r) && SameLimits(w, r) && AllInvalid(r) && AllAt(es, now)
    ensures r.pending == w.pending && r.leaked == w.leaked && |r.held| == |w.held| - 1
  {
    es, r := [DoRelease(s)], Next(w, DoRelease(s));
    ReleaseKeepsInvalid(w, s);
    ReleaseKeepsInv(w, s);
    ReleaseKeepsLimits(w, s);
    OneStep(w, DoRelease(s));
    assert w.held == r.held + multiset{s};
  }

  /** The leases can all be released. */
  lemma {:induction false} ReleaseHeld(w: World, now: Time) returns (es: seq<Event>, r: World)
    requires Inv(w) && w.pending == [] && AllInvalid(w)
    ensures Reaches(w, es, r) && Inv(r) && SameLimits(w, r) && AllInvalid(r) && AllAt(es, now)
    ensures r.pending == [] && r.leaked == w.leaked && r.held == multiset{}
    decreases |w.held|
  {
    if w.held == multiset{} {
      es, r := [], w;
    } else {
      var s :| s in w.held;
      var first, next := ReleaseOne(w, s, now);
      var rest, last := ReleaseHeld(next, now);
      ReachesOnward(w, first, next, rest, last);
      AllAtOnward(first, rest, now);
      es, r := first + rest, last;
    }
  }

  lemma {:induction false} PurgeEmpties(table: seq<SlotId>, slots: map<SlotId, Slot>)
    requires forall s :: s in table ==> s in slots && slots[s].invalid && slots[s].active == 0
    ensures Purge(table, slots) == []
  {
    if table != [] { PurgeEmpties(table[1..], slots); }
  }

  lemma IdlePoolRefreshes(w: World, now: Time)
    requires Inv(w) && AllInvalid(w) && w.held == multiset{} && w.pending == [] && w.pool.refreshNotBefore <= now
    requires w.leaked < w.pool.maxRefreshes <= w.pool.maxEndpoints
    ensures StartsRefresh(w, DoAcquire({}, 0, now))
  {
    forall s | s in w.pool.table ensures s in w.pool.slots && w.pool.slots[s].invalid && w.pool.slots[s].active == 0 {
      assert Invalid(w, s) && SlotInv(w, s);
    }
    PurgeEmpties(w.pool.table, w.pool.slots);
  }

  lemma AllAreInvalid(w: World)
    requires FirstInvalid(w, |w.pool.table|)
    ensures AllInvalid(w)
  {
  }

  lemma FailAndInvalidate(w: World, now: Time) returns (es: seq<Event>, r: World)
    requires Inv(w)
    ensures Reaches(w, es, r) && Inv(r) && SameLimits(w, r) && AllInvalid(r) && AllAt(es, now)
    ensures r.pending == [] && r.leaked == w.leaked
  {
    var first, next := FailPending(w, now);
    var rest, last := InvalidateListed(next, 0, now);
    AllAreInvalid(last);
    ReachesOnward(w, first, next, rest, last);
    AllAtOnward(first, rest, now);
    es, r := first + rest, last;
  }

  /** From any state the pool can be emptied, except for the leaked reservations. */
  lemma Emptied(w: World, now: Time) returns (es: seq<Event>, r: World)
    requires Inv(w)
    ensures Reaches(w, es, r) && Inv(r) && SameLimits(w, r) && AllInvalid(r) && AllAt(es, now)
    ensures r.pending == [] && r.leaked == w.leaked && r.held == multiset{}
  {
    var first, next := FailAndInvalidate(w, now);
    var rest, last := ReleaseHeld(next, now);
    ReachesOnward(w, first, next, rest, last);
    AllAtOnward(first, rest, now);
    es, r := first + rest, last;
  }

  lemma RoomForOneRefresh(w: World, from: Time)
    requires Inv(w) && w.leaked < w.pool.maxRefreshes <= w.pool.maxEndpoints
    ensures CanRefreshFrom(w, from)
  {
    var es, r := Emptied(w, from);
    var e := DoAcquire({}, 0, Max(from, r.pool.refreshNotBefore));
    IdlePoolRefreshes(r, e.now);
    LastInOrder(es, e, from);
    assert Reaches(w, es, r) && StartsRefresh(r, e) && InOrder(es + [e], from);
  }

  lemma FullOfLeaks(w: World, es: seq<Event>, r: World, e: Event)
    requires Inv(w) && w.leaked >= w.pool.maxRefreshes && Reaches(w, es, r)
    ensures !StartsRefresh(r, e)
  {
    RunKeepsInv(w, es, r);
  }

  lemma OrderIsNoHelp(w: World, from: Time)
    requires CanRefreshFrom(w, from)
    ensures CanRefresh(w)
  {
  }

  lemma RefreshNeedsRoom(w: World)
    requires Inv(w) && CanRefresh(w)
    ensures w.leaked < w.pool.maxRefreshes
  {
    var es, r, e :| Reaches(w, es, r) && StartsRefresh(r, e);
    if w.leaked >= w.pool.maxRefreshes { FullOfLeaks(w, es, r, e); }
  }

  /**
   * Cancelled refreshes are never forgiven: from a state of the pool some refresh can still begin, in some
   * continuation, exactly when fewer refreshes were cancelled than may run at once. The continuation never
   * has to turn the clock back.
   */
  lemma LeakedPoolRefreshesExactly(w: World, from: Time)
    requires Inv(w) && w.pool.maxRefreshes <= w.pool.maxEndpoints
    ensures CanRefresh(w) <==> w.leaked < w.pool.maxRefreshes
    ensures CanRefreshFrom(w, from) <==> w.leaked < w.pool.maxRefreshes
  {
    if w.leaked < w.pool.maxRefreshes { RoomForOneRefresh(w, from); }
    if CanRefreshFrom(w, from) { OrderIsNoHelp(w, from); }
    if CanRefresh(w) { RefreshNeedsRoom(w); }
  }

  function LeakedWorld(maxEndpoints: nat, contexts: nat, maxRefreshes: nat, n: nat): World
  {
    World(Pool(maxEndpoints, contexts, maxRefreshes, [], map[], n, 0, 0), multiset{}, [], n)
  }

  /** An acquire whose refresh is cancelled. */
  lemma OneMoreLeak(maxEndpoints: nat, contexts: nat, maxRefreshes: nat, n: nat) returns (es: seq<Event>)
    requires n < maxRefreshes <= maxEndpoints
    ensures Reaches(LeakedWorld(maxEndpoints, contexts, maxRefreshes, n), es,
                    LeakedWorld(maxEndpoints, contexts, maxRefreshes, n + 1))
  {
    var w := LeakedWorld(maxEndpoints, contexts, maxRefreshes, n);
    RefreshBegins(w);
    var mid := Next(w, DoAcquire({}, 0, 0));
    OneStep(w, DoAcquire({}, 0, 0));
    assert WithoutRequest(mid.pending, 0) == [];
    assert Next(mid, DoCancel(0)) == LeakedWorld(maxEndpoints, contexts, maxRefreshes, n + 1);
    OneStep(mid, DoCancel(0));
    ReachesOnward(w, [DoAcquire({}, 0, 0)], mid, [DoCancel(0)], Next(mid, DoCancel(0)));
    es := [DoAcquire({}, 0, 0)] + [DoCancel(0)];
  }

  /** The exhausted state is reachable in every pool: its callers only have to be cancelled often enough. */
  lemma {:induction false} LeaksCanFillThePool(maxEndpoints: nat, contexts: nat, maxRefreshes: nat, n: nat)
    returns (es: seq<Event>)
    requires n <= maxRefreshes <= maxEndpoints
    ensures Reaches(EmptyWorld(maxEndpoints, contexts, maxRefreshes), es,
                    LeakedWorld(maxEndpoints, contexts, maxRefreshes, n))
  {
    if n == 0 {
      es := [];
    } else {
      var before := LeaksCanFillThePool(maxEndpoints, contexts, maxRefreshes, n - 1);
      es := LeakOnceMore(maxEndpoints, contexts, maxRefreshes, n - 1, before);
    }
  }

  lemma LeakOnceMore(maxEndpoints: nat, contexts: nat, maxRefreshes: nat, n: nat, before: seq<Event>)
    returns (es: seq<Event>)
    requires n < maxRefreshes <= maxEndpoints
    requires Reaches(EmptyWorld(maxEndpoints, contexts, maxRefreshes), before,
                     LeakedWorld(maxEndpoints, contexts, maxRefreshes, n))
    ensures Reaches(EmptyWorld(maxEndpoints, contexts, maxRefreshes), es,
                    LeakedWorld(maxEndpoints, contexts, maxRefreshes, n + 1))
  {
    var step := OneMoreLeak(maxEndpoints, contexts, maxRefreshes, n);
    es := before + step;
    ReachesOnward(EmptyWorld(maxEndpoints, contexts, maxRefreshes), before,
                  LeakedWorld(maxEndpoints, contexts, maxRefreshes, n), step,
                  LeakedWorld(maxEndpoints, contexts, maxRefreshes, n + 1));
  }
}
