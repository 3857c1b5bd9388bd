/** What each call of the endpoint pool means for its callers, read from the fields of the slots. */
module ApiProxyCalls {
  import opened SlotTable
  import opened Util
  import opened ApiProxyPool

  ghost predicate Sound(pool: Pool) { Distinct(pool.table) && forall s :: s in pool.table ==> s in pool.slots }

  /** An endpoint with room that works and that the caller did not exclude. */
  predicate HasRoom(slot: Slot, excluded: set<NodeId>, limit: nat)
  {
    !slot.invalid && slot.nodeId !in excluded && slot.active < limit
  }

  predicate Rested(slot: Slot, now: Time) { now >= slot.cooldownUntil }

  /** An invalid endpoint that nobody uses any more. */
  predicate Spent(slot: Slot) { slot.invalid && slot.active == 0 }

  ghost predicate Ready(pool: Pool, s: SlotId, excluded: set<NodeId>, now: Time)
  {
    && s in pool.table && s in pool.slots
    && HasRoom(pool.slots[s], excluded, pool.contextsPerEndpoint) && Rested(pool.slots[s], now)
  }

  ghost predicate Resting(pool: Pool, s: SlotId, excluded: set<NodeId>, now: Time)
  {
    && s in pool.table && s in pool.slots
    && HasRoom(pool.slots[s], excluded, pool.contextsPerEndpoint) && !Rested(pool.slots[s], now)
  }

  /** Room for one more endpoint next to those that stay and those being fetched, and for one more refresh. */
  predicate RoomToRefresh(pool: Pool, endpoints: nat)
  {
    endpoints + pool.launching < pool.maxEndpoints && pool.launching < pool.maxRefreshes
  }

  lemma PurgedMeans(pool: Pool)
    requires Sound(pool)
    ensures var p := Purged(pool);
      && Sound(p) && p == pool.(table := p.table)
      && (forall s :: s in p.table <==> s in pool.table && !Spent(pool.slots[s]))
  {
    PurgeMembers(pool.table, pool.slots);
  }

  lemma CandidatesAreReady(pool: Pool, excluded: set<NodeId>, now: Time)
    requires Sound(pool)
    ensures var p := Purged(pool);
      && (First(CandidateRule(p, excluded, now), p.table).Some? <==> exists s :: Ready(pool, s, excluded, now))
      && (First(CoolingRule(p, excluded, now), p.table).Some? <==> exists s :: Resting(pool, s, excluded, now))
      && (forall s :: s in p.table && Candidate(p, s, excluded, now) <==> Ready(pool, s, excluded, now))
  {
    PurgedMeans(pool);
    var p := Purged(pool);
    var candidate, cooling := CandidateRule(p, excluded, now), CoolingRule(p, excluded, now);
    if s :| Ready(pool, s, excluded, now) { assert s in p.table && candidate(s); }
    if s :| Resting(pool, s, excluded, now) { assert s in p.table && cooling(s); }
    if First(candidate, p.table).Some? { assert Ready(pool, First(candidate, p.table).value, excluded, now); }
    if First(cooling, p.table).Some? { assert Resting(pool, First(cooling, p.table).value, excluded, now); }
  }

  /** The least loaded of the endpoints that are ready is leased, whenever there is one. */
  lemma AcquireLeases(pool: Pool, excluded: set<NodeId>, choice: SlotId, now: Time)
    requires Sound(pool)
    requires First(CandidateRule(Purged(pool), excluded, now), Purged(pool).table).Some? ==>
      LeastLoaded(Purged(pool), choice, excluded, now)
    ensures var (r, outcome) := Acquire(pool, excluded, choice, now);
      && (outcome.Leased? <==> exists s :: Ready(pool, s, excluded, now))
      && (outcome.Leased? ==>
           var s := outcome.slot;
           && Ready(pool, s, excluded, now)
           && (forall t :: Ready(pool, t, excluded, now) ==> pool.slots[s].active <= pool.slots[t].active)
           && r.slots == pool.slots[s := pool.slots[s].(active := pool.slots[s].active + 1,
                                                        totalLeases := pool.slots[s].totalLeases + 1)]
           && r == pool.(table := r.table, slots := r.slots))
  {
    PurgedMeans(pool);
    CandidatesAreReady(pool, excluded, now);
  }

  /**
   * With no endpoint ready, a refresh begins exactly when no backoff is on and there is room. Otherwise
   * the caller sleeps if a backoff is on or an endpoint cools down, and waits to be woken if not.
   */
  lemma AcquireRefreshes(pool: Pool, excluded: set<NodeId>, choice: SlotId, now: Time)
    requires Sound(pool) && forall s :: !Ready(pool, s, excluded, now)
    ensures First(CandidateRule(Purged(pool), excluded, now), Purged(pool).table).None?
    ensures var (r, outcome) := Acquire(pool, excluded, choice, now);
      var begins := pool.refreshNotBefore <= now && RoomToRefresh(pool, |r.table|);
      && (outcome.Refresh? <==> begins)
      && (outcome.Sleep? <==>
           !begins && (pool.refreshNotBefore > now || exists s :: Resting(pool, s, excluded, now)))
      && (outcome.Refresh? ==> outcome.known == set s | s in r.table && s in r.slots :: r.slots[s].nodeId)
      && r == pool.(table := r.table, launching := pool.launching + if begins then 1 else 0)
  {
    CandidatesAreReady(pool, excluded, now);
    PurgedMeans(pool);
  }

  /** Every acquire drops the spent endpoints, and no other. */
  lemma AcquirePurges(pool: Pool, excluded: set<NodeId>, choice: SlotId, now: Time)
    requires Sound(pool)
    requires First(CandidateRule(Purged(pool), excluded, now), Purged(pool).table).Some? ==>
      LeastLoaded(Purged(pool), choice, excluded, now)
    ensures var r := Acquire(pool, excluded, choice, now).0;
      Distinct(r.table) && forall s :: s in r.table <==> s in pool.table && !Spent(pool.slots[s])
  {
    PurgedMeans(pool);
  }

  // ---- the end of a refresh --------------------------------------------------------------------------------

  /** Slot `s` is the first listed one of the node that is not invalid. */
  ghost predicate Known(pool: Pool, nodeId: NodeId, s: SlotId)
  {
    exists i :: 0 <= i < |pool.table| && pool.table[i] == s && s in pool.slots
      && pool.slots[s].nodeId == nodeId && !pool.slots[s].invalid
      && forall k :: 0 <= k < i && pool.table[k] in pool.slots ==>
           pool.slots[pool.table[k]].nodeId != nodeId || pool.slots[pool.table[k]].invalid
  }

  lemma KnownIsFound(pool: Pool, nodeId: NodeId)
    ensures forall s: SlotId :: First(SameNodeRule(pool, nodeId), pool.table) == Some(s) <==> Known(pool, nodeId, s)
  {
    FirstIsFirst(SameNodeRule(pool, nodeId), pool.table);
    forall s: SlotId ensures FirstOf(SameNodeRule(pool, nodeId), pool.table, s) <==> Known(pool, nodeId, s) { }
  }

  /**
   * A fetched endpoint that the pool does not know is added with one lease; one that it knows is leased if
   * it has room and is not excluded. A lease ends the backoff; otherwise only the refresh is over.
   */
  lemma FinishMeans(pool: Pool, nodeId: NodeId, excluded: set<NodeId>, spare: SlotId)
    requires spare !in pool.slots && pool.launching > 0
    ensures var (r, outcome) := FinishRefresh(pool, nodeId, excluded, spare);
      && r.launching == pool.launching - 1
      && (outcome.Leased? || outcome.Sleep?)
      && (outcome.Leased? ==> r.failures == 0 && r.refreshNotBefore == 0)
      && (outcome.Sleep? ==> r == pool.(launching := r.launching))
      && (forall s :: Known(pool, nodeId, s) ==>
           && r.table == pool.table
           && (outcome.Leased? <==> nodeId !in excluded && pool.slots[s].active < pool.contextsPerEndpoint)
           && (outcome.Leased? ==>
                && outcome.slot == s
                && r.slots == pool.slots[s := pool.slots[s].(active := pool.slots[s].active + 1,
                                                             totalLeases := pool.slots[s].totalLeases + 1)]))
      && ((forall s :: !Known(pool, nodeId, s)) ==>
           && outcome == Leased(spare) && r.table == pool.table + [spare]
           && r.slots == pool.slots[spare := Slot(nodeId, 1, false, 1, 0)])
  {
    var p := pool.(launching := pool.launching - 1);
    KnownIsFound(p, nodeId);
    forall s ensures Known(p, nodeId, s) <==> Known(pool, nodeId, s) { }
  }

  /** How long a failure keeps the pool from refreshing: 2, 4, and from the third in a row on 8 seconds. */
  function Pause(failures: nat): int { if failures == 0 then 2 else if failures == 1 then 4 else 8 }

  lemma FailMeans(pool: Pool, now: Time)
    requires pool.launching > 0
    ensures var r := FailRefresh(pool, now);
      && r == pool.(launching := pool.launching - 1, failures := pool.failures + 1,
                    refreshNotBefore := r.refreshNotBefore)
      && r.refreshNotBefore >= pool.refreshNotBefore && r.refreshNotBefore >= now + Pause(pool.failures)
      && (r.refreshNotBefore == pool.refreshNotBefore || r.refreshNotBefore == now + Pause(pool.failures))
  {
  }

  // ---- leases -------------------------------------------------------------------------------------------------

  lemma ReleaseMeans(pool: Pool, s: SlotId)
    requires Sound(pool) && s in pool.slots && pool.slots[s].active > 0
    ensures var r, before := Release(pool, s), pool.slots[s];
      && r == pool.(table := r.table, slots := pool.slots[s := before.(active := before.active - 1)])
      && Distinct(r.table)
      && (forall t :: t in r.table <==> t in pool.table && !(t == s && before.active == 1 && before.invalid))
  {
    if s in pool.table { RemoveMembers(pool.table, s); }
  }

  /** The endpoint rests for the seconds given, for one second at least, and never less long than before. */
  lemma CooldownMeans(pool: Pool, s: SlotId, seconds: int, now: Time)
    requires s in pool.slots
    ensures var r, until := Cooldown(pool, s, seconds, now), pool.slots[s].cooldownUntil;
      var wanted := now + if seconds < 1 then 1 else seconds;
      r == pool.(slots := pool.slots[s := pool.slots[s].(cooldownUntil := if wanted > until then wanted else until)])
  {
  }

  /** An invalidated endpoint stays listed for those who use it, and is leased to nobody else. */
  lemma InvalidateMeans(pool: Pool, s: SlotId, excluded: set<NodeId>, choice: SlotId, now: Time)
    requires Sound(pool) && s in pool.slots
    ensures var r := Invalidate(pool, s);
      && r == pool.(slots := pool.slots[s := pool.slots[s].(invalid := true)])
      && ((First(CandidateRule(Purged(r), excluded, now), Purged(r).table).Some? ==>
             LeastLoaded(Purged(r), choice, excluded, now))
          ==> Acquire(r, excluded, choice, now).1 != Leased(s))
  {
  }

  // ---- over runs ----------------------------------------------------------------------------------------------

  /** Slots stay known, and their cooldowns are never cut short. */
  ghost predicate CooldownsLast(p: Pool, q: Pool)
  {
    forall s :: s in p.slots ==> s in q.slots && q.slots[s].cooldownUntil >= p.slots[s].cooldownUntil
  }

  lemma AcquireKeepsDeadlines(pool: Pool, excluded: set<NodeId>, choice: SlotId, now: Time)
    requires First(CandidateRule(Purged(pool), excluded, now), Purged(pool).table).Some? ==>
      LeastLoaded(Purged(pool), choice, excluded, now)
    ensures var r := Acquire(pool, excluded, choice, now).0;
      CooldownsLast(pool, r) && r.refreshNotBefore == pool.refreshNotBefore
  {
  }

  lemma FinishKeepsCooldowns(pool: Pool, nodeId: NodeId, excluded: set<NodeId>, spare: SlotId)
    requires spare !in pool.slots
    ensures CooldownsLast(pool, FinishRefresh(pool, nodeId, excluded, spare).0)
  {
  }

  /** Only a refresh that succeeds shortens a backoff, and nothing shortens a cooldown. */
  lemma NextKeepsDeadlines(w: World, e: Event)
    requires Legal(w, e)
    ensures CooldownsLast(w.pool, Next(w, e).pool)
    ensures !e.DoFinish? ==> Next(w, e).pool.refreshNotBefore >= w.pool.refreshNotBefore
  {
    match e
    case DoAcquire(excluded, choice, now) => AcquireKeepsDeadlines(w.pool, excluded, choice, now);
    case DoFinish(at, answers, spare) =>
      FinishKeepsCooldowns(w.pool, Fetched(answers, Avoided(w.pending[at])).value, w.pending[at].excluded, spare);
    case _ =>
  }

  lemma {:induction false} RunKeepsCooldowns(w: World, es: seq<Event>, r: World)
    requires Reaches(w, es, r)
    ensures CooldownsLast(w.pool, r.pool)
    decreases |es|
  {
    if es != [] {
      NextKeepsDeadlines(w, es[0]);
      RunKeepsCooldowns(Next(w, es[0]), es[1..], r);
    }
  }

  lemma {:induction false} RunKeepsBackoff(w: World, es: seq<Event>, r: World)
    requires Reaches(w, es, r) && forall k :: 0 <= k < |es| ==> !es[k].DoFinish?
    ensures r.pool.refreshNotBefore >= w.pool.refreshNotBefore
    decreases |es|
  {
    if es != [] {
      NextKeepsDeadlines(w, es[0]);
      RunKeepsBackoff(Next(w, es[0]), es[1..], r);
    }
  }

  /** After a cooldown of `seconds`, no acquire of any run leases the endpoint before they have passed. */
  lemma CooldownIsObserved(w: World, s: SlotId, seconds: int, now: Time, es: seq<Event>, r: World, e: Event)
    requires Legal(w, DoCooldown(s, seconds, now)) && Reaches(Next(w, DoCooldown(s, seconds, now)), es, r)
    requires Inv(r) && Legal(r, e) && e.DoAcquire? && (e.now < now + seconds || e.now <= now)
    ensures Acquire(r.pool, e.excluded, e.choice, e.now).1 != Leased(s)
  {
    CooldownMeans(w.pool, s, seconds, now);
    RunKeepsCooldowns(Next(w, DoCooldown(s, seconds, now)), es, r);
    AcquireLeases(r.pool, e.excluded, e.choice, e.now);
  }

  /** After a failure, no refresh of any run begins before the pause is over, unless another one has succeeded. */
  lemma BackoffIsObserved(w: World, at: nat, now: Time, es: seq<Event>, r: World, e: Event)
    requires Legal(w, DoFail(at, now)) && w.pool.launching > 0
    requires Reaches(Next(w, DoFail(at, now)), es, r) && forall k :: 0 <= k < |es| ==> !es[k].DoFinish?
    requires Inv(r) && Legal(r, e) && e.DoAcquire? && e.now < now + Pause(w.pool.failures)
    ensures !Acquire(r.pool, e.excluded, e.choice, e.now).1.Refresh?
  {
    FailMeans(w.pool, now);
    RunKeepsBackoff(Next(w, DoFail(at, now)), es, r);
    if exists s :: Ready(r.pool, s, e.excluded, e.now) {
      AcquireLeases(r.pool, e.excluded, e.choice, e.now);
    } else {
      AcquireRefreshes(r.pool, e.excluded, e.choice, e.now);
    }
  }
}
