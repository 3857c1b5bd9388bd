/** What each call of the exit pool means for the listed exits, read from the fields of the slots. */
module ExitCalls {
  import opened SlotTable
  import opened Util
  import opened ExitPool

  /** An exit that no further task may get: another subscription, a cooling or deselected node, a dead process. */
  predicate OutOfOrder(slot: Slot, s: SlotId, v: View)
  {
    || slot.source != v.source
    || slot.nodeId in v.cooling
    || !(v.allowed == {} || slot.nodeId in v.allowed)
    || s in v.dead
  }

  predicate OnItsWayOut(slot: Slot, s: SlotId, v: View) { slot.retiring || OutOfOrder(slot, s, v) }

  /** Nobody uses the slot, and no launch is under way in it. */
  predicate Unused(slot: Slot) { slot.active == 0 && !slot.launching }

  ghost predicate Sound(pool: Pool) { Distinct(pool.table) && forall s :: s in pool.table ==> s in pool.slots }

  // ---- the sweep --------------------------------------------------------------------------------------------

  /** The slots of `part` are swept: those out of order retire, and those that retire unused have left. */
  ghost predicate SweptPart(pool: Pool, r: Pool, part: seq<SlotId>, v: View)
  {
    && r.maxSlots == pool.maxSlots && r.contextsPerExit == pool.contextsPerExit && r.slots.Keys == pool.slots.Keys
    && Distinct(r.table)
    && (forall s :: s in part && s in pool.slots ==>
          && r.slots[s] == pool.slots[s].(retiring := OnItsWayOut(pool.slots[s], s, v))
          && (s in r.table <==> s in pool.table && !(OnItsWayOut(pool.slots[s], s, v) && Unused(pool.slots[s]))))
    && (forall s :: s !in part ==> (s in r.table <==> s in pool.table))
    && (forall s :: s !in part && s in pool.slots ==> r.slots[s] == pool.slots[s])
  }

  function SweptOne(pool: Pool, s: SlotId, v: View): Pool
    requires s in pool.slots
  {
    var slot := Mark(pool.slots[s], s, v);
    var marked := pool.(slots := pool.slots[s := slot]);
    if Droppable(slot) then marked.(table := Remove(pool.table, s)) else marked
  }

  lemma SweptOneMeans(pool: Pool, s: SlotId, v: View)
    requires Sound(pool) && s in pool.table
    ensures SweptPart(pool, SweptOne(pool, s, v), [s], v) && Sound(SweptOne(pool, s, v))
  {
    RemoveMembers(pool.table, s);
  }

  lemma PartsJoin(pool: Pool, mid: Pool, r: Pool, s: SlotId, rest: seq<SlotId>, v: View)
    requires SweptPart(pool, mid, [s], v) && SweptPart(mid, r, rest, v) && s !in rest
    ensures SweptPart(pool, r, [s] + rest, v)
  {
    forall t | t in [s] + rest && t in pool.slots
      ensures r.slots[t] == pool.slots[t].(retiring := OnItsWayOut(pool.slots[t], t, v))
      ensures t in r.table <==> t in pool.table && !(OnItsWayOut(pool.slots[t], t, v) && Unused(pool.slots[t]))
    {
      if t == s { assert t !in rest; } else { assert t in rest && t !in [s]; }
    }
  }

  lemma {:induction false} SweepFrom(pool: Pool, part: seq<SlotId>, v: View)
    requires Sound(pool) && Distinct(part) && forall s :: s in part ==> s in pool.table
    ensures SweptPart(pool, Sweep(pool, part, v), part, v)
    decreases |part|
  {
    if part != [] {
      var s, rest := part[0], part[1..];
      var mid := SweptOne(pool, s, v);
      SweptOneMeans(pool, s, v);
      assert part == [s] + rest && s !in rest;
      forall t | t in rest ensures t in mid.table { assert t !in [s]; }
      SweepFrom(mid, rest, v);
      PartsJoin(pool, mid, Sweep(mid, rest, v), s, rest, v);
    }
  }

  /**
   * After a sweep every listed slot that is out of order is retiring, and retiring is all that changed. A
   * slot has left exactly when it was retiring or out of order, unused and not being launched.
   */
  lemma SweepMeans(pool: Pool, v: View)
    requires Sound(pool)
    ensures var r := Sweep(pool, pool.table, v);
      && r.slots.Keys == pool.slots.Keys && Distinct(r.table)
      && (forall s :: s in pool.table ==>
            && r.slots[s] == pool.slots[s].(retiring := OnItsWayOut(pool.slots[s], s, v))
            && (s !in r.table <==> OnItsWayOut(pool.slots[s], s, v) && Unused(pool.slots[s])))
      && (forall s :: s !in pool.table ==> s !in r.table)
      && (forall s :: s !in pool.table && s in pool.slots ==> r.slots[s] == pool.slots[s])
  {
    SweepFrom(pool, pool.table, v);
  }

  /**
   * What may be leased right after a sweep: a listed exit in order, up and not retiring, with room, whose
   * node the caller did not exclude.
   */
  lemma LeasableAfterSweep(pool: Pool, v: View, excluded: set<NodeId>, s: SlotId)
    requires Sound(pool)
    ensures Leasable(Sweep(pool, pool.table, v), s, excluded) <==>
      && s in pool.table && !OutOfOrder(pool.slots[s], s, v) && !pool.slots[s].launching && !pool.slots[s].retiring
      && pool.slots[s].nodeId !in excluded && pool.slots[s].active < pool.contextsPerExit
  {
    SweepFrom(pool, pool.table, v);
  }

  // ---- leases and launches -------------------------------------------------------------------------------

  /** Nothing changes but that slot `s` has one caller more. */
  ghost predicate OneCallerMore(pool: Pool, r: Pool, s: SlotId)
  {
    && s in pool.slots && r.slots.Keys == pool.slots.Keys && r.table == pool.table
    && r.slots[s] == pool.slots[s].(active := pool.slots[s].active + 1)
    && forall t :: t in pool.slots && t != s ==> r.slots[t] == pool.slots[t]
  }

  /** A listed exit that is up and stays, and is the one looked for. */
  predicate LeadsTo(pool: Pool, s: SlotId, exitId: ExitId)
  {
    && s in pool.slots && pool.slots[s].exitId == exitId
    && !pool.slots[s].launching && !pool.slots[s].retiring
  }

  /** Slot `d` is the first of the table, other than `except`, that already leads to the exit. */
  ghost predicate Duplicate(pool: Pool, exitId: ExitId, except: SlotId, d: SlotId)
  {
    exists i :: 0 <= i < |pool.table| && pool.table[i] == d && d != except && LeadsTo(pool, d, exitId)
      && forall k :: 0 <= k < i && pool.table[k] != except ==> !LeadsTo(pool, pool.table[k], exitId)
  }

  /** Some node that the task may use, or the one of the duplicate, has not been ruled out. */
  ghost predicate AnotherNodeIsLeft(plan: Plan, tried: NodeId, duplicate: NodeId)
  {
    exists n :: (n in plan.allowed || n == duplicate)
      && n != tried && n !in plan.busy && n !in plan.excluded && n !in plan.failed
  }

  /** Another node is tried first; else a full exit is waited for; else it gets one caller more. */
  ghost predicate TreatsDuplicate(pool: Pool, r: Pool, o: Outcome, d: SlotId, plan: Plan, tried: NodeId)
  {
    && d in pool.slots
    && if AnotherNodeIsLeft(plan, tried, pool.slots[d].nodeId) then o == Retry && r == pool
       else if pool.slots[d].active >= pool.contextsPerExit then o == Wait && r == pool
       else o == Leased(d) && OneCallerMore(pool, r, d)
  }

  lemma ShareMeans(pool: Pool, d: SlotId, plan: Plan, tried: NodeId)
    requires d in pool.slots
    ensures var (r, o) := Share(pool, d, Tried(plan, tried)); TreatsDuplicate(pool, r, o, d, plan, tried)
  {
    var duplicate := pool.slots[d].nodeId;
    var left := OtherNodes(Tried(plan, tried), duplicate);
    assert forall n :: n in left <==>
      (n in plan.allowed || n == duplicate) && n != tried && n !in plan.busy + plan.excluded + plan.failed;
    if left != {} {
      var n :| n in left;
      assert AnotherNodeIsLeft(plan, tried, duplicate);
    }
  }

  /** The search for a duplicate answers the first one, and nothing exactly when there is none. */
  lemma DuplicateIsFound(pool: Pool, exitId: ExitId, except: SlotId)
    ensures forall d: SlotId ::
      First(SameExitRule(pool, exitId, except), pool.table) == Some(d) <==> Duplicate(pool, exitId, except, d)
  {
    var p := SameExitRule(pool, exitId, except);
    FirstIsFirst(p, pool.table);
    forall k | 0 <= k < |pool.table|
      ensures p(pool.table[k]) <==> pool.table[k] != except && LeadsTo(pool, pool.table[k], exitId)
    {
      assert pool.table[k] in pool.table;
    }
    forall d: SlotId ensures FirstOf(p, pool.table, d) <==> Duplicate(pool, exitId, except, d) { }
  }

  /** A native proxy gets a slot of its own exactly when no listed exit is the same. */
  lemma NativeMeans(pool: Pool, spare: SlotId, source: string, nodeId: NodeId, exitId: ExitId, plan: Plan)
    requires spare !in pool.slots
    ensures var (r, o) := AddNative(pool, spare, source, nodeId, exitId, plan);
      && (forall d :: Duplicate(pool, exitId, spare, d) ==> TreatsDuplicate(pool, r, o, d, plan, nodeId))
      && ((forall d :: !Duplicate(pool, exitId, spare, d)) ==>
        && o == Leased(spare) && r.table == pool.table + [spare] && r.slots.Keys == pool.slots.Keys + {spare}
        && r.slots[spare] == Slot(source, nodeId, exitId, 1, false, false)
        && forall t :: t in pool.slots ==> r.slots[t] == pool.slots[t])
  {
    DuplicateIsFound(pool, exitId, spare);
    var found := First(SameExitRule(pool, exitId, spare), pool.table);
    if found.Some? { ShareMeans(pool, found.value, plan, nodeId); }
  }

  /** A launched process keeps its slot exactly when no other listed exit is the same; else the slot is gone. */
  lemma ResolveMeans(pool: Pool, s: SlotId, exitId: ExitId, plan: Plan)
    requires Sound(pool) && s in pool.table
    ensures var up := pool.(slots := pool.slots[s := pool.slots[s].(launching := false, exitId := exitId)]);
      var (r, o) := Resolve(pool, s, exitId, plan);
      && (forall d :: Duplicate(up, exitId, s, d) ==>
           TreatsDuplicate(up.(table := Remove(up.table, s)), r, o, d, plan, pool.slots[s].nodeId))
      && ((forall d :: !Duplicate(up, exitId, s, d)) ==> o == Leased(s) && r == up)
    ensures forall t :: t in Remove(pool.table, s) <==> t in pool.table && t != s
  {
    var up := Launched(pool, s, exitId);
    DuplicateIsFound(up, exitId, s);
    RemoveMembers(pool.table, s);
    var found := First(SameExitRule(up, exitId, s), up.table);
    if found.Some? { ShareMeans(up.(table := Remove(up.table, s)), found.value, plan, pool.slots[s].nodeId); }
  }

  /** One caller less; the slot of a cooling node retires, and a retiring slot that nobody uses leaves the table. */
  lemma ReleaseMeans(pool: Pool, s: SlotId, cooling: set<NodeId>)
    requires Sound(pool) && s in pool.table && pool.slots[s].active > 0
    ensures var r, before := Release(pool, s, cooling), pool.slots[s];
      var retiring := before.retiring || before.nodeId in cooling;
      && r.slots.Keys == pool.slots.Keys
      && r.slots[s] == before.(active := before.active - 1, retiring := retiring)
      && (forall t :: t in pool.slots && t != s ==> r.slots[t] == pool.slots[t])
      && Distinct(r.table)
      && (forall t :: t in r.table <==> t in pool.table && !(t == s && before.active == 1 && retiring))
  {
    RemoveMembers(pool.table, s);
  }
}
