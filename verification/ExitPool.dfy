/**
 * The pool of proxy exits that tasks lease. A slot is known by its random token; its exit id is
 * learned only after the launch. One acquire iteration holds the lock from start to end: it is a sweep
 * and then a lease or a launch, whose plan must fit the table that the sweep left. A launch with a process
 * is split further into a reservation and a resolution. Nothing here depends on how many contexts may
 * share an exit, which the program fixes at one.
 */
module ExitPool {
  import opened SlotTable
  import opened Util

  type NodeId = string
  type ExitId = string

  datatype Slot = Slot(source: string, nodeId: NodeId, exitId: ExitId, active: int, launching: bool, retiring: bool)

  datatype Pool = Pool(maxSlots: nat, contextsPerExit: nat, table: seq<SlotId>, slots: map<SlotId, Slot>)

  /** What an acquire knows when it sweeps: its source, the nodes it may use, and what is out of order. */
  datatype View = View(source: string, allowed: set<NodeId>, cooling: set<NodeId>, dead: set<SlotId>)

  /** What decides whether a duplicate exit is shared or another node is tried first. */
  datatype Plan = Plan(allowed: set<NodeId>, busy: set<NodeId>, excluded: set<NodeId>, failed: set<NodeId>)

  datatype Outcome = Leased(slot: SlotId) | Retry | Wait

  predicate Unfit(slot: Slot, s: SlotId, v: View)
  {
    slot.source != v.source || slot.nodeId in v.cooling || (v.allowed != {} && slot.nodeId !in v.allowed) || s in v.dead
  }

  function Mark(slot: Slot, s: SlotId, v: View): Slot { if Unfit(slot, s, v) then slot.(retiring := true) else slot }

  predicate Droppable(slot: Slot) { slot.retiring && slot.active == 0 && !slot.launching }

  /** Marks unfit slots as retiring and drops the retiring ones that nobody uses. */
  function Sweep(pool: Pool, table: seq<SlotId>, v: View): (r: Pool)
    ensures |r.table| <= |pool.table|
    decreases |table|
  {
    if table == [] then pool
    else
      var s := table[0];
      if s !in pool.slots || s !in pool.table then Sweep(pool, table[1..], v)
      else
        var slot := Mark(pool.slots[s], s, v);
        var marked := pool.(slots := pool.slots[s := slot]);
        ShorterWithout(pool.table, s);
        Sweep(if Droppable(slot) then marked.(table := Remove(pool.table, s)) else marked, table[1..], v)
  }

  predicate Ready(pool: Pool, s: SlotId)
  {
    s in pool.table && s in pool.slots && !pool.slots[s].launching && !pool.slots[s].retiring
  }

  predicate Leasable(pool: Pool, s: SlotId, excluded: set<NodeId>)
  {
    Ready(pool, s) && pool.slots[s].nodeId !in excluded && pool.slots[s].active < pool.contextsPerExit
  }

  function Take(pool: Pool, s: SlotId): Pool
    requires s in pool.slots
  {
    pool.(slots := pool.slots[s := pool.slots[s].(active := pool.slots[s].active + 1)])
  }

  function Add(pool: Pool, spare: SlotId, slot: Slot): Pool
  {
    pool.(table := pool.table + [spare], slots := pool.slots[spare := slot])
  }

  predicate SameExit(pool: Pool, s: SlotId, exitId: ExitId, except: SlotId)
  {
    s != except && Ready(pool, s) && pool.slots[s].exitId == exitId
  }

  function SameExitRule(pool: Pool, exitId: ExitId, except: SlotId): SlotId -> bool
  {
    (s: SlotId) => SameExit(pool, s, exitId, except)
  }

  function OtherNodes(plan: Plan, duplicate: NodeId): set<NodeId>
  {
    plan.allowed + {duplicate} - plan.busy - plan.excluded - plan.failed
  }

  /** The node that was just tried counts as failed. */
  function Tried(plan: Plan, nodeId: NodeId): Plan { plan.(failed := plan.failed + {nodeId}) }

  /** An exit that is already in the pool: try another node, wait for the exit, or share it. */
  function Share(pool: Pool, d: SlotId, plan: Plan): (Pool, Outcome)
    requires d in pool.slots
  {
    if OtherNodes(plan, pool.slots[d].nodeId) != {} then (pool, Retry)
    else if pool.slots[d].active >= pool.contextsPerExit then (pool, Wait)
    else (Take(pool, d), Leased(d))
  }

  /** A native proxy needs no process: its exit is known before the slot exists. */
  function AddNative(
    pool: Pool, spare: SlotId, source: string, nodeId: NodeId, exitId: ExitId, plan: Plan): (Pool, Outcome)
  {
    match First(SameExitRule(pool, exitId, spare), pool.table)
    case Some(d) => Share(pool, d, Tried(plan, nodeId))
    case None => (Add(pool, spare, Slot(source, nodeId, exitId, 1, false, false)), Leased(spare))
  }

  function Reserve(pool: Pool, spare: SlotId, source: string, nodeId: NodeId): Pool
  {
    Add(pool, spare, Slot(source, nodeId, "", 1, true, false))
  }

  function Launched(pool: Pool, s: SlotId, exitId: ExitId): Pool
    requires s in pool.slots
  {
    pool.(slots := pool.slots[s := pool.slots[s].(launching := false, exitId := exitId)])
  }

  /** The launch succeeded: the slot stays only if its exit is new. */
  function Resolve(pool: Pool, s: SlotId, exitId: ExitId, plan: Plan): (Pool, Outcome)
    requires s in pool.slots
  {
    var p := Launched(pool, s, exitId);
    match First(SameExitRule(p, exitId, s), p.table)
    case Some(d) => Share(p.(table := Remove(p.table, s)), d, Tried(plan, pool.slots[s].nodeId))
    case None => (p, Leased(s))
  }

  function Abort(pool: Pool, s: SlotId): Pool
  {
    if s in pool.table then pool.(table := Remove(pool.table, s)) else pool
  }

  function Release(pool: Pool, s: SlotId, cooling: set<NodeId>): Pool
  {
    if s !in pool.table || s !in pool.slots then pool
    else
      var before := pool.slots[s];
      var slot := before.(active := Max(0, before.active - 1), retiring := before.retiring || before.nodeId in cooling);
      var p := pool.(slots := pool.slots[s := slot]);
      if slot.active == 0 && slot.retiring then p.(table := Remove(pool.table, s)) else p
  }

  /** Dropping an idle slot to make room, as the path for authenticated SOCKS proxies does. */
  function Evict(pool: Pool, s: SlotId): Pool { pool.(table := Remove(pool.table, s)) }

  // ---- the pool with its callers ---------------------------------------------------------------------------

  /** `held` counts the unreleased leases; a caller whose launch was cancelled leaves its slot in `lost`. */
  datatype World = World(pool: Pool, held: multiset<SlotId>, lost: multiset<SlotId>)

  datatype Event =
    | DoSweep(view: View)
    | DoLease(slot: SlotId, excluded: set<NodeId>)
    | DoNative(spare: SlotId, source: string, nodeId: NodeId, exitId: ExitId, plan: Plan)
    | DoReserve(spare: SlotId, source: string, nodeId: NodeId)
    | DoResolve(slot: SlotId, exitId: ExitId, plan: Plan)
    | DoAbort(slot: SlotId)
    | DoCancel(slot: SlotId)
    | DoRelease(slot: SlotId, cooling: set<NodeId>)
    | DoEvict(slot: SlotId)
    | DoSocksLaunched(slot: SlotId, exitId: ExitId)

  predicate LaunchPending(w: World, s: SlotId)
  {
    s in w.held && s in w.pool.table && s in w.pool.slots && w.pool.slots[s].launching && s !in w.lost
  }

  function BusyNodes(pool: Pool, except: SlotId): set<NodeId>
  {
    set s | s in pool.table && s in pool.slots && s != except :: pool.slots[s].nodeId
  }

  /** The plan belongs to the iteration that swept the table: what the sweep would retire is retiring. */
  predicate Fits(pool: Pool, source: string, plan: Plan, except: SlotId)
  {
    && plan.busy == BusyNodes(pool, except)
    && forall s :: s in pool.table && s in pool.slots && s != except && !pool.slots[s].retiring ==>
         pool.slots[s].source == source && (plan.allowed == {} || pool.slots[s].nodeId in plan.allowed)
  }

  /** A launch only tries nodes that its caller did not exclude and that no listed slot has. */
  predicate Legal(w: World, e: Event)
  {
    match e
    case DoSweep(_) => true
    case DoLease(s, excluded) => Leasable(w.pool, s, excluded)
    case DoNative(spare, source, nodeId, _, plan) =>
      && spare !in w.pool.slots && |w.pool.table| < w.pool.maxSlots
      && nodeId !in plan.excluded && nodeId !in plan.busy && Fits(w.pool, source, plan, spare)
    case DoReserve(spare, _, _) => spare !in w.pool.slots && |w.pool.table| < w.pool.maxSlots
    case DoResolve(s, exitId, plan) =>
      && LaunchPending(w, s) && exitId != "" && Fits(w.pool, w.pool.slots[s].source, plan, s)
      && w.pool.slots[s].nodeId !in plan.excluded && w.pool.slots[s].nodeId !in plan.busy
    case DoAbort(s) => LaunchPending(w, s)
    case DoCancel(s) => LaunchPending(w, s)
    case DoRelease(s, _) => s in w.held && s in w.pool.table && s in w.pool.slots && !w.pool.slots[s].launching
    case DoEvict(s) =>
      s in w.pool.table && s in w.pool.slots && !w.pool.slots[s].launching && w.pool.slots[s].active == 0
    case DoSocksLaunched(s, exitId) => LaunchPending(w, s) && exitId != ""
  }

  function Hold(held: multiset<SlotId>, o: Outcome): multiset<SlotId>
  {
    if o.Leased? then held + multiset{o.slot} else held
  }

  function Next(w: World, e: Event): World
    requires Legal(w, e)
  {
    match e
    case DoSweep(view) => w.(pool := Sweep(w.pool, w.pool.table, view))
    case DoLease(s, _) => w.(pool := Take(w.pool, s), held := w.held + multiset{s})
    case DoNative(spare, source, nodeId, exitId, plan) =>
      var (pool, o) := AddNative(w.pool, spare, source, nodeId, exitId, plan);
      w.(pool := pool, held := Hold(w.held, o))
    case DoReserve(spare, source, nodeId) =>
      w.(pool := Reserve(w.pool, spare, source, nodeId), held := w.held + multiset{spare})
    case DoResolve(s, exitId, plan) =>
      var (pool, o) := Resolve(w.pool, s, exitId, plan);
      w.(pool := pool, held := Hold(w.held - multiset{s}, o))
    case DoAbort(s) => w.(pool := Abort(w.pool, s), held := w.held - multiset{s})
    case DoCancel(s) => w.(held := w.held - multiset{s}, lost := w.lost + multiset{s})
    case DoRelease(s, cooling) => w.(pool := Release(w.pool, s, cooling), held := w.held - multiset{s})
    case DoEvict(s) => w.(pool := Evict(w.pool, s))
    case DoSocksLaunched(s, exitId) => w.(pool := Launched(w.pool, s, exitId))
  }

  // ---- the invariant --------------------------------------------------------------------------------------------

  /** A listed slot accounts for its leases; a launch has exactly one caller, present or lost. */
  ghost predicate SlotInv(w: World, s: SlotId)
    requires s in w.pool.slots
  {
    var slot := w.pool.slots[s];
    if s in w.pool.table then
      && slot.active == w.held[s] + w.lost[s] && slot.active <= w.pool.contextsPerExit
      && (slot.launching ==> slot.active == 1)
      && (s in w.lost ==> slot.launching)
    else w.held[s] == 0 && w.lost[s] == 0
  }

  /** Two exits that may be leased never are the same exit. */
  ghost predicate Isolated(pool: Pool)
  {
    forall s, t :: Ready(pool, s) && Ready(pool, t) && s != t ==> pool.slots[s].exitId != pool.slots[t].exitId
  }

  ghost predicate Counted(w: World)
  {
    && w.pool.contextsPerExit >= 1 && |w.pool.table| <= w.pool.maxSlots && Distinct(w.pool.table)
    && (forall s :: s in w.pool.table || s in w.held || s in w.lost ==> s in w.pool.slots)
    && (forall s :: s in w.pool.slots ==> SlotInv(w, s))
  }

  ghost predicate Inv(w: World) { Counted(w) && Isolated(w.pool) }

  /** The counters are kept, and so is isolation where it was. */
  ghost predicate Keeps(w: World, r: World) { Counted(r) && (Isolated(w.pool) ==> Isolated(r.pool)) }

  lemma SweepOneKeepsInv(w: World, s: SlotId, v: View)
    requires Counted(w) && s in w.pool.table
    ensures var slot := Mark(w.pool.slots[s], s, v);
      var marked := w.pool.(slots := w.pool.slots[s := slot]);
      var r := w.(pool := if Droppable(slot) then marked.(table := Remove(w.pool.table, s)) else marked);
      Counted(r) && (Isolated(w.pool) ==> Isolated(r.pool))
  {
    RemoveMembers(w.pool.table, s);
    var slot := Mark(w.pool.slots[s], s, v);
    var marked := w.pool.(slots := w.pool.slots[s := slot]);
    var r := w.(pool := if Droppable(slot) then marked.(table := Remove(w.pool.table, s)) else marked);
    assert SlotInv(w, s);
    forall t | t in r.pool.slots ensures SlotInv(r, t) { assert SlotInv(w, t); }
    forall t | Ready(r.pool, t) ensures Ready(w.pool, t) && r.pool.slots[t] == w.pool.slots[t] { }
  }

  lemma {:induction false} SweepKeepsInv(w: World, table: seq<SlotId>, v: View)
    requires Counted(w)
    ensures Counted(w.(pool := Sweep(w.pool, table, v)))
    ensures Isolated(w.pool) ==> Isolated(Sweep(w.pool, table, v))
    decreases |table|
  {
    if table != [] {
      var s := table[0];
      if s in w.pool.slots && s in w.pool.table {
        SweepOneKeepsInv(w, s, v);
        var slot := Mark(w.pool.slots[s], s, v);
        var marked := w.pool.(slots := w.pool.slots[s := slot]);
        SweepKeepsInv(w.(pool := if Droppable(slot) then marked.(table := Remove(w.pool.table, s)) else marked),
          table[1..], v);
      } else {
        SweepKeepsInv(w, table[1..], v);
      }
    }
  }

  lemma TakeKeepsInv(w: World, s: SlotId)
    requires Counted(w) && Ready(w.pool, s) && w.pool.slots[s].active < w.pool.contextsPerExit
    ensures var r := w.(pool := Take(w.pool, s), held := w.held + multiset{s});
      Counted(r) && (Isolated(w.pool) ==> Isolated(r.pool))
  {
    var r := w.(pool := Take(w.pool, s), held := w.held + multiset{s});
    forall t | t in r.pool.slots ensures SlotInv(r, t) { assert SlotInv(w, t); }
    forall t | Ready(r.pool, t) ensures Ready(w.pool, t) && r.pool.slots[t].exitId == w.pool.slots[t].exitId { }
  }

  function Joined(w: World, spare: SlotId, slot: Slot): World
  {
    w.(pool := Add(w.pool, spare, slot), held := w.held + multiset{spare})
  }

  lemma JoinedSlots(w: World, spare: SlotId, slot: Slot)
    requires Counted(w) && spare !in w.pool.slots && slot.active == 1
    ensures spare !in w.pool.table && spare !in w.held && spare !in w.lost
    ensures forall t :: t in Joined(w, spare, slot).pool.slots ==> SlotInv(Joined(w, spare, slot), t)
  {
    var r := Joined(w, spare, slot);
    assert spare !in w.held && spare !in w.lost;
    forall t | t in r.pool.slots ensures SlotInv(r, t) {
      if t != spare { assert SlotInv(w, t); }
    }
  }

  lemma AddKeepsCount(w: World, spare: SlotId, slot: Slot)
    requires Counted(w) && spare !in w.pool.slots && |w.pool.table| < w.pool.maxSlots && slot.active == 1
    ensures Counted(Joined(w, spare, slot))
  {
    JoinedSlots(w, spare, slot);
  }

  lemma AddKeepsIsolation(w: World, spare: SlotId, slot: Slot)
    requires Isolated(w.pool) && spare !in w.pool.slots
    requires slot.launching || forall s :: Ready(w.pool, s) ==> w.pool.slots[s].exitId != slot.exitId
    ensures Isolated(Joined(w, spare, slot).pool)
  {
    var r := Joined(w, spare, slot);
    forall t | Ready(r.pool, t) && t != spare ensures Ready(w.pool, t) && r.pool.slots[t] == w.pool.slots[t] { }
  }

  lemma AddKeeps(w: World, spare: SlotId, slot: Slot)
    requires Counted(w) && spare !in w.pool.slots && |w.pool.table| < w.pool.maxSlots && slot.active == 1
    requires slot.launching || forall s :: Ready(w.pool, s) ==> w.pool.slots[s].exitId != slot.exitId
    ensures Keeps(w, Joined(w, spare, slot))
  {
    AddKeepsCount(w, spare, slot);
    if Isolated(w.pool) { AddKeepsIsolation(w, spare, slot); }
  }

  lemma NoDuplicate(pool: Pool, exitId: ExitId, except: SlotId)
    requires First(SameExitRule(pool, exitId, except), pool.table).None?
    ensures forall s :: Ready(pool, s) && s != except ==> pool.slots[s].exitId != exitId
  {
    forall s | Ready(pool, s) && s != except ensures pool.slots[s].exitId != exitId {
      assert !SameExitRule(pool, exitId, except)(s);
    }
  }

  lemma ShareKeeps(w: World, d: SlotId, plan: Plan)
    requires Counted(w) && Ready(w.pool, d)
    ensures Keeps(w, w.(pool := Share(w.pool, d, plan).0, held := Hold(w.held, Share(w.pool, d, plan).1)))
  {
    if Share(w.pool, d, plan).1.Leased? { TakeKeepsInv(w, d); }
  }

  lemma NativeKeeps(w: World, e: Event)
    requires Counted(w) && e.DoNative? && Legal(w, e)
    ensures Keeps(w, Next(w, e))
  {
    var found := First(SameExitRule(w.pool, e.exitId, e.spare), w.pool.table);
    if found.Some? {
      ShareKeeps(w, found.value, Tried(e.plan, e.nodeId));
    } else {
      NoDuplicate(w.pool, e.exitId, e.spare);
      AddKeeps(w, e.spare, Slot(e.source, e.nodeId, e.exitId, 1, false, false));
    }
  }

  /** A slot leaves the table together with its only caller. */
  lemma DropKeepsInv(w: World, s: SlotId)
    requires Counted(w) && s in w.pool.table && w.pool.slots[s].active == w.held[s] <= 1 && s !in w.lost
    ensures var r := w.(pool := w.pool.(table := Remove(w.pool.table, s)), held := w.held - multiset{s});
      Counted(r) && (Isolated(w.pool) ==> Isolated(r.pool))
    ensures forall t :: Ready(w.pool, t) && t != s ==> Ready(w.pool.(table := Remove(w.pool.table, s)), t)
  {
    RemoveMembers(w.pool.table, s);
    var r := w.(pool := w.pool.(table := Remove(w.pool.table, s)), held := w.held - multiset{s});
    forall t | t in r.pool.slots ensures SlotInv(r, t) { assert SlotInv(w, t); }
    forall t | Ready(r.pool, t) ensures Ready(w.pool, t) { }
  }

  lemma LaunchedKeepsCount(w: World, s: SlotId, exitId: ExitId)
    requires Counted(w) && LaunchPending(w, s)
    ensures Counted(w.(pool := Launched(w.pool, s, exitId)))
    ensures forall t :: t != s ==> (Ready(Launched(w.pool, s, exitId), t) <==> Ready(w.pool, t))
  {
    var r := w.(pool := Launched(w.pool, s, exitId));
    forall t | t in r.pool.slots ensures SlotInv(r, t) { assert SlotInv(w, t); }
  }

  /** A launch whose exit no leasable slot has, or of a slot that is not going to be leased. */
  ghost predicate BringsNewExit(pool: Pool, s: SlotId, exitId: ExitId)
    requires s in pool.slots
  {
    pool.slots[s].retiring || forall t :: Ready(pool, t) ==> pool.slots[t].exitId != exitId
  }

  /** With an unchecked launch, isolation survives exactly when no leasable slot already has the exit. */
  lemma UncheckedLaunchIsolatesExactly(w: World, s: SlotId, exitId: ExitId)
    requires Inv(w) && LaunchPending(w, s)
    ensures Isolated(Launched(w.pool, s, exitId)) <==> BringsNewExit(w.pool, s, exitId)
  {
    var r := Launched(w.pool, s, exitId);
    LaunchedKeepsCount(w, s, exitId);
    if !w.pool.slots[s].retiring {
      assert Ready(r, s) && r.slots[s].exitId == exitId;
      forall t | Ready(w.pool, t) ensures Ready(r, t) && r.slots[t] == w.pool.slots[t] && t != s { }
    }
    forall t | Ready(r, t) && t != s ensures Ready(w.pool, t) && r.slots[t] == w.pool.slots[t] { }
  }

  lemma DuplicateKeeps(w: World, s: SlotId, exitId: ExitId)
    requires Counted(w) && LaunchPending(w, s)
    ensures var p := Launched(w.pool, s, exitId);
      Keeps(w, w.(pool := p.(table := Remove(p.table, s)), held := w.held - multiset{s}))
  {
    assert SlotInv(w, s);
    LaunchedKeepsCount(w, s, exitId);
    DropKeepsInv(w.(pool := Launched(w.pool, s, exitId)), s);
    DroppedIsIsolated(w, s, exitId);
  }

  lemma StaysReady(w: World, s: SlotId, exitId: ExitId, d: SlotId)
    requires Counted(w) && LaunchPending(w, s) && Ready(Launched(w.pool, s, exitId), d) && d != s
    ensures var p := Launched(w.pool, s, exitId); Ready(p.(table := Remove(p.table, s)), d)
  {
    RemoveMembers(w.pool.table, s);
  }

  lemma NewExitKeeps(w: World, s: SlotId, exitId: ExitId)
    requires Counted(w) && LaunchPending(w, s)
    requires First(SameExitRule(Launched(w.pool, s, exitId), exitId, s), w.pool.table).None?
    ensures Keeps(w, w.(pool := Launched(w.pool, s, exitId)))
  {
    LaunchedKeepsCount(w, s, exitId);
    NoDuplicate(Launched(w.pool, s, exitId), exitId, s);
    forall t | Ready(w.pool, t) ensures w.pool.slots[t].exitId != exitId {
      assert Ready(Launched(w.pool, s, exitId), t);
    }
    if Isolated(w.pool) { UncheckedLaunchIsolatesExactly(w, s, exitId); }
  }

  lemma ResolveKeeps(w: World, e: Event)
    requires Counted(w) && e.DoResolve? && Legal(w, e)
    ensures Keeps(w, Next(w, e))
  {
    var s, p := e.slot, Launched(w.pool, e.slot, e.exitId);
    var found := First(SameExitRule(p, e.exitId, s), p.table);
    if found.Some? {
      DuplicateKeeps(w, s, e.exitId);
      StaysReady(w, s, e.exitId, found.value);
      var r := w.(pool := p.(table := Remove(p.table, s)), held := w.held - multiset{s});
      ShareKeeps(r, found.value, Tried(e.plan, w.pool.slots[s].nodeId));
    } else {
      NewExitKeeps(w, s, e.exitId);
      assert Next(w, e).held == w.held;
    }
  }

  lemma DroppedIsIsolated(w: World, s: SlotId, exitId: ExitId)
    requires Counted(w) && LaunchPending(w, s)
    ensures var p := Launched(w.pool, s, exitId); Isolated(w.pool) ==> Isolated(p.(table := Remove(p.table, s)))
  {
    var p := Launched(w.pool, s, exitId);
    var r := p.(table := Remove(p.table, s));
    RemoveMembers(p.table, s);
    forall t | Ready(r, t) ensures Ready(w.pool, t) && r.slots[t] == w.pool.slots[t] { }
  }

  lemma CancelKeeps(w: World, s: SlotId)
    requires Counted(w) && LaunchPending(w, s)
    ensures Keeps(w, w.(held := w.held - multiset{s}, lost := w.lost + multiset{s}))
  {
    var r := w.(held := w.held - multiset{s}, lost := w.lost + multiset{s});
    forall t | t in r.pool.slots ensures SlotInv(r, t) { assert SlotInv(w, t); }
  }

  /** One lease less, and perhaps a slot that retires. */
  function Lowered(w: World, s: SlotId, cooling: set<NodeId>): World
    requires s in w.pool.slots
  {
    var before := w.pool.slots[s];
    var slot := before.(active := Max(0, before.active - 1), retiring := before.retiring || before.nodeId in cooling);
    w.(pool := w.pool.(slots := w.pool.slots[s := slot]), held := w.held - multiset{s})
  }

  lemma LoweringKeepsCount(w: World, s: SlotId, cooling: set<NodeId>)
    requires Counted(w) && Legal(w, DoRelease(s, cooling))
    ensures Counted(Lowered(w, s, cooling))
    ensures Lowered(w, s, cooling).pool.slots[s].active == Lowered(w, s, cooling).held[s] && s !in w.lost
  {
    assert SlotInv(w, s);
    var r := Lowered(w, s, cooling);
    forall t | t in r.pool.slots ensures SlotInv(r, t) { assert SlotInv(w, t); }
  }

  lemma LoweringKeepsIsolation(w: World, s: SlotId, cooling: set<NodeId>)
    requires Isolated(w.pool) && s in w.pool.slots
    ensures Isolated(Lowered(w, s, cooling).pool)
  {
    var r := Lowered(w, s, cooling);
    forall t | Ready(r.pool, t) ensures Ready(w.pool, t) && r.pool.slots[t].exitId == w.pool.slots[t].exitId { }
  }

  lemma LoweringKeeps(w: World, s: SlotId, cooling: set<NodeId>)
    requires Counted(w) && Legal(w, DoRelease(s, cooling))
    ensures Keeps(w, Lowered(w, s, cooling))
  {
    LoweringKeepsCount(w, s, cooling);
    if Isolated(w.pool) { LoweringKeepsIsolation(w, s, cooling); }
  }

  lemma ReleaseIs(w: World, s: SlotId, cooling: set<NodeId>)
    requires Legal(w, DoRelease(s, cooling))
    ensures var r := Lowered(w, s, cooling);
      w.(pool := Release(w.pool, s, cooling), held := w.held - multiset{s}) ==
        if r.pool.slots[s].active == 0 && r.pool.slots[s].retiring then r.(pool := Evict(r.pool, s)) else r
  {
  }

  lemma ReleaseKeeps(w: World, s: SlotId, cooling: set<NodeId>)
    requires Counted(w) && Legal(w, DoRelease(s, cooling))
    ensures Keeps(w, w.(pool := Release(w.pool, s, cooling), held := w.held - multiset{s}))
  {
    LoweringKeeps(w, s, cooling);
    LoweringKeepsCount(w, s, cooling);
    ReleaseIs(w, s, cooling);
    var r := Lowered(w, s, cooling);
    if r.pool.slots[s].active == 0 && r.pool.slots[s].retiring { EvictKeeps(r, s); }
  }

  lemma EvictKeeps(w: World, s: SlotId)
    requires Counted(w) && Legal(w, DoEvict(s))
    ensures Keeps(w, w.(pool := Evict(w.pool, s)))
  {
    assert SlotInv(w, s);
    DropKeepsInv(w, s);
    assert w.held - multiset{s} == w.held;
  }

  /** Every step keeps the counters, and every step but the unchecked launch keeps isolation. */
  lemma NextKeeps(w: World, e: Event)
    requires Counted(w) && Legal(w, e)
    ensures Counted(Next(w, e)) && (!e.DoSocksLaunched? && Isolated(w.pool) ==> Isolated(Next(w, e).pool))
  {
    match e
    case DoSweep(view) => SweepKeepsInv(w, w.pool.table, view);
    case DoLease(s, _) => TakeKeepsInv(w, s);
    case DoNative(_, _, _, _, _) => NativeKeeps(w, e);
    case DoReserve(spare, source, nodeId) => AddKeeps(w, spare, Slot(source, nodeId, "", 1, true, false));
    case DoResolve(_, _, _) => ResolveKeeps(w, e);
    case DoAbort(s) => assert SlotInv(w, s); DropKeepsInv(w, s);
    case DoCancel(s) => CancelKeeps(w, s);
    case DoRelease(s, cooling) => ReleaseKeeps(w, s, cooling);
    case DoEvict(s) => EvictKeeps(w, s);
    case DoSocksLaunched(s, exitId) => LaunchedKeepsCount(w, s, exitId);
  }

  ghost predicate Reaches(from: World, es: seq<Event>, to: World)
    decreases |es|
  {
    if es == [] then to == from else Legal(from, es[0]) && Reaches(Next(from, es[0]), es[1..], to)
  }

  ghost predicate SameLimits(p: Pool, q: Pool) { q.maxSlots == p.maxSlots && q.contextsPerExit == p.contextsPerExit }

  lemma {:induction false} SweepKeepsLimits(pool: Pool, table: seq<SlotId>, v: View)
    ensures SameLimits(pool, Sweep(pool, table, v))
    decreases |table|
  {
    if table != [] {
      var s := table[0];
      if s in pool.slots && s in pool.table {
        var slot := Mark(pool.slots[s], s, v);
        var marked := pool.(slots := pool.slots[s := slot]);
        SweepKeepsLimits(if Droppable(slot) then marked.(table := Remove(pool.table, s)) else marked, table[1..], v);
      } else {
        SweepKeepsLimits(pool, table[1..], v);
      }
    }
  }

  lemma NativeKeepsLimits(w: World, e: Event)
    requires Legal(w, e) && e.DoNative?
    ensures SameLimits(w.pool, Next(w, e).pool)
  {
  }

  lemma ResolveKeepsLimits(w: World, e: Event)
    requires Legal(w, e) && e.DoResolve?
    ensures SameLimits(w.pool, Next(w, e).pool)
  {
    ResolveIs(w, e);
  }

  lemma ReleaseKeepsLimits(w: World, s: SlotId, cooling: set<NodeId>)
    ensures SameLimits(w.pool, Release(w.pool, s, cooling))
  {
  }

  lemma NextKeepsLimits(w: World, e: Event)
    requires Legal(w, e)
    ensures SameLimits(w.pool, Next(w, e).pool)
  {
    match e
    case DoSweep(view) => SweepKeepsLimits(w.pool, w.pool.table, view);
    case DoNative(_, _, _, _, _) => NativeKeepsLimits(w, e);
    case DoResolve(_, _, _) => ResolveKeepsLimits(w, e);
    case DoRelease(s, cooling) => ReleaseKeepsLimits(w, s, cooling);
    case _ =>
  }

  lemma {:induction false} RunKeepsCount(w: World, es: seq<Event>, r: World)
    requires Counted(w) && Reaches(w, es, r)
    ensures Counted(r) && SameLimits(w.pool, r.pool)
    decreases |es|
  {
    if es != [] {
      NextKeeps(w, es[0]);
      NextKeepsLimits(w, es[0]);
      RunKeepsCount(Next(w, es[0]), es[1..], r);
    }
  }

  function EmptyWorld(maxSlots: nat, contexts: nat): World
  {
    World(Pool(maxSlots, contexts, [], map[]), multiset{}, multiset{})
  }

  /** In every run, unchecked launches and cancellations included, the slot limit and the sharing limit hold. */
  lemma ReachablePoolIsBounded(maxSlots: nat, contexts: nat, es: seq<Event>, w: World)
    requires contexts >= 1 && Reaches(EmptyWorld(maxSlots, contexts), es, w)
    ensures |w.pool.table| <= maxSlots && Distinct(w.pool.table)
    ensures forall s :: s in w.pool.table ==>
      s in w.pool.slots && w.held[s] <= w.pool.slots[s].active <= contexts
  {
    RunKeepsCount(EmptyWorld(maxSlots, contexts), es, w);
    forall s | s in w.pool.table ensures w.held[s] <= w.pool.slots[s].active <= contexts {
      assert SlotInv(w, s);
    }
  }

  /** Every unchecked launch of the run brings an exit that no leasable slot has. */
  ghost predicate LaunchesNewExits(w: World, es: seq<Event>)
    decreases |es|
  {
    es != [] ==>
      && Legal(w, es[0])
      && (es[0].DoSocksLaunched? ==> BringsNewExit(w.pool, es[0].slot, es[0].exitId))
      && LaunchesNewExits(Next(w, es[0]), es[1..])
  }

  ghost predicate AlwaysIsolated(w: World, es: seq<Event>)
    decreases |es|
  {
    && Isolated(w.pool)
    && (es != [] ==> Legal(w, es[0]) && AlwaysIsolated(Next(w, es[0]), es[1..]))
  }

  lemma StepIsolatesExactly(w: World, e: Event)
    requires Inv(w) && Legal(w, e)
    ensures Counted(Next(w, e))
    ensures Isolated(Next(w, e).pool) <==> (e.DoSocksLaunched? ==> BringsNewExit(w.pool, e.slot, e.exitId))
  {
    NextKeeps(w, e);
    if e.DoSocksLaunched? { UncheckedLaunchIsolatesExactly(w, e.slot, e.exitId); }
  }

  lemma {:induction false} RunIsolatesExactly(w: World, es: seq<Event>, r: World)
    requires Inv(w) && Reaches(w, es, r)
    ensures AlwaysIsolated(w, es) <==> LaunchesNewExits(w, es)
    ensures AlwaysIsolated(w, es) ==> Inv(r)
    decreases |es|
  {
    if es != [] {
      StepIsolatesExactly(w, es[0]);
      if Isolated(Next(w, es[0]).pool) { RunIsolatesExactly(Next(w, es[0]), es[1..], r); }
    }
  }

  /**
   * In every run, no two leasable slots ever lead to the same exit, although exits are learned late, exactly
   * when each launch that is not checked brings a new exit; in runs without such launches that is always so.
   */
  lemma ExitsStayIsolatedExactly(maxSlots: nat, contexts: nat, es: seq<Event>, w: World)
    requires contexts >= 1 && Reaches(EmptyWorld(maxSlots, contexts), es, w)
    ensures AlwaysIsolated(EmptyWorld(maxSlots, contexts), es) <==> LaunchesNewExits(EmptyWorld(maxSlots, contexts), es)
    ensures LaunchesNewExits(EmptyWorld(maxSlots, contexts), es) ==> Isolated(w.pool)
    ensures (forall k :: 0 <= k < |es| ==> !es[k].DoSocksLaunched?) ==> Isolated(w.pool)
  {
    var start := EmptyWorld(maxSlots, contexts);
    RunIsolatesExactly(start, es, w);
    if forall k :: 0 <= k < |es| ==> !es[k].DoSocksLaunched? { CheckedRunLaunchesNew(start, es, w); }
  }

  lemma {:induction false} CheckedRunLaunchesNew(w: World, es: seq<Event>, r: World)
    requires Reaches(w, es, r) && forall k :: 0 <= k < |es| ==> !es[k].DoSocksLaunched?
    ensures LaunchesNewExits(w, es)
    decreases |es|
  {
    if es != [] { CheckedRunLaunchesNew(Next(w, es[0]), es[1..], r); }
  }

  // ---- excluded nodes -------------------------------------------------------------------------------------

  predicate Leases(e: Event) { e.DoLease? || e.DoNative? || e.DoResolve? }

  function OutcomeOf(w: World, e: Event): Outcome
    requires Legal(w, e) && Leases(e)
  {
    match e
    case DoLease(s, _) => Leased(s)
    case DoNative(spare, source, nodeId, exitId, plan) => AddNative(w.pool, spare, source, nodeId, exitId, plan).1
    case DoResolve(s, exitId, plan) => Resolve(w.pool, s, exitId, plan).1
  }

  function Exclusions(e: Event): set<NodeId>
    requires Leases(e)
  {
    if e.DoLease? then e.excluded else e.plan.excluded
  }

  /** The step gives its caller an exit of a node that the caller excluded. */
  predicate LeasesExcluded(w: World, e: Event)
    requires Legal(w, e) && Leases(e)
  {
    var o := OutcomeOf(w, e);
    o.Leased? && o.slot in Next(w, e).pool.slots && Next(w, e).pool.slots[o.slot].nodeId in Exclusions(e)
  }

  /** The exit found first is one of an excluded node with room, and no other node is left to be tried. */
  predicate SharesExcluded(pool: Pool, found: Option<SlotId>, plan: Plan)
    requires found.Some? ==> found.value in pool.slots
  {
    && found.Some? && pool.slots[found.value].nodeId in plan.excluded
    && pool.slots[found.value].active < pool.contextsPerExit
    && plan.allowed <= plan.busy + plan.excluded + plan.failed
  }

  lemma SharingOutcome(pool: Pool, d: SlotId, plan: Plan)
    requires d in pool.slots
    ensures Share(pool, d, plan).1 == Leased(d) <==>
      pool.slots[d].active < pool.contextsPerExit && OtherNodes(plan, pool.slots[d].nodeId) == {}
    ensures Share(pool, d, plan).1.Leased? ==> Share(pool, d, plan).1 == Leased(d)
    ensures pool.slots[d].nodeId in plan.excluded ==>
      (OtherNodes(plan, pool.slots[d].nodeId) == {} <==> plan.allowed <= plan.busy + plan.excluded + plan.failed)
  {
    var rest := plan.busy + plan.excluded + plan.failed;
    assert OtherNodes(plan, pool.slots[d].nodeId) == plan.allowed + {pool.slots[d].nodeId} - rest;
    assert forall n :: n in OtherNodes(plan, pool.slots[d].nodeId) <==>
      (n in plan.allowed || n == pool.slots[d].nodeId) && n !in rest;
  }

  lemma SharingExcludesExactly(pool: Pool, d: SlotId, plan: Plan)
    requires d in pool.slots
    ensures Share(pool, d, plan).1 == Leased(d) && pool.slots[d].nodeId in plan.excluded <==>
      SharesExcluded(pool, Some(d), plan)
  {
    SharingOutcome(pool, d, plan);
  }

  lemma NativeLeasesExcluded(w: World, e: Event)
    requires Legal(w, e) && e.DoNative?
    ensures LeasesExcluded(w, e) <==>
      SharesExcluded(w.pool, First(SameExitRule(w.pool, e.exitId, e.spare), w.pool.table), Tried(e.plan, e.nodeId))
  {
    var found := First(SameExitRule(w.pool, e.exitId, e.spare), w.pool.table);
    if found.Some? {
      SharingOutcome(w.pool, found.value, Tried(e.plan, e.nodeId));
      SharingExcludesExactly(w.pool, found.value, Tried(e.plan, e.nodeId));
    }
  }

  /** What becomes of the launching slot does not matter to the search for its duplicate. */
  lemma {:induction false} FirstIgnoresLaunch(pool: Pool, s: SlotId, exitId: ExitId, table: seq<SlotId>)
    requires s in pool.slots
    ensures First(SameExitRule(Launched(pool, s, exitId), exitId, s), table) ==
      First(SameExitRule(pool, exitId, s), table)
  {
    if table != [] {
      assert SameExitRule(Launched(pool, s, exitId), exitId, s)(table[0]) == SameExitRule(pool, exitId, s)(table[0]);
      FirstIgnoresLaunch(pool, s, exitId, table[1..]);
    }
  }

  lemma ResolveIs(w: World, e: Event)
    requires Legal(w, e) && e.DoResolve?
    ensures var p := Launched(w.pool, e.slot, e.exitId);
      var plan := Tried(e.plan, w.pool.slots[e.slot].nodeId);
      match First(SameExitRule(w.pool, e.exitId, e.slot), w.pool.table)
      case Some(d) =>
        && OutcomeOf(w, e) == Share(p.(table := Remove(p.table, e.slot)), d, plan).1
        && Next(w, e).pool == Share(p.(table := Remove(p.table, e.slot)), d, plan).0
      case None => OutcomeOf(w, e) == Leased(e.slot) && Next(w, e).pool == p
  {
    FirstIgnoresLaunch(w.pool, e.slot, e.exitId, w.pool.table);
  }

  lemma ResolveLeasesExcluded(w: World, e: Event)
    requires Legal(w, e) && e.DoResolve?
    ensures LeasesExcluded(w, e) <==>
      SharesExcluded(w.pool, First(SameExitRule(w.pool, e.exitId, e.slot), w.pool.table),
                     Tried(e.plan, w.pool.slots[e.slot].nodeId))
  {
    ResolveIs(w, e);
    var found := First(SameExitRule(w.pool, e.exitId, e.slot), w.pool.table);
    if found.Some? {
      var p := Launched(w.pool, e.slot, e.exitId);
      var plan := Tried(e.plan, w.pool.slots[e.slot].nodeId);
      SharingOutcome(p.(table := Remove(p.table, e.slot)), found.value, plan);
      SharingExcludesExactly(p.(table := Remove(p.table, e.slot)), found.value, plan);
    }
  }

  /**
   * A shared exit is not checked against the nodes the caller excluded. An exit that is leased as it stands
   * never belongs to one of them; a launch leases one exactly when the first leasable slot with the exit it
   * found is of an excluded node and has room, and every allowed node is busy, excluded or was tried.
   */
  lemma LeasesExcludedExactly(w: World, e: Event)
    requires Legal(w, e) && Leases(e)
    ensures match e
      case DoLease(_, _) => !LeasesExcluded(w, e)
      case DoNative(spare, _, nodeId, exitId, plan) =>
        LeasesExcluded(w, e) <==>
          SharesExcluded(w.pool, First(SameExitRule(w.pool, exitId, spare), w.pool.table), Tried(plan, nodeId))
      case DoResolve(s, exitId, plan) =>
        LeasesExcluded(w, e) <==>
          SharesExcluded(w.pool, First(SameExitRule(w.pool, exitId, s), w.pool.table),
            Tried(plan, w.pool.slots[s].nodeId))
  {
    if e.DoNative? { NativeLeasesExcluded(w, e); }
    if e.DoResolve? { ResolveLeasesExcluded(w, e); }
  }

  // ---- runs that go wrong --------------------------------------------------------------------------------

  lemma EventInFront(w: World, e: Event, rest: seq<Event>, r: World)
    requires Legal(w, e) && Reaches(Next(w, e), rest, r)
    ensures Reaches(w, [e] + rest, r)
  {
    assert ([e] + rest)[1..] == rest;
  }

  lemma OneStep(w: World, e: Event)
    requires Legal(w, e)
    ensures Reaches(w, [e], Next(w, e))
  {
    assert [e][1..] == [];
  }

  function SlotA(active: int): Slot { Slot("s", "a", "x", active, false, false) }

  function PoolA(maxSlots: nat, contexts: nat, active: int): Pool
  {
    Pool(maxSlots, contexts, [0], map[0 := SlotA(active)])
  }

  /** Node `a` is launched for the first task. */
  function FirstCall(): Event { DoNative(0, "s", "a", "x", Plan({}, {}, {}, {})) }

  lemma AfterFirstCall(maxSlots: nat, contexts: nat)
    requires maxSlots >= 2 && contexts >= 1
    ensures Legal(EmptyWorld(maxSlots, contexts), FirstCall())
    ensures Next(EmptyWorld(maxSlots, contexts), FirstCall()) ==
      World(PoolA(maxSlots, contexts, 1), multiset{0}, multiset{})
  {
    var start := EmptyWorld(maxSlots, contexts);
    assert BusyNodes(start.pool, 0) == {};
    assert Next(start, FirstCall()).pool.slots == map[0 := SlotA(1)];
  }

  const BothNodes: View := View("s", {"a", "b"}, {}, {})

  lemma AfterReleaseAndSweep(maxSlots: nat, contexts: nat)
    requires maxSlots >= 2 && contexts >= 1
    ensures var w, idle := World(PoolA(maxSlots, contexts, 1), multiset{0}, multiset{}),
        World(PoolA(maxSlots, contexts, 0), multiset{}, multiset{});
      && Legal(w, DoRelease(0, {})) && Next(w, DoRelease(0, {})) == idle
      && Legal(idle, DoSweep(BothNodes)) && Next(idle, DoSweep(BothNodes)) == idle
  {
    var w := World(PoolA(maxSlots, contexts, 1), multiset{0}, multiset{});
    var idle := World(PoolA(maxSlots, contexts, 0), multiset{}, multiset{});
    assert Next(w, DoRelease(0, {})).pool.slots == idle.pool.slots;
    assert Mark(SlotA(0), 0, BothNodes) == SlotA(0);
    assert idle.pool.slots[0 := SlotA(0)] == idle.pool.slots;
    assert Sweep(idle.pool, [0], BothNodes) == Sweep(idle.pool, [0][1..], BothNodes);
  }

  /** Node `a` is idle and excluded; node `b`, the only other one allowed, leads to the same exit. */
  function SecondCall(): Event { DoNative(1, "s", "b", "x", Plan({"a", "b"}, {"a"}, {"a"}, {})) }

  /** It happens in a run of two tasks, in every pool with room for two exits, also with one context each. */
  lemma ExcludedNodeIsLeased(maxSlots: nat, contexts: nat) returns (es: seq<Event>, w: World)
    requires maxSlots >= 2 && contexts >= 1
    ensures Reaches(EmptyWorld(maxSlots, contexts), es, w) && es == [FirstCall(), DoRelease(0, {}), DoSweep(BothNodes)]
    ensures Legal(w, SecondCall()) && OutcomeOf(w, SecondCall()) == Leased(0) && LeasesExcluded(w, SecondCall())
  {
    var start := EmptyWorld(maxSlots, contexts);
    w := World(PoolA(maxSlots, contexts, 0), multiset{}, multiset{});
    AfterFirstCall(maxSlots, contexts);
    AfterReleaseAndSweep(maxSlots, contexts);
    OneStep(w, DoSweep(BothNodes));
    EventInFront(Next(start, FirstCall()), DoRelease(0, {}), [DoSweep(BothNodes)], w);
    EventInFront(start, FirstCall(), [DoRelease(0, {})] + [DoSweep(BothNodes)], w);
    es := [FirstCall()] + ([DoRelease(0, {})] + [DoSweep(BothNodes)]);
    SecondCallLeasesA(w);
  }

  lemma SecondCallLeasesA(w: World)
    requires w.pool == PoolA(w.pool.maxSlots, w.pool.contextsPerExit, 0)
    requires w.pool.maxSlots >= 2 && w.pool.contextsPerExit >= 1
    ensures Legal(w, SecondCall()) && OutcomeOf(w, SecondCall()) == Leased(0) && LeasesExcluded(w, SecondCall())
  {
    assert 0 in w.pool.table && 0 in w.pool.slots && w.pool.slots[0].nodeId == "a";
    assert BusyNodes(w.pool, 1) == {"a"};
    assert First(SameExitRule(w.pool, "x", 1), w.pool.table) == Some(0);
    NativeLeasesExcluded(w, SecondCall());
    SharingOutcome(w.pool, 0, Tried(SecondCall().plan, "b"));
  }

  /** The launch of an authenticated SOCKS proxy breaks isolation in a run, in every pool with room for two exits. */
  lemma UncheckedLaunchBreaksIsolation(maxSlots: nat, contexts: nat) returns (es: seq<Event>, w: World)
    requires maxSlots >= 2 && contexts >= 1
    ensures Reaches(EmptyWorld(maxSlots, contexts), es, w) && !Isolated(w.pool)
    ensures es == [FirstCall(), DoReserve(1, "t", "c"), DoSocksLaunched(1, "x")]
  {
    var start := EmptyWorld(maxSlots, contexts);
    AfterFirstCall(maxSlots, contexts);
    var one := Next(start, FirstCall());
    var two := Next(one, DoReserve(1, "t", "c"));
    w := Next(two, DoSocksLaunched(1, "x"));
    OneStep(two, DoSocksLaunched(1, "x"));
    EventInFront(one, DoReserve(1, "t", "c"), [DoSocksLaunched(1, "x")], w);
    EventInFront(start, FirstCall(), [DoReserve(1, "t", "c")] + [DoSocksLaunched(1, "x")], w);
    es := [FirstCall()] + ([DoReserve(1, "t", "c")] + [DoSocksLaunched(1, "x")]);
    assert Ready(w.pool, 0) && Ready(w.pool, 1) && w.pool.slots[0].exitId == w.pool.slots[1].exitId;
  }

  // ---- the pool object --------------------------------------------------------------------------------------------

  class TaskExitPool {
    const maxSlots: nat
    const contextsPerExit: nat
    var table: seq<SlotId>
    var slots: map<SlotId, Slot>

    function State(): Pool
      reads this
    {
      Pool(maxSlots, contextsPerExit, table, slots)
    }

    constructor (maxSlots: nat, contexts: nat)
      requires contexts >= 1
      ensures State() == EmptyWorld(maxSlots, contexts).pool
    {
      this.maxSlots, contextsPerExit, table, slots := maxSlots, contexts, [], map[];
    }

    method SweepSlots(view: View)
      modifies this
      ensures State() == Sweep(old(State()), old(table), view)
    {
      var listed := table;
      ghost var start := State();
      for i := 0 to |listed|
        invariant Sweep(State(), listed[i..], view) == Sweep(start, listed, view)
      {
        assert listed[i..][1..] == listed[i + 1..];
        var s := listed[i];
        if s in slots && s in table {
          var slot := slots[s];
          var stale := slot.source != view.source;
          var outside := view.allowed != {} && slot.nodeId !in view.allowed;
          if stale || slot.nodeId in view.cooling || outside || s in view.dead {
            slot := slot.(retiring := true);
          }
          slots := slots[s := slot];
          if slot.retiring && slot.active == 0 && !slot.launching { table := Remove(table, s); }
        }
      }
    }

    /** The least used slot that may be leased, if any. */
    method LeaseReady(excluded: set<NodeId>) returns (leased: Option<SlotId>)
      modifies this`slots
      ensures leased.None? <==> forall s :: s in table ==> !Leasable(old(State()), s, excluded)
      ensures leased.None? ==> State() == old(State())
      ensures leased.Some? ==>
        Leasable(old(State()), leased.value, excluded) && State() == Take(old(State()), leased.value)
      ensures leased.Some? ==> forall s :: s in table && Leasable(old(State()), s, excluded) ==>
        old(slots)[leased.value].active <= old(slots)[s].active
    {
      leased := None;
      for i := 0 to |table|
        invariant slots == old(slots)
        invariant leased.None? ==> forall k :: 0 <= k < i ==> !Leasable(State(), table[k], excluded)
        invariant leased.Some? ==> Leasable(State(), leased.value, excluded)
        invariant leased.Some? ==> forall k :: 0 <= k < i && Leasable(State(), table[k], excluded) ==>
          slots[leased.value].active <= slots[table[k]].active
      {
        if Leasable(State(), table[i], excluded) {
          if leased.None? || slots[table[i]].active < slots[leased.value].active { leased := Some(table[i]); }
        }
      }
      if leased.Some? {
        slots := slots[leased.value := slots[leased.value].(active := slots[leased.value].active + 1)];
      }
    }

    method FindExit(exitId: ExitId, except: SlotId) returns (found: Option<SlotId>)
      ensures found == First(SameExitRule(State(), exitId, except), table)
    {
      for i := 0 to |table|
        invariant First(SameExitRule(State(), exitId, except), table) ==
          First(SameExitRule(State(), exitId, except), table[i..])
      {
        assert table[i..][1..] == table[i + 1..];
        if SameExit(State(), table[i], exitId, except) { return Some(table[i]); }
      }
      return None;
    }

    method ShareExit(d: SlotId, plan: Plan) returns (outcome: Outcome)
      requires d in slots
      modifies this`slots
      ensures (State(), outcome) == Share(old(State()), d, plan)
    {
      if plan.allowed + {slots[d].nodeId} - plan.busy - plan.excluded - plan.failed != {} { return Retry; }
      if slots[d].active >= contextsPerExit { return Wait; }
      slots := slots[d := slots[d].(active := slots[d].active + 1)];
      return Leased(d);
    }

    method LaunchNative(spare: SlotId, source: string, nodeId: NodeId, exitId: ExitId, plan: Plan)
      returns (outcome: Outcome)
      modifies this
      ensures (State(), outcome) == AddNative(old(State()), spare, source, nodeId, exitId, plan)
    {
      var duplicate := FindExit(exitId, spare);
      if duplicate.Some? {
        outcome := ShareExit(duplicate.value, Tried(plan, nodeId));
        return;
      }
      slots := slots[spare := Slot(source, nodeId, exitId, 1, false, false)];
      table := table + [spare];
      return Leased(spare);
    }

    /** Launches a process for a reserved slot; `launch` is the exit it reports, or nothing if it fails. */
    method LaunchProcess(spare: SlotId, source: string, nodeId: NodeId, launch: Option<ExitId>, plan: Plan)
      returns (outcome: Outcome)
      modifies this
      ensures launch.Some? ==>
        (State(), outcome) == Resolve(Reserve(old(State()), spare, source, nodeId), spare, launch.value, plan)
      ensures launch.None? ==> State() == Abort(Reserve(old(State()), spare, source, nodeId), spare) && outcome == Retry
    {
      slots := slots[spare := Slot(source, nodeId, "", 1, true, false)];
      table := table + [spare];
      if launch.None? {
        if spare in table { table := Remove(table, spare); }
        return Retry;
      }
      slots := slots[spare := slots[spare].(launching := false, exitId := launch.value)];
      var duplicate := FindExit(launch.value, spare);
      if duplicate.Some? {
        table := Remove(table, spare);
        outcome := ShareExit(duplicate.value, Tried(plan, nodeId));
        return;
      }
      return Leased(spare);
    }

    method ReleaseSlot(s: SlotId, cooling: set<NodeId>)
      modifies this
      ensures State() == Release(old(State()), s, cooling)
    {
      if s !in table || s !in slots { return; }
      var slot := slots[s].(active := Max(0, slots[s].active - 1));
      if slot.nodeId in cooling { slot := slot.(retiring := true); }
      slots := slots[s := slot];
      if slot.active == 0 && slot.retiring { table := Remove(table, s); }
    }
  }
}
