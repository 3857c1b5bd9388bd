/**
 * The pool of reusable browser processes. A slot record is an entry of a map keyed by the slot's
 * identity, because callers keep slots that have already left the table. Every critical section of
 * the pool's condition variable is one step, for the time before the pool is stopped.
 */
module BrowserPool {
  import opened SlotTable
  import opened Util

  type Time = int

  datatype Slot = Slot(
    key: string, hasBrowser: bool, active: int, completed: nat, createdAt: Time,
    launching: bool, retiring: bool, retireRequested: bool, closing: int)

  datatype Pool = Pool(maxProcesses: nat, contextsPerProcess: nat, table: seq<SlotId>, slots: map<SlotId, Slot>)

  const RECYCLE_TASKS: nat := 80
  const RECYCLE_SECONDS: Time := 1800

  function NewSlot(key: string, now: Time): Slot { Slot(key, false, 1, 0, now, true, false, false, 0) }

  predicate Connected(pool: Pool, s: SlotId, alive: set<SlotId>)
  {
    s in pool.slots && pool.slots[s].hasBrowser && s in alive
  }

  /** A dead process that nobody uses. */
  predicate Dead(pool: Pool, s: SlotId, alive: set<SlotId>)
  {
    s in pool.slots && !pool.slots[s].launching && pool.slots[s].active == 0 && !Connected(pool, s, alive)
  }

  predicate Usable(pool: Pool, s: SlotId, key: string, alive: set<SlotId>)
  {
    s in pool.slots && pool.slots[s].key == key && !pool.slots[s].launching && !pool.slots[s].retiring
    && Connected(pool, s, alive) && pool.slots[s].active < pool.contextsPerProcess
  }

  predicate Launching(pool: Pool, s: SlotId, key: string)
  {
    s in pool.slots && pool.slots[s].key == key && pool.slots[s].launching && !pool.slots[s].retiring
  }

  predicate Idle(pool: Pool, s: SlotId) { s in pool.slots && !pool.slots[s].launching && pool.slots[s].active == 0 }

  datatype Outcome = Selected(slot: SlotId) | Launch(slot: SlotId) | Wait

  function DeadRule(pool: Pool, alive: set<SlotId>): SlotId -> bool { (s: SlotId) => Dead(pool, s, alive) }
  function UsableRule(pool: Pool, key: string, alive: set<SlotId>): SlotId -> bool
  {
    (s: SlotId) => Usable(pool, s, key, alive)
  }
  function LaunchingRule(pool: Pool, key: string): SlotId -> bool { (s: SlotId) => Launching(pool, s, key) }
  function IdleRule(pool: Pool): SlotId -> bool { (s: SlotId) => Idle(pool, s) }

  /** Drops the first dead slot, if any. */
  function Swept(pool: Pool, alive: set<SlotId>): Pool
  {
    match First(DeadRule(pool, alive), pool.table)
    case Some(s) => pool.(table := Remove(pool.table, s))
    case None => pool
  }

  /** Makes room by dropping the first idle slot of a full table. */
  function Evicted(pool: Pool): Pool
  {
    if |pool.table| < pool.maxProcesses then pool
    else match First(IdleRule(pool), pool.table)
      case Some(s) => pool.(table := Remove(pool.table, s))
      case None => pool
  }

  function Add(pool: Pool, spare: SlotId, key: string, now: Time): Pool
  {
    pool.(table := pool.table + [spare], slots := pool.slots[spare := NewSlot(key, now)])
  }

  function Taken(pool: Pool, s: SlotId): Pool
    requires s in pool.slots
  {
    pool.(slots := pool.slots[s := pool.slots[s].(active := pool.slots[s].active + 1)])
  }

  /** One turn of `acquire_context` under the lock; `spare` is the identity of a slot it may create. */
  function Acquire(pool: Pool, key: string, alive: set<SlotId>, spare: SlotId, now: Time): (Pool, Outcome)
  {
    var swept := Swept(pool, alive);
    match First(UsableRule(swept, key, alive), swept.table)
    case Some(s) => (Taken(swept, s), Selected(s))
    case None =>
      if First(LaunchingRule(swept, key), swept.table).Some? then (swept, Wait)
      else
        var room := Evicted(swept);
        if |room.table| < room.maxProcesses then (Add(room, spare, key, now), Launch(spare)) else (room, Wait)
  }

  function Update(pool: Pool, s: SlotId, slot: Slot): Pool { pool.(slots := pool.slots[s := slot]) }

  function Launched(pool: Pool, s: SlotId): Pool
    requires s in pool.slots
  {
    Update(pool, s, pool.slots[s].(hasBrowser := true, launching := false))
  }

  /** The tail that both release sections share: a retired slot nobody uses leaves the table. */
  function Settled(pool: Pool, s: SlotId, slot: Slot): Pool
  {
    var marked := slot.(retiring := slot.retireRequested || slot.closing > 0);
    var next := Update(pool, s, marked);
    if s in pool.table && marked.active == 0 && marked.closing == 0 && marked.retireRequested
    then next.(table := Remove(pool.table, s)) else next
  }

  function Released(pool: Pool, s: SlotId, withContext: bool, failed: bool, alive: set<SlotId>, now: Time): Slot
    requires s in pool.slots
  {
    var slot := pool.slots[s];
    var completed := slot.completed + (if withContext then 1 else 0);
    var worn :=
      failed || !Connected(pool, s, alive) || completed >= RECYCLE_TASKS || now - slot.createdAt >= RECYCLE_SECONDS;
    slot.(active := Max(0, slot.active - 1), completed := completed,
          retireRequested := slot.retireRequested || worn, closing := slot.closing + (if withContext then 1 else 0))
  }

  /** `_release_slot` under the lock: with a context to close, or after a failure without one. */
  function Release(pool: Pool, s: SlotId, withContext: bool, failed: bool, alive: set<SlotId>, now: Time): Pool
    requires s in pool.slots
  {
    Settled(pool, s, Released(pool, s, withContext, failed, alive, now))
  }

  /** `_finish_release`: the context is closed, or could not be. */
  function FinishRelease(pool: Pool, s: SlotId, closeFailed: bool): Pool
    requires s in pool.slots
  {
    var slot := pool.slots[s];
    Settled(pool, s, slot.(closing := Max(0, slot.closing - 1), retireRequested := slot.retireRequested || closeFailed))
  }

  // ---- the pool with its callers -------------------------------------------------------------------

  /**
   * `held` counts, for each slot, the callers that took a context and have not released it;
   * `closing` counts the releases that still wait for their context to close.
   */
  datatype World = World(pool: Pool, held: multiset<SlotId>, closing: multiset<SlotId>)

  datatype Event =
    | DoAcquire(key: string, alive: set<SlotId>, spare: SlotId, now: Time)
    | DoLaunched(slot: SlotId)
    | DoGiveUp(slot: SlotId, alive: set<SlotId>, now: Time)
    | DoRelease(slot: SlotId, alive: set<SlotId>, now: Time)
    | DoFinish(slot: SlotId, closeFailed: bool)

  /** Each caller acts once on what it holds; a new slot object is a new identity. */
  predicate Legal(w: World, e: Event)
  {
    match e
    case DoAcquire(_, _, spare, _) => spare !in w.pool.slots
    case DoLaunched(s) => s in w.held && s in w.pool.slots && w.pool.slots[s].launching
    case DoGiveUp(s, _, _) => s in w.held && s in w.pool.slots
    case DoRelease(s, _, _) => s in w.held && s in w.pool.slots && !w.pool.slots[s].launching
    case DoFinish(s, _) => s in w.closing && s in w.pool.slots
  }

  function Next(w: World, e: Event): World
    requires Legal(w, e)
  {
    match e
    case DoAcquire(key, alive, spare, now) =>
      var (pool, outcome) := Acquire(w.pool, key, alive, spare, now);
      World(pool, if outcome.Wait? then w.held else w.held + multiset{outcome.slot}, w.closing)
    case DoLaunched(s) => w.(pool := Launched(w.pool, s))
    case DoGiveUp(s, alive, now) => World(Release(w.pool, s, false, true, alive, now), w.held - multiset{s}, w.closing)
    case DoRelease(s, alive, now) =>
      World(Release(w.pool, s, true, false, alive, now), w.held - multiset{s}, w.closing + multiset{s})
    case DoFinish(s, closeFailed) => World(FinishRelease(w.pool, s, closeFailed), w.held, w.closing - multiset{s})
  }

  // ---- the invariant ---------------------------------------------------------------------------------

  /** What holds of one slot, whether it is in the table or only kept by a caller. */
  ghost predicate SlotInv(w: World, s: SlotId)
    requires s in w.pool.slots
  {
    var slot := w.pool.slots[s];
    && slot.active == w.held[s] && slot.closing == w.closing[s]
    && slot.active + slot.closing <= w.pool.contextsPerProcess
    && (slot.retiring <==> slot.retireRequested || slot.closing > 0)
    && (slot.launching ==> !slot.hasBrowser && slot.closing == 0)
    && (slot.active > 0 ==> s in w.pool.table)
    && (s in w.pool.table ==>
          && (slot.launching ==> slot.active == 1 && !slot.retiring)
          && !(slot.retireRequested && slot.active == 0 && slot.closing == 0))
  }

  ghost predicate OneLaunchPerKey(pool: Pool)
  {
    forall s, t ::
      (s in pool.table && t in pool.table && s in pool.slots && t in pool.slots && s != t
       && pool.slots[s].launching && pool.slots[t].launching)
      ==> pool.slots[s].key != pool.slots[t].key
  }

  ghost predicate Inv(w: World)
  {
    && w.pool.contextsPerProcess >= 1 && w.pool.maxProcesses >= 1
    && |w.pool.table| <= w.pool.maxProcesses
    && Distinct(w.pool.table) && (forall s :: s in w.pool.table ==> s in w.pool.slots)
    && (forall s :: s in w.held || s in w.closing ==> s in w.pool.slots)
    && (forall s :: s in w.pool.slots ==> SlotInv(w, s))
    && OneLaunchPerKey(w.pool)
  }

  lemma DroppingUnusedKeepsInv(w: World, s: SlotId)
    requires Inv(w) && s in w.pool.table && w.pool.slots[s].active == 0
    ensures Inv(w.(pool := w.pool.(table := Remove(w.pool.table, s))))
  {
    RemoveMembers(w.pool.table, s);
    var r := w.(pool := w.pool.(table := Remove(w.pool.table, s)));
    forall t | t in r.pool.slots ensures SlotInv(r, t) { assert SlotInv(w, t); }
  }

  lemma SweepKeepsInv(w: World, alive: set<SlotId>)
    requires Inv(w)
    ensures Inv(w.(pool := Swept(w.pool, alive)))
    ensures Swept(w.pool, alive).slots == w.pool.slots
  {
    var dead := First(DeadRule(w.pool, alive), w.pool.table);
    if dead.Some? { DroppingUnusedKeepsInv(w, dead.value); }
  }

  lemma EvictKeepsInv(w: World)
    requires Inv(w)
    ensures Inv(w.(pool := Evicted(w.pool)))
    ensures Evicted(w.pool).slots == w.pool.slots
    ensures forall s :: s in Evicted(w.pool).table ==> s in w.pool.table
  {
    var idle := First(IdleRule(w.pool), w.pool.table);
    if idle.Some? {
      DroppingUnusedKeepsInv(w, idle.value);
      RemoveMembers(w.pool.table, idle.value);
    }
  }

  function Joined(w: World, spare: SlotId, key: string, now: Time): World
  {
    World(Add(w.pool, spare, key, now), w.held + multiset{spare}, w.closing)
  }

  lemma JoinedSlots(w: World, spare: SlotId, key: string, now: Time)
    requires Inv(w) && spare !in w.pool.slots
    ensures spare !in w.pool.table
    ensures forall t :: t in Joined(w, spare, key, now).pool.slots ==> SlotInv(Joined(w, spare, key, now), t)
  {
    var r := Joined(w, spare, key, now);
    forall t | t in r.pool.slots ensures SlotInv(r, t) {
      if t != spare { assert SlotInv(w, t); }
    }
  }

  lemma JoinedLaunch(w: World, spare: SlotId, key: string, now: Time)
    requires Inv(w) && spare !in w.pool.slots && forall s :: s in w.pool.table ==> !Launching(w.pool, s, key)
    ensures OneLaunchPerKey(Joined(w, spare, key, now).pool)
  {
    forall s | s in w.pool.table && w.pool.slots[s].launching ensures w.pool.slots[s].key != key {
      assert SlotInv(w, s);
    }
  }

  lemma AddKeepsInv(w: World, spare: SlotId, key: string, now: Time)
    requires Inv(w) && spare !in w.pool.slots && |w.pool.table| < w.pool.maxProcesses
    requires forall s :: s in w.pool.table ==> !Launching(w.pool, s, key)
    ensures Inv(Joined(w, spare, key, now))
  {
    JoinedSlots(w, spare, key, now);
    JoinedLaunch(w, spare, key, now);
  }

  lemma TakeKeepsInv(w: World, s: SlotId, key: string, alive: set<SlotId>)
    requires Inv(w) && s in w.pool.table && Usable(w.pool, s, key, alive)
    ensures Inv(World(Taken(w.pool, s), w.held + multiset{s}, w.closing))
  {
    var r := World(Taken(w.pool, s), w.held + multiset{s}, w.closing);
    assert SlotInv(w, s);
    forall t | t in r.pool.slots ensures SlotInv(r, t) { assert SlotInv(w, t); }
  }

  lemma AcquireKeepsInv(w: World, e: Event)
    requires Inv(w) && Legal(w, e) && e.DoAcquire?
    ensures Inv(Next(w, e))
  {
    SweepKeepsInv(w, e.alive);
    var swept := w.(pool := Swept(w.pool, e.alive));
    var pick := First(UsableRule(swept.pool, e.key, e.alive), swept.pool.table);
    if pick.Some? {
      TakeKeepsInv(swept, pick.value, e.key, e.alive);
    } else if First(LaunchingRule(swept.pool, e.key), swept.pool.table).None? {
      EvictKeepsInv(swept);
      var room := swept.(pool := Evicted(swept.pool));
      forall s | s in room.pool.table ensures !Launching(room.pool, s, e.key) {
        assert !LaunchingRule(swept.pool, e.key)(s);
      }
      if |room.pool.table| < room.pool.maxProcesses { AddKeepsInv(room, e.spare, e.key, e.now); }
    }
  }

  /** What may be handed to the shared tail of both release sections. */
  ghost predicate Settleable(w: World, s: SlotId, slot: Slot, held: multiset<SlotId>, closing: multiset<SlotId>)
  {
    && Inv(w) && s in w.pool.slots
    && (forall t :: t != s ==> held[t] == w.held[t] && closing[t] == w.closing[t])
    && slot.active == held[s] && slot.closing == closing[s] && slot.active <= w.pool.slots[s].active
    && slot.active + slot.closing <= w.pool.contextsPerProcess
    && slot.key == w.pool.slots[s].key && slot.launching == w.pool.slots[s].launching
    && (slot.launching ==> !slot.hasBrowser && slot.closing == 0)
    && (slot.launching && s in w.pool.table ==> slot.active == 0 && slot.retireRequested)
  }

  lemma SettledSlotInv(w: World, s: SlotId, slot: Slot, held: multiset<SlotId>, closing: multiset<SlotId>, t: SlotId)
    requires Settleable(w, s, slot, held, closing) && t in w.pool.slots
    ensures SlotInv(World(Settled(w.pool, s, slot), held, closing), t)
  {
    assert SlotInv(w, s) && SlotInv(w, t);
    if s in w.pool.table { RemoveMembers(w.pool.table, s); }
  }

  lemma SettledTable(w: World, s: SlotId, slot: Slot, held: multiset<SlotId>, closing: multiset<SlotId>)
    requires Settleable(w, s, slot, held, closing)
    ensures var r := Settled(w.pool, s, slot);
      && Distinct(r.table) && |r.table| <= |w.pool.table| && (forall t :: t in r.table ==> t in w.pool.table)
      && r.slots.Keys == w.pool.slots.Keys && OneLaunchPerKey(r)
  {
    if s in w.pool.table { RemoveMembers(w.pool.table, s); }
  }

  lemma SettleKeepsInv(w: World, s: SlotId, slot: Slot, held: multiset<SlotId>, closing: multiset<SlotId>)
    requires Settleable(w, s, slot, held, closing)
    ensures Inv(World(Settled(w.pool, s, slot), held, closing))
  {
    SettledTable(w, s, slot, held, closing);
    var r := World(Settled(w.pool, s, slot), held, closing);
    forall t | t in r.pool.slots ensures SlotInv(r, t) { SettledSlotInv(w, s, slot, held, closing, t); }
    forall t | t in held || t in closing ensures t in r.pool.slots {
      if t != s { assert held[t] == w.held[t] && closing[t] == w.closing[t]; }
    }
  }

  lemma ReleaseKeepsInv(w: World, s: SlotId, withContext: bool, failed: bool, alive: set<SlotId>, now: Time)
    requires Inv(w) && s in w.held && s in w.pool.slots
    requires withContext ==> !w.pool.slots[s].launching
    requires failed || withContext
    ensures Inv(World(Release(w.pool, s, withContext, failed, alive, now), w.held - multiset{s},
                      if withContext then w.closing + multiset{s} else w.closing))
  {
    assert SlotInv(w, s);
    SettleKeepsInv(w, s, Released(w.pool, s, withContext, failed, alive, now),
      w.held - multiset{s}, if withContext then w.closing + multiset{s} else w.closing);
  }

  lemma FinishKeepsInv(w: World, s: SlotId, closeFailed: bool)
    requires Inv(w) && s in w.closing && s in w.pool.slots
    ensures Inv(World(FinishRelease(w.pool, s, closeFailed), w.held, w.closing - multiset{s}))
  {
    var slot := w.pool.slots[s];
    assert SlotInv(w, s);
    SettleKeepsInv(w, s,
      slot.(closing := Max(0, slot.closing - 1), retireRequested := slot.retireRequested || closeFailed),
      w.held, w.closing - multiset{s});
  }

  lemma LaunchedKeepsInv(w: World, s: SlotId)
    requires Inv(w) && s in w.pool.slots && w.pool.slots[s].launching && s in w.held
    ensures Inv(w.(pool := Launched(w.pool, s)))
  {
    var r := w.(pool := Launched(w.pool, s));
    forall t | t in r.pool.slots ensures SlotInv(r, t) { assert SlotInv(w, t); }
  }

  lemma NextKeepsInv(w: World, e: Event)
    requires Inv(w) && Legal(w, e)
    ensures Inv(Next(w, e))
  {
    match e
    case DoAcquire(_, _, _, _) => AcquireKeepsInv(w, e);
    case DoLaunched(s) => LaunchedKeepsInv(w, s);
    case DoGiveUp(s, alive, now) => ReleaseKeepsInv(w, s, false, true, alive, now);
    case DoRelease(s, alive, now) => ReleaseKeepsInv(w, s, true, false, alive, now);
    case DoFinish(s, closeFailed) => FinishKeepsInv(w, s, closeFailed);
  }

  /** `w` is reached from an empty pool by the run `es`. */
  ghost predicate Reaches(from: World, es: seq<Event>, to: World)
    decreases |es|
  {
    if es == [] then to == from else Legal(from, es[0]) && Reaches(Next(from, es[0]), es[1..], to)
  }

  function EmptyWorld(maxProcesses: nat, contextsPerProcess: nat): World
  {
    World(Pool(maxProcesses, contextsPerProcess, [], map[]), multiset{}, multiset{})
  }

  lemma {:induction false} RunKeepsInv(w: World, es: seq<Event>, r: World)
    requires Inv(w) && Reaches(w, es, r)
    ensures Inv(r)
    decreases |es|
  {
    if es != [] {
      NextKeepsInv(w, es[0]);
      RunKeepsInv(Next(w, es[0]), es[1..], r);
    }
  }

  function LoadOf(pool: Pool): SlotId -> int { (s: SlotId) => if s in pool.slots then pool.slots[s].active else 0 }

  /** The number of contexts that `snapshot` reports as active. */
  function ActiveContexts(pool: Pool): int { Total(LoadOf(pool), pool.table) }

  /**
   * In every reachable state: no process is overloaded even by contexts that are still closing, the
   * process limit holds, the table accounts for every context handed out, and the capacity shown
   * to callers never needs its clamp at zero.
   */
  lemma ReachablePoolIsSafe(maxProcesses: nat, contextsPerProcess: nat, es: seq<Event>, w: World)
    requires maxProcesses >= 1 && contextsPerProcess >= 1
    requires Reaches(EmptyWorld(maxProcesses, contextsPerProcess), es, w)
    ensures Inv(w)
    ensures |w.pool.table| <= w.pool.maxProcesses
    ensures forall s :: s in w.pool.slots ==>
      && w.pool.slots[s].active + w.pool.slots[s].closing <= w.pool.contextsPerProcess
      && (w.pool.slots[s].retiring <==> w.pool.slots[s].retireRequested || w.pool.slots[s].closing > 0)
    ensures OneLaunchPerKey(w.pool)
    ensures forall s :: s in w.pool.table ==>
      && s in w.pool.slots
      && !(w.pool.slots[s].retireRequested && w.pool.slots[s].active == 0 && w.pool.slots[s].closing == 0)
    ensures ActiveContexts(w.pool) == |w.held| <= w.pool.maxProcesses * w.pool.contextsPerProcess
  {
    RunKeepsInv(EmptyWorld(maxProcesses, contextsPerProcess), es, w);
    forall s | s in w.pool.slots
      ensures w.pool.slots[s].active + w.pool.slots[s].closing <= w.pool.contextsPerProcess
        && w.pool.slots[s].closing >= 0
      ensures w.pool.slots[s].retiring <==> w.pool.slots[s].retireRequested || w.pool.slots[s].closing > 0
      ensures w.pool.slots[s].active == w.held[s] && (w.pool.slots[s].active > 0 ==> s in w.pool.table)
      ensures s in w.pool.table ==>
        !(w.pool.slots[s].retireRequested && w.pool.slots[s].active == 0 && w.pool.slots[s].closing == 0)
    {
      assert SlotInv(w, s);
    }
    TotalCountsHolders(LoadOf(w.pool), w.pool.table, w.held);
    TotalIsBounded(LoadOf(w.pool), w.pool.table, w.pool.contextsPerProcess, w.pool.maxProcesses);
  }

  /** Sweeping a dead slot makes room by itself, so the same turn never drops a second slot. */
  lemma OneTurnDropsAtMostOne(w: World, alive: set<SlotId>)
    requires Inv(w) && First(DeadRule(w.pool, alive), w.pool.table).Some?
    ensures Evicted(Swept(w.pool, alive)) == Swept(w.pool, alive)
    ensures |Swept(w.pool, alive).table| == |w.pool.table| - 1
  {
    RemoveMembers(w.pool.table, First(DeadRule(w.pool, alive), w.pool.table).value);
  }

  // ---- the pool object -------------------------------------------------------------------------------

  class ReusableBrowserPool {
    const maxProcesses: nat
    const contextsPerProcess: nat
    var table: seq<SlotId>
    var slots: map<SlotId, Slot>

    function State(): Pool
      reads this
    {
      Pool(maxProcesses, contextsPerProcess, table, slots)
    }

    constructor (processes: int, contexts: int)
      ensures State() == EmptyWorld(Max(1, processes), Max(1, contexts)).pool
      ensures Inv(World(State(), multiset{}, multiset{}))
    {
      maxProcesses, contextsPerProcess := Max(1, processes), Max(1, contexts);
      table, slots := [], map[];
    }

    method Drop(s: SlotId)
      modifies this`table
      ensures table == Remove(old(table), s)
    {
      for i := 0 to |table|
        invariant unchanged(this) && forall k :: 0 <= k < i ==> table[k] != s
      {
        if table[i] == s {
          RemoveAt(table, s, i);
          table := table[..i] + table[i + 1..];
          return;
        }
      }
      RemoveAt(table, s, |table|);
    }

    /** The scan of the table that every branch of the turn uses. */
    method Scan(p: SlotId -> bool) returns (found: Option<SlotId>)
      ensures found == First(p, table)
    {
      for i := 0 to |table|
        invariant First(p, table) == First(p, table[i..])
      {
        assert table[i..][1..] == table[i + 1..];
        if p(table[i]) { return Some(table[i]); }
      }
      return None;
    }

    /** One turn of the acquire loop under the lock. */
    method AcquireTurn(key: string, alive: set<SlotId>, spare: SlotId, now: Time) returns (outcome: Outcome)
      modifies this
      ensures (State(), outcome) == Acquire(old(State()), key, alive, spare, now)
    {
      var dead := Scan(DeadRule(State(), alive));
      if dead.Some? { Drop(dead.value); }
      var usable := Scan(UsableRule(State(), key, alive));
      if usable.Some? {
        var s := usable.value;
        slots := slots[s := slots[s].(active := slots[s].active + 1)];
        return Selected(s);
      }
      var launching := Scan(LaunchingRule(State(), key));
      if launching.Some? { return Wait; }
      if |table| >= maxProcesses {
        var idle := Scan(IdleRule(State()));
        if idle.Some? { Drop(idle.value); }
      }
      if |table| < maxProcesses {
        slots := slots[spare := NewSlot(key, now)];
        table := table + [spare];
        return Launch(spare);
      }
      return Wait;
    }

    method LaunchDone(s: SlotId)
      requires s in slots
      modifies this`slots
      ensures State() == Launched(old(State()), s)
    {
      slots := slots[s := slots[s].(hasBrowser := true, launching := false)];
    }

    /** Recomputes `retiring` and drops a retired slot that nobody uses any more. */
    method Settle(s: SlotId) returns (retired: bool)
      requires s in slots
      modifies this
      ensures State() == Settled(old(State()), s, old(slots)[s])
      ensures retired <==> s in old(table) && |table| < |old(table)|
    {
      slots := slots[s := slots[s].(retiring := slots[s].retireRequested || slots[s].closing > 0)];
      retired := s in table && slots[s].active == 0 && slots[s].closing == 0 && slots[s].retireRequested;
      if retired {
        ShorterWithout(table, s);
        Drop(s);
      }
    }

    /** The counters of a slot that loses one caller, and whether it is worn out. */
    method Discharge(s: SlotId, withContext: bool, failed: bool, alive: set<SlotId>, now: Time) returns (slot: Slot)
      requires s in slots
      ensures slot == Released(State(), s, withContext, failed, alive, now)
    {
      slot := slots[s].(active := Max(0, slots[s].active - 1));
      if withContext { slot := slot.(completed := slot.completed + 1); }
      var expired := now - slot.createdAt >= RECYCLE_SECONDS;
      if failed || !(slot.hasBrowser && s in alive) || slot.completed >= RECYCLE_TASKS || expired {
        slot := slot.(retireRequested := true);
      }
      if withContext { slot := slot.(closing := slot.closing + 1); }
    }

    method ReleaseSlot(s: SlotId, withContext: bool, failed: bool, alive: set<SlotId>, now: Time)
      returns (retired: bool)
      requires s in slots
      modifies this
      ensures State() == Release(old(State()), s, withContext, failed, alive, now)
    {
      ghost var before := State();
      var slot := Discharge(s, withContext, failed, alive, now);
      slots := slots[s := slot];
      retired := Settle(s);
      assert State() == Settled(before, s, slot);
    }

    method FinishClosing(s: SlotId, closeFailed: bool) returns (retired: bool)
      requires s in slots
      modifies this
      ensures State() == FinishRelease(old(State()), s, closeFailed)
    {
      var slot := slots[s].(closing := Max(0, slots[s].closing - 1));
      if closeFailed { slot := slot.(retireRequested := true); }
      slots := slots[s := slot];
      retired := Settle(s);
    }
  }
}
