/** What each call of the browser pool means for its callers, read from the fields of the slots. */
module BrowserCalls {
  import opened SlotTable
  import opened Util
  import opened BrowserPool

  /** A process of the requested kind that runs, is not on its way out, and has room for another context. */
  predicate Serves(slot: Slot, running: bool, key: string, limit: nat)
  {
    && slot.key == key && slot.hasBrowser && running && !slot.launching && !slot.retiring
    && slot.active < limit
  }

  predicate Starting(slot: Slot, key: string) { slot.key == key && slot.launching && !slot.retiring }

  predicate Unused(slot: Slot) { slot.active == 0 && !slot.launching }

  predicate Broken(slot: Slot, running: bool) { Unused(slot) && !(slot.hasBrowser && running) }

  function Serving(pool: Pool, key: string, alive: set<SlotId>): SlotId -> bool
  {
    (s: SlotId) => s in pool.slots && Serves(pool.slots[s], s in alive, key, pool.contextsPerProcess)
  }

  function BrokenIn(pool: Pool, alive: set<SlotId>): SlotId -> bool
  {
    (s: SlotId) => s in pool.slots && Broken(pool.slots[s], s in alive)
  }

  function UnusedIn(pool: Pool): SlotId -> bool { (s: SlotId) => s in pool.slots && Unused(pool.slots[s]) }

  ghost predicate Sound(pool: Pool)
  {
    Distinct(pool.table) && |pool.table| <= pool.maxProcesses && forall s :: s in pool.table ==> s in pool.slots
  }

  ghost predicate NoneServes(pool: Pool, key: string, alive: set<SlotId>)
  {
    forall s :: s in pool.table && s in pool.slots ==> !Serves(pool.slots[s], s in alive, key, pool.contextsPerProcess)
  }

  ghost predicate NoneStarts(pool: Pool, key: string)
  {
    forall s :: s in pool.table && s in pool.slots ==> !Starting(pool.slots[s], key)
  }

  // ---- the choice ------------------------------------------------------------------------------------------

  lemma {:induction false} SameRule(p: SlotId -> bool, q: SlotId -> bool, table: seq<SlotId>)
    requires forall s :: s in table ==> p(s) == q(s)
    ensures First(p, table) == First(q, table)
  {
    if table != [] { SameRule(p, q, table[1..]); }
  }

  /** The sweep drops the first broken slot and touches no other. */
  lemma SweptMeans(pool: Pool, alive: set<SlotId>)
    requires Sound(pool)
    ensures var r := Swept(pool, alive);
      && Sound(r) && r.slots == pool.slots
      && r.maxProcesses == pool.maxProcesses && r.contextsPerProcess == pool.contextsPerProcess
      && (forall s: SlotId :: s in r.table <==> s in pool.table && !FirstOf(BrokenIn(pool, alive), pool.table, s))
  {
    SameRule(DeadRule(pool, alive), BrokenIn(pool, alive), pool.table);
    FirstIsFirst(BrokenIn(pool, alive), pool.table);
    var dead := First(DeadRule(pool, alive), pool.table);
    if dead.Some? { RemoveMembers(pool.table, dead.value); }
  }

  /** A sweep that drops a slot leaves room; otherwise nothing listed is broken. */
  lemma SweptSize(pool: Pool, alive: set<SlotId>)
    requires Sound(pool)
    ensures var r := Swept(pool, alive);
      if exists s: SlotId :: FirstOf(BrokenIn(pool, alive), pool.table, s)
      then |r.table| == |pool.table| - 1 else r == pool
  {
    SameRule(DeadRule(pool, alive), BrokenIn(pool, alive), pool.table);
    FirstIsFirst(BrokenIn(pool, alive), pool.table);
    var dead := First(DeadRule(pool, alive), pool.table);
    if dead.Some? {
      assert FirstOf(BrokenIn(pool, alive), pool.table, dead.value);
      RemoveMembers(pool.table, dead.value);
    }
  }

  /** What the sweep drops serves nobody, so it does not change which slot is found. */
  lemma SweptServes(pool: Pool, key: string, alive: set<SlotId>)
    requires Sound(pool)
    ensures First(UsableRule(Swept(pool, alive), key, alive), Swept(pool, alive).table) ==
      First(Serving(pool, key, alive), pool.table)
    ensures First(LaunchingRule(Swept(pool, alive), key), Swept(pool, alive).table).None? <==> NoneStarts(pool, key)
  {
    var r := Swept(pool, alive);
    SweptMeans(pool, alive);
    SameRule(UsableRule(r, key, alive), Serving(pool, key, alive), r.table);
    var dead := First(DeadRule(pool, alive), pool.table);
    if dead.Some? { FirstSkips(Serving(pool, key, alive), pool.table, dead.value); }
    SweptStarts(pool, key, alive);
  }

  lemma SweptStarts(pool: Pool, key: string, alive: set<SlotId>)
    requires Sound(pool)
    ensures First(LaunchingRule(Swept(pool, alive), key), Swept(pool, alive).table).None? <==> NoneStarts(pool, key)
  {
    var r := Swept(pool, alive);
    SweptMeans(pool, alive);
    var p := LaunchingRule(r, key);
    if First(p, r.table).None? {
      forall s | s in pool.table ensures !Starting(pool.slots[s], key) {
        if s in r.table { assert !p(s); } else { assert Unused(pool.slots[s]); }
      }
    }
  }

  /** An acquire takes a listed slot exactly when one serves the request, and then the first one. */
  lemma AcquireSelects(pool: Pool, key: string, alive: set<SlotId>, spare: SlotId, now: Time)
    requires Sound(pool)
    ensures var outcome := Acquire(pool, key, alive, spare, now).1;
      && (forall s: SlotId :: outcome == Selected(s) <==> FirstOf(Serving(pool, key, alive), pool.table, s))
      && (outcome.Selected? <==> !NoneServes(pool, key, alive))
  {
    SweptServes(pool, key, alive);
    FirstIsFirst(Serving(pool, key, alive), pool.table);
    var p := Serving(pool, key, alive);
    if First(p, pool.table).None? {
      forall s | s in pool.table ensures !Serves(pool.slots[s], s in alive, key, pool.contextsPerProcess) {
        assert !p(s);
      }
    }
  }

  /**
   * It waits exactly when no listed slot serves the request and either a process of the kind is being
   * started, or the table is full of slots in use.
   */
  lemma AcquireWaits(pool: Pool, key: string, alive: set<SlotId>, spare: SlotId, now: Time)
    requires Sound(pool)
    ensures Acquire(pool, key, alive, spare, now).1.Wait? <==>
      && NoneServes(pool, key, alive)
      && (!NoneStarts(pool, key)
          || (|pool.table| == pool.maxProcesses && forall s :: s in pool.table ==> !Unused(pool.slots[s])))
  {
    AcquireSelects(pool, key, alive, spare, now);
    SweptServes(pool, key, alive);
    RoomMeans(pool, alive);
  }

  /** Room is found unless the table is full of slots in use. */
  lemma RoomMeans(pool: Pool, alive: set<SlotId>)
    requires Sound(pool)
    ensures var room := Evicted(Swept(pool, alive));
      && room.slots == pool.slots && room.maxProcesses == pool.maxProcesses && Distinct(room.table)
      && (|room.table| >= room.maxProcesses <==>
           |pool.table| == pool.maxProcesses && forall s :: s in pool.table ==> !Unused(pool.slots[s]))
  {
    SweptMeans(pool, alive);
    SweptSize(pool, alive);
    var swept := Swept(pool, alive);
    var idle := First(IdleRule(swept), swept.table);
    if idle.Some? {
      RemoveMembers(swept.table, idle.value);
    } else {
      forall s | s in swept.table ensures !Unused(pool.slots[s]) { assert !IdleRule(swept)(s); }
    }
    SweptAllInUse(pool, alive);
  }

  lemma SweptAllInUse(pool: Pool, alive: set<SlotId>)
    requires Sound(pool)
    ensures (forall s :: s in pool.table ==> !Unused(pool.slots[s])) ==> Swept(pool, alive) == pool
  {
    SweptSize(pool, alive);
  }

  /** The slot that an acquire drops to make room: the first unused one, when the table is full and none is broken. */
  ghost predicate MakesRoom(pool: Pool, alive: set<SlotId>, s: SlotId)
  {
    && |pool.table| == pool.maxProcesses && FirstOf(UnusedIn(pool), pool.table, s)
    && forall t :: t in pool.table && t in pool.slots ==> !Broken(pool.slots[t], t in alive)
  }

  lemma RoomTable(pool: Pool, alive: set<SlotId>)
    requires Sound(pool)
    ensures var room := Evicted(Swept(pool, alive));
      forall s: SlotId :: s in room.table <==>
        s in pool.table && !FirstOf(BrokenIn(pool, alive), pool.table, s) && !MakesRoom(pool, alive, s)
  {
    SweptMeans(pool, alive);
    SweptSize(pool, alive);
    if s: SlotId :| FirstOf(BrokenIn(pool, alive), pool.table, s) {
      assert Evicted(Swept(pool, alive)) == Swept(pool, alive);
      assert s in pool.table && Broken(pool.slots[s], s in alive);
    } else {
      NoneBroken(pool, alive);
      EvictedMeans(pool);
    }
  }

  lemma NoneBroken(pool: Pool, alive: set<SlotId>)
    requires forall s: SlotId :: !FirstOf(BrokenIn(pool, alive), pool.table, s)
    ensures forall t :: t in pool.table && t in pool.slots ==> !Broken(pool.slots[t], t in alive)
  {
    FirstIsFirst(BrokenIn(pool, alive), pool.table);
    assert forall s: SlotId :: First(BrokenIn(pool, alive), pool.table) != Some(s);
    forall t | t in pool.table && t in pool.slots ensures !Broken(pool.slots[t], t in alive) {
      assert !BrokenIn(pool, alive)(t);
    }
  }

  lemma EvictedMeans(pool: Pool)
    requires Sound(pool)
    ensures forall s: SlotId :: s in Evicted(pool).table <==>
      s in pool.table && !(|pool.table| == pool.maxProcesses && FirstOf(UnusedIn(pool), pool.table, s))
  {
    SameRule(IdleRule(pool), UnusedIn(pool), pool.table);
    FirstIsFirst(UnusedIn(pool), pool.table);
    var idle := First(IdleRule(pool), pool.table);
    if idle.Some? { RemoveMembers(pool.table, idle.value); }
  }

  /** What an acquire does to the slots: one caller more on the slot it takes, or one new slot of the requested kind. */
  lemma AcquireChangesSlots(pool: Pool, key: string, alive: set<SlotId>, spare: SlotId, now: Time)
    requires Sound(pool)
    ensures var (r, outcome) := Acquire(pool, key, alive, spare, now);
      && r.maxProcesses == pool.maxProcesses && r.contextsPerProcess == pool.contextsPerProcess
      && match outcome
         case Selected(s) =>
           && s in pool.slots && r.slots.Keys == pool.slots.Keys
           && r.slots[s] == pool.slots[s].(active := pool.slots[s].active + 1)
           && (forall t :: t in pool.slots && t != s ==> r.slots[t] == pool.slots[t])
         case Launch(s) =>
           && s == spare && s in r.slots && r.slots.Keys == pool.slots.Keys + {s}
           && r.slots[s].key == key && r.slots[s].active == 1 && r.slots[s].launching && !r.slots[s].hasBrowser
           && !r.slots[s].retiring && !r.slots[s].retireRequested && r.slots[s].createdAt == now
           && r.slots[s].completed == 0 && r.slots[s].closing == 0
           && (forall t :: t in pool.slots && t != s ==> r.slots[t] == pool.slots[t])
         case Wait => r.slots == pool.slots
  {
    SweptMeans(pool, alive);
    RoomMeans(pool, alive);
  }

  /**
   * What an acquire does to the table: the first broken slot leaves it, and when there is none, the
   * first unused slot of a full table leaves it if room for a new process is needed.
   */
  lemma AcquireChangesTable(pool: Pool, key: string, alive: set<SlotId>, spare: SlotId, now: Time)
    requires Sound(pool) && spare !in pool.table
    ensures var (r, outcome) := Acquire(pool, key, alive, spare, now);
      && Distinct(r.table) && |r.table| <= r.maxProcesses
      && (spare in r.table <==> outcome == Launch(spare))
      && forall s: SlotId :: s in pool.table ==>
           (s !in r.table <==>
             FirstOf(BrokenIn(pool, alive), pool.table, s) || (outcome.Launch? && MakesRoom(pool, alive, s)))
  {
    SweptMeans(pool, alive);
    RoomMeans(pool, alive);
    RoomTable(pool, alive);
    if Acquire(pool, key, alive, spare, now).1.Wait? { WaitDropsNothing(pool, key, alive, spare, now); }
  }

  lemma WaitDropsNothing(pool: Pool, key: string, alive: set<SlotId>, spare: SlotId, now: Time)
    requires Sound(pool) && Acquire(pool, key, alive, spare, now).1.Wait?
    ensures Acquire(pool, key, alive, spare, now).0 == Swept(pool, alive)
  {
    SweptMeans(pool, alive);
    RoomMeans(pool, alive);
  }

  // ---- releases --------------------------------------------------------------------------------------------

  /** Past its number of contexts or its age, in a state where it may not work, or told so by a caller. */
  predicate WornOut(before: Slot, running: bool, contexts: nat, failed: bool, now: Time)
  {
    || failed || !(before.hasBrowser && running)
    || before.completed + contexts >= 80 || now - before.createdAt >= 30 * 60
  }

  /** Nothing of the pool changes but the slot `s`, which leaves the table exactly if `leaves`. */
  ghost predicate OnlySlot(pool: Pool, r: Pool, s: SlotId, leaves: bool)
  {
    && r.maxProcesses == pool.maxProcesses && r.contextsPerProcess == pool.contextsPerProcess
    && r.slots.Keys == pool.slots.Keys && (forall t :: t in pool.slots && t != s ==> r.slots[t] == pool.slots[t])
    && Distinct(r.table) && (forall t :: t in r.table <==> t in pool.table && !(t == s && leaves))
  }

  /** A release with a context to close, or without one after a failure. */
  lemma ReleaseMeans(pool: Pool, s: SlotId, withContext: bool, failed: bool, alive: set<SlotId>, now: Time)
    requires Sound(pool) && s in pool.slots && pool.slots[s].active > 0
    ensures var before, r := pool.slots[s], Release(pool, s, withContext, failed, alive, now);
      var contexts := if withContext then 1 else 0;
      var retire := before.retireRequested || WornOut(before, s in alive, contexts, failed, now);
      && s in r.slots
      && r.slots[s] == before.(
           active := before.active - 1, completed := before.completed + contexts, closing := before.closing + contexts,
           retireRequested := retire, retiring := retire || before.closing + contexts > 0)
      && OnlySlot(pool, r, s, retire && before.active == 1 && before.closing + contexts == 0)
  {
    if s in pool.table { RemoveMembers(pool.table, s); }
  }

  /** The end of a release: the context is closed, or could not be. */
  lemma FinishMeans(pool: Pool, s: SlotId, closeFailed: bool)
    requires Sound(pool) && s in pool.slots && pool.slots[s].closing > 0
    ensures var before, r := pool.slots[s], FinishRelease(pool, s, closeFailed);
      var retire := before.retireRequested || closeFailed;
      && s in r.slots
      && r.slots[s] == before.(closing := before.closing - 1, retireRequested := retire,
                               retiring := retire || before.closing > 1)
      && OnlySlot(pool, r, s, retire && before.active == 0 && before.closing == 1)
  {
    if s in pool.table { RemoveMembers(pool.table, s); }
  }

  // ---- over runs -----------------------------------------------------------------------------------------------

  /** A state of the pool together with every slot that was handed out and the key asked for. */
  datatype Recorded = Recorded(world: World, asked: set<(SlotId, string)>)

  function Record(x: Recorded, e: Event): Recorded
    requires Legal(x.world, e)
  {
    var asked :=
      if !e.DoAcquire? then x.asked
      else
        var outcome := Acquire(x.world.pool, e.key, e.alive, e.spare, e.now).1;
        if outcome.Wait? then x.asked else x.asked + {(outcome.slot, e.key)};
    Recorded(Next(x.world, e), asked)
  }

  ghost predicate Leads(from: Recorded, es: seq<Event>, to: Recorded)
    decreases |es|
  {
    if es == [] then to == from else Legal(from.world, es[0]) && Leads(Record(from, es[0]), es[1..], to)
  }

  ghost predicate KeysAsAsked(x: Recorded)
  {
    && (forall s, k :: (s, k) in x.asked ==> s in x.world.pool.slots && x.world.pool.slots[s].key == k)
    && forall s :: s in x.world.held ==> exists k :: (s, k) in x.asked
  }

  lemma InvIsSound(w: World)
    requires Inv(w)
    ensures Sound(w.pool)
  {
  }

  /** The slot is still known, with the same key, and still to be retired if it was. */
  ghost predicate Kept(pool: Pool, r: Pool, s: SlotId)
  {
    && s in pool.slots && s in r.slots && r.slots[s].key == pool.slots[s].key
    && (pool.slots[s].retireRequested ==> r.slots[s].retireRequested)
  }

  lemma AcquireKeepsSlots(pool: Pool, key: string, alive: set<SlotId>, spare: SlotId, now: Time)
    requires Sound(pool) && spare !in pool.slots
    ensures forall s :: s in pool.slots ==> Kept(pool, Acquire(pool, key, alive, spare, now).0, s)
  {
    AcquireChangesSlots(pool, key, alive, spare, now);
  }

  lemma SettledKeepsSlots(pool: Pool, s: SlotId, slot: Slot)
    requires s in pool.slots && slot.key == pool.slots[s].key
    requires pool.slots[s].retireRequested ==> slot.retireRequested
    ensures forall t :: t in pool.slots ==> Kept(pool, Settled(pool, s, slot), t)
  {
  }

  lemma ReleaseKeepsSlots(pool: Pool, s: SlotId, withContext: bool, failed: bool, alive: set<SlotId>, now: Time)
    requires s in pool.slots
    ensures forall t :: t in pool.slots ==> Kept(pool, Release(pool, s, withContext, failed, alive, now), t)
  {
    SettledKeepsSlots(pool, s, Released(pool, s, withContext, failed, alive, now));
  }

  lemma FinishKeepsSlots(pool: Pool, s: SlotId, closeFailed: bool)
    requires s in pool.slots
    ensures forall t :: t in pool.slots ==> Kept(pool, FinishRelease(pool, s, closeFailed), t)
  {
    var slot := pool.slots[s];
    SettledKeepsSlots(pool, s,
      slot.(closing := Max(0, slot.closing - 1), retireRequested := slot.retireRequested || closeFailed));
  }

  lemma NextKeepsSlots(w: World, e: Event)
    requires Inv(w) && Legal(w, e)
    ensures forall s :: s in w.pool.slots ==> Kept(w.pool, Next(w, e).pool, s)
  {
    match e
    case DoAcquire(key, alive, spare, now) => AcquireKeepsSlots(w.pool, key, alive, spare, now);
    case DoLaunched(s) =>
    case DoGiveUp(s, alive, now) => ReleaseKeepsSlots(w.pool, s, false, true, alive, now);
    case DoRelease(s, alive, now) => ReleaseKeepsSlots(w.pool, s, true, false, alive, now);
    case DoFinish(s, closeFailed) => FinishKeepsSlots(w.pool, s, closeFailed);
  }

  lemma KeysStayAsAsked(x: Recorded, pool: Pool, held: multiset<SlotId>, closing: multiset<SlotId>)
    requires KeysAsAsked(x) && (forall s :: s in held ==> s in x.world.held)
    requires forall s :: s in x.world.pool.slots ==> Kept(x.world.pool, pool, s)
    ensures KeysAsAsked(Recorded(World(pool, held, closing), x.asked))
  {
  }

  /** One more holder, of a slot with the key that it asked for. */
  lemma GrantKeepsKeysAsAsked(x: Recorded, pool: Pool, s: SlotId, key: string)
    requires KeysAsAsked(x) && s in pool.slots && pool.slots[s].key == key
    requires forall t :: t in x.world.pool.slots ==> Kept(x.world.pool, pool, t)
    ensures KeysAsAsked(Recorded(World(pool, x.world.held + multiset{s}, x.world.closing), x.asked + {(s, key)}))
  {
    var y := Recorded(World(pool, x.world.held + multiset{s}, x.world.closing), x.asked + {(s, key)});
    assert (s, key) in y.asked;
    forall t | t in y.world.held ensures exists k :: (t, k) in y.asked {
      if t != s {
        assert t in x.world.held;
        var k :| (t, k) in x.asked;
        assert (t, k) in y.asked;
      }
    }
  }

  /** Whatever an acquire hands out has the key that was asked for. */
  lemma GrantHasKey(pool: Pool, key: string, alive: set<SlotId>, spare: SlotId, now: Time)
    requires Sound(pool)
    ensures var (r, outcome) := Acquire(pool, key, alive, spare, now);
      !outcome.Wait? ==> outcome.slot in r.slots && r.slots[outcome.slot].key == key
  {
    AcquireSelects(pool, key, alive, spare, now);
    AcquireChangesSlots(pool, key, alive, spare, now);
  }

  lemma AcquireKeepsKeysAsAsked(x: Recorded, e: Event)
    requires Inv(x.world) && KeysAsAsked(x) && Legal(x.world, e) && e.DoAcquire?
    ensures KeysAsAsked(Record(x, e))
  {
    var (pool, outcome) := Acquire(x.world.pool, e.key, e.alive, e.spare, e.now);
    AcquireKeepsSlots(x.world.pool, e.key, e.alive, e.spare, e.now);
    if outcome.Wait? {
      KeysStayAsAsked(x, pool, x.world.held, x.world.closing);
    } else {
      GrantHasKey(x.world.pool, e.key, e.alive, e.spare, e.now);
      GrantKeepsKeysAsAsked(x, pool, outcome.slot, e.key);
    }
  }

  lemma OthersKeepKeysAsAsked(x: Recorded, e: Event)
    requires Inv(x.world) && KeysAsAsked(x) && Legal(x.world, e) && !e.DoAcquire?
    ensures KeysAsAsked(Record(x, e))
  {
    NextKeepsSlots(x.world, e);
    var r := Next(x.world, e);
    assert forall s :: s in r.held ==> s in x.world.held;
    KeysStayAsAsked(x, r.pool, r.held, r.closing);
  }

  /** In every run, whoever holds a slot holds a browser of the kind that it asked for, and keeps it. */
  lemma {:induction false} HoldersGetWhatTheyAsked(x: Recorded, es: seq<Event>, y: Recorded)
    requires Inv(x.world) && KeysAsAsked(x) && Leads(x, es, y)
    ensures KeysAsAsked(y) && Inv(y.world)
    decreases |es|
  {
    if es != [] {
      NextKeepsInv(x.world, es[0]);
      if es[0].DoAcquire? { AcquireKeepsKeysAsAsked(x, es[0]); } else { OthersKeepKeysAsAsked(x, es[0]); }
      HoldersGetWhatTheyAsked(Record(x, es[0]), es[1..], y);
    }
  }

  lemma {:induction false} RetirementLasts(w: World, es: seq<Event>, r: World, s: SlotId)
    requires Inv(w) && Reaches(w, es, r) && s in w.pool.slots && w.pool.slots[s].retireRequested
    ensures s in r.pool.slots && r.pool.slots[s].retireRequested && Inv(r)
    decreases |es|
  {
    if es != [] {
      NextKeepsSlots(w, es[0]);
      NextKeepsInv(w, es[0]);
      RetirementLasts(Next(w, es[0]), es[1..], r, s);
    }
  }

  /** A slot that was once told to retire is never handed out again. */
  lemma RetiredIsNeverSelected(w: World, es: seq<Event>, r: World, s: SlotId, e: Event)
    requires Inv(w) && Reaches(w, es, r) && s in w.pool.slots && w.pool.slots[s].retireRequested
    requires Legal(r, e) && e.DoAcquire?
    ensures var outcome := Acquire(r.pool, e.key, e.alive, e.spare, e.now).1; outcome.Wait? || outcome.slot != s
  {
    RetirementLasts(w, es, r, s);
    assert SlotInv(r, s);
    AcquireSelects(r.pool, e.key, e.alive, e.spare, e.now);
    AcquireChangesSlots(r.pool, e.key, e.alive, e.spare, e.now);
  }
}
