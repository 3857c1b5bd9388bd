/**
 * The cache of uploaded reference attachments: an insertion-ordered dictionary whose entries expire,
 * are invalidated, and give way to newer ones when it is full. It is compared with the log of all
 * calls. Times are whole seconds of a clock that never goes back.
 */
module ReferenceCache {
  import opened Util

  type Key = string
  type Time = nat

  datatype Attachment = Attachment(uri: string, details: string)

  datatype Entry = Entry(key: Key, expires: Time, attachment: Attachment)

  datatype LimitValues = LimitValues(ttl: nat, size: nat)

  /** The ranges to which the two environment settings are clamped. */
  type Limits = l: LimitValues | 60 <= l.ttl <= 86400 && 16 <= l.size <= 4096 witness LimitValues(1800, 512)

  // ---- the dictionary -------------------------------------------------------------------------------

  function Assign(c: seq<Entry>, e: Entry): seq<Entry>
  {
    if c == [] then [e] else if c[0].key == e.key then [e] + c[1..] else [c[0]] + Assign(c[1..], e)
  }

  function Drop(c: seq<Entry>, k: Key): seq<Entry>
  {
    if c == [] then [] else if c[0].key == k then c[1..] else [c[0]] + Drop(c[1..], k)
  }

  function Without(c: seq<Entry>, ks: seq<Key>): seq<Entry>
  {
    if ks == [] then c else Drop(Without(c, ks[..|ks| - 1]), ks[|ks| - 1])
  }

  function KeysOf(s: seq<Entry>): (ks: seq<Key>)
    ensures |ks| == |s| && forall i :: 0 <= i < |s| ==> ks[i] == s[i].key
  {
    seq(|s|, i requires 0 <= i < |s| => s[i].key)
  }

  function Get(c: seq<Entry>, k: Key): Option<Attachment>
  {
    if c == [] then None else if c[0].key == k then Some(c[0].attachment) else Get(c[1..], k)
  }

  ghost predicate DistinctKeys(c: seq<Entry>)
  {
    forall i, j :: 0 <= i < j < |c| ==> c[i].key != c[j].key
  }

  ghost predicate HasKey(c: seq<Entry>, k: Key) { exists e :: e in c && e.key == k }

  /** An assignment replaces in place or appends. */
  lemma {:induction false} AssignPlaces(c: seq<Entry>, e: Entry)
    ensures if HasKey(c, e.key) then |Assign(c, e)| == |c| else Assign(c, e) == c + [e]
  {
    if c != [] {
      assert c == [c[0]] + c[1..];
      assert c[0] in c;
      if c[0].key != e.key {
        AssignPlaces(c[1..], e);
        assert HasKey(c, e.key) <==> HasKey(c[1..], e.key);
      }
    }
  }

  lemma {:induction false} AssignMembers(c: seq<Entry>, e: Entry)
    requires DistinctKeys(c)
    ensures DistinctKeys(Assign(c, e))
    ensures forall x :: x in Assign(c, e) <==> x == e || (x in c && x.key != e.key)
  {
    if c != [] {
      var rest := c[1..];
      assert c == [c[0]] + rest;
      assert forall x :: x in rest ==> x.key != c[0].key;
      if c[0].key != e.key {
        AssignMembers(rest, e);
        assert forall x :: x in Assign(rest, e) ==> x.key != c[0].key;
      }
    }
  }

  lemma {:induction false} DropShortens(c: seq<Entry>, k: Key)
    ensures |Drop(c, k)| == if HasKey(c, k) then |c| - 1 else |c|
  {
    if c != [] {
      assert c == [c[0]] + c[1..];
      assert c[0] in c;
      if c[0].key != k {
        DropShortens(c[1..], k);
        assert HasKey(c, k) <==> HasKey(c[1..], k);
      }
    }
  }

  /** Putting an entry of another key in front keeps keys distinct. */
  lemma DistinctInFront(e: Entry, rest: seq<Entry>)
    requires DistinctKeys(rest) && forall x :: x in rest ==> x.key != e.key
    ensures DistinctKeys([e] + rest)
  {
  }

  lemma {:induction false} DropMembers(c: seq<Entry>, k: Key)
    requires DistinctKeys(c)
    ensures DistinctKeys(Drop(c, k))
    ensures forall x :: x in Drop(c, k) <==> x in c && x.key != k
  {
    if c != [] {
      var first, rest := c[0], c[1..];
      assert c == [first] + rest;
      assert forall x :: x in rest ==> x.key != first.key;
      if first.key != k {
        DropMembers(rest, k);
        DistinctInFront(first, Drop(rest, k));
      }
    }
  }

  lemma {:induction false} WithoutMembers(c: seq<Entry>, ks: seq<Key>)
    requires DistinctKeys(c)
    ensures DistinctKeys(Without(c, ks)) && |Without(c, ks)| <= |c|
    ensures forall x :: x in Without(c, ks) <==> x in c && x.key !in ks
    decreases |ks|
  {
    if ks != [] {
      var front := ks[..|ks| - 1];
      WithoutMembers(c, front);
      DropMembers(Without(c, front), ks[|ks| - 1]);
      DropShortens(Without(c, front), ks[|ks| - 1]);
      assert ks == front + [ks[|ks| - 1]];
    }
  }

  lemma {:induction false} GetFinds(c: seq<Entry>, k: Key)
    requires DistinctKeys(c)
    ensures Get(c, k).Some? <==> HasKey(c, k)
    ensures forall e :: e in c && e.key == k ==> Get(c, k) == Some(e.attachment)
  {
    if c != [] {
      var rest := c[1..];
      assert c == [c[0]] + rest;
      assert c[0] in c;
      GetFinds(rest, k);
      assert forall x :: x in rest ==> x.key != c[0].key;
      assert c[0].key != k ==> (HasKey(c, k) <==> HasKey(rest, k));
    }
  }

  function KeySet(c: seq<Entry>): set<Key>
  {
    set e | e in c :: e.key
  }

  lemma {:induction false} DistinctKeysCount(c: seq<Entry>)
    requires DistinctKeys(c)
    ensures |KeySet(c)| == |c|
  {
    if c != [] {
      DistinctKeysCount(c[1..]);
      assert c == [c[0]] + c[1..];
      assert KeySet(c) == KeySet(c[1..]) + {c[0].key};
      assert forall x :: x in c[1..] ==> x.key != c[0].key;
    }
  }

  // ---- the operations ----------------------------------------------------------------------------------

  function ByExpiry(): (Entry, Entry) -> bool { (a: Entry, b: Entry) => a.expires <= b.expires }

  /** Drops the entries that expire first until the size is legal; equal ones go in dictionary order. */
  function Evicted(l: Limits, c: seq<Entry>): seq<Entry>
  {
    if |c| > l.size then Without(c, KeysOf(Sort(ByExpiry(), c)[..|c| - l.size])) else c
  }

  predicate Storable(k: Key, a: Attachment) { k != "" && a.uri != "" }

  /** `cache_reference_attachment`. */
  function Put(l: Limits, c: seq<Entry>, k: Key, a: Attachment, now: Time): seq<Entry>
  {
    if Storable(k, a) then Evicted(l, Assign(c, Entry(k, now + l.ttl, a))) else c
  }

  function Expired(now: Time): Entry -> bool { (e: Entry) => e.expires <= now }

  function Pruned(c: seq<Entry>, now: Time): seq<Entry>
  {
    Without(c, KeysOf(Filter(Expired(now), c)))
  }

  /** `cached_reference_attachment`. */
  function Lookup(c: seq<Entry>, k: Key, now: Time): Option<Attachment> { Get(Pruned(c, now), k) }

  lemma PrunedMembers(c: seq<Entry>, now: Time)
    requires DistinctKeys(c)
    ensures DistinctKeys(Pruned(c, now)) && |Pruned(c, now)| <= |c|
    ensures forall x :: x in Pruned(c, now) <==> x in c && x.expires > now
  {
    var expired := Filter(Expired(now), c);
    var keys := KeysOf(expired);
    WithoutMembers(c, keys);
    forall x | x in c ensures x.key in keys <==> x.expires <= now {
      if x.key in keys {
        var i :| 0 <= i < |keys| && keys[i] == x.key;
        assert expired[i] in c && expired[i].key == x.key;
      }
      if x.expires <= now {
        assert x in expired;
        var i :| 0 <= i < |expired| && expired[i] == x;
        assert keys[i] == x.key;
      }
    }
  }

  lemma {:induction false} InsertBeforeLast<T>(le: (T, T) -> bool, a: T, s: seq<T>, x: T)
    requires le(a, x)
    ensures Insert(le, a, s + [x]) == Insert(le, a, s) + [x]
  {
    if s != [] && !le(a, s[0]) {
      assert (s + [x])[1..] == s[1..] + [x];
      InsertBeforeLast(le, a, s[1..], x);
    }
  }

  /** Stability: what is listed last and is not smaller than anything stays last. */
  lemma {:induction false} LatestSortsLast<T>(le: (T, T) -> bool, s: seq<T>, x: T)
    requires forall y :: y in s ==> le(y, x)
    ensures Sort(le, s + [x]) == Sort(le, s) + [x]
  {
    if s == [] {
      assert Sort(le, [x]) == Insert(le, x, Sort(le, [x][1..]));
    } else {
      assert (s + [x])[1..] == s[1..] + [x];
      LatestSortsLast(le, s[1..], x);
      InsertBeforeLast(le, s[0], Sort(le, s[1..]), x);
    }
  }

  // ---- the log ---------------------------------------------------------------------------------------------

  datatype Event =
    | Stored(key: Key, attachment: Attachment, at: Time)
    | LookedUp(key: Key, at: Time)
    | Invalidated(keys: seq<Key>, at: Time)
    | Cleared(at: Time)

  function Step(l: Limits, c: seq<Entry>, ev: Event): seq<Entry>
  {
    match ev
    case Stored(k, a, at) => Put(l, c, k, a, at)
    case LookedUp(_, at) => Pruned(c, at)
    case Invalidated(ks, _) => Without(c, ks)
    case Cleared(_) => []
  }

  function Run(l: Limits, log: seq<Event>): seq<Entry>
  {
    if log == [] then [] else Step(l, Run(l, log[..|log| - 1]), log[|log| - 1])
  }

  datatype Stamped = Stamped(attachment: Attachment, at: Time)

  /** The last attachment stored under `k` and not invalidated since. */
  function LastPut(log: seq<Event>, k: Key): Option<Stamped>
  {
    if log == [] then None
    else
      var past := LastPut(log[..|log| - 1], k);
      match log[|log| - 1]
      case Stored(other, a, at) => if other == k && Storable(k, a) then Some(Stamped(a, at)) else past
      case Invalidated(ks, _) => if k in ks then None else past
      case Cleared(_) => None
      case LookedUp(_, _) => past
  }

  /** The keys stored at time `from` or later. */
  function PutsSince(log: seq<Event>, from: Time): set<Key>
  {
    if log == [] then {}
    else
      var last := log[|log| - 1];
      PutsSince(log[..|log| - 1], from)
      + (if last.Stored? && Storable(last.key, last.attachment) && last.at >= from then {last.key} else {})
  }

  predicate InOrder(log: seq<Event>) { forall i, j :: 0 <= i < j < |log| ==> log[i].at <= log[j].at }

  function LastTime(log: seq<Event>): Time { if log == [] then 0 else log[|log| - 1].at }

  /** At least as many other keys as the cache can hold were stored since `k` was. */
  predicate Crowded(l: Limits, log: seq<Event>, k: Key, at: Time) { |PutsSince(log, at) - {k}| >= l.size }

  /** What the cache holds is what the log last stored; what it lacks has expired or was crowded out. */
  ghost predicate Sound(l: Limits, c: seq<Entry>, log: seq<Event>)
  {
    forall e :: e in c ==> e.expires >= l.ttl && LastPut(log, e.key) == Some(Stamped(e.attachment, e.expires - l.ttl))
  }

  ghost predicate Missing(l: Limits, log: seq<Event>, k: Key, now: Time)
  {
    var p := LastPut(log, k);
    p.None? || p.value.at + l.ttl <= now || Crowded(l, log, k, p.value.at)
  }

  ghost predicate Complete(l: Limits, c: seq<Entry>, log: seq<Event>, now: Time)
  {
    forall k :: HasKey(c, k) || Missing(l, log, k, now)
  }

  ghost predicate Reflects(l: Limits, c: seq<Entry>, log: seq<Event>, now: Time)
  {
    && DistinctKeys(c) && |c| <= l.size
    && (forall e :: e in c ==> e.expires <= now + l.ttl)
    && Sound(l, c, log) && Complete(l, c, log, now)
  }

  lemma {:induction false} LastPutWasPut(log: seq<Event>, k: Key, from: Time)
    requires LastPut(log, k).Some? && LastPut(log, k).value.at >= from
    ensures k in PutsSince(log, from)
    decreases |log|
  {
    var last := log[|log| - 1];
    if !(last.Stored? && last.key == k && Storable(k, last.attachment)) {
      LastPutWasPut(log[..|log| - 1], k, from);
    }
  }

  /** A key that is missing stays missing until it is stored again. */
  lemma MissingLasts(l: Limits, log: seq<Event>, ev: Event, k: Key, now: Time)
    requires Missing(l, log, k, now) && now <= ev.at
    requires !(ev.Stored? && ev.key == k && Storable(k, ev.attachment))
    ensures Missing(l, log + [ev], k, ev.at)
  {
    var longer := log + [ev];
    assert longer[..|longer| - 1] == log && longer[|longer| - 1] == ev;
    var p := LastPut(log, k);
    if p.Some? {
      SubsetIsSmaller(PutsSince(log, p.value.at) - {k}, PutsSince(longer, p.value.at) - {k});
    }
  }

  lemma PruneReflects(l: Limits, c: seq<Entry>, log: seq<Event>, k: Key, now: Time, at: Time)
    requires Reflects(l, c, log, now) && now <= at
    ensures Reflects(l, Pruned(c, at), log + [LookedUp(k, at)], at)
  {
    var ev, next := LookedUp(k, at), Pruned(c, at);
    var longer := log + [ev];
    assert longer[..|longer| - 1] == log && longer[|longer| - 1] == ev;
    PrunedMembers(c, at);
    assert forall x :: LastPut(longer, x) == LastPut(log, x);
    forall x ensures HasKey(next, x) || Missing(l, longer, x, at) {
      if HasKey(c, x) {
        var e :| e in c && e.key == x;
        assert LastPut(longer, x) == Some(Stamped(e.attachment, e.expires - l.ttl));
        assert e.expires <= at || e in next;
      } else {
        MissingLasts(l, log, ev, x, now);
      }
    }
  }

  lemma InvalidationReflects(l: Limits, c: seq<Entry>, log: seq<Event>, ks: seq<Key>, now: Time, at: Time)
    requires Reflects(l, c, log, now) && now <= at
    ensures Reflects(l, Without(c, ks), log + [Invalidated(ks, at)], at)
  {
    var ev, next := Invalidated(ks, at), Without(c, ks);
    var longer := log + [ev];
    assert longer[..|longer| - 1] == log && longer[|longer| - 1] == ev;
    WithoutMembers(c, ks);
    forall x ensures HasKey(next, x) || Missing(l, longer, x, at) {
      if HasKey(c, x) {
        var e :| e in c && e.key == x;
        assert x in ks || e in next;
      } else {
        MissingLasts(l, log, ev, x, now);
      }
    }
  }

  lemma ClearReflects(l: Limits, log: seq<Event>, at: Time)
    ensures Reflects(l, [], log + [Cleared(at)], at)
  {
    var longer := log + [Cleared(at)];
    assert longer[..|longer| - 1] == log && longer[|longer| - 1] == Cleared(at);
  }

  /** The dictionary after the assignment, before anything gives way, can be one entry too long. */
  lemma AssignReflects(l: Limits, c: seq<Entry>, log: seq<Event>, k: Key, a: Attachment, now: Time, at: Time)
    requires Reflects(l, c, log, now) && now <= at && Storable(k, a)
    ensures var (next, longer) := (Assign(c, Entry(k, at + l.ttl, a)), log + [Stored(k, a, at)]);
      && DistinctKeys(next) && |next| <= l.size + 1
      && (forall e :: e in next ==> e.expires <= at + l.ttl)
      && Sound(l, next, longer) && Complete(l, next, longer, at)
  {
    var ev, entry := Stored(k, a, at), Entry(k, at + l.ttl, a);
    var longer, next := log + [ev], Assign(c, entry);
    assert longer[..|longer| - 1] == log && longer[|longer| - 1] == ev;
    AssignMembers(c, entry);
    AssignPlaces(c, entry);
    assert forall x :: x != k ==> LastPut(longer, x) == LastPut(log, x);
    forall x ensures HasKey(next, x) || Missing(l, longer, x, at) {
      if x == k {
        assert entry in next;
      } else if HasKey(c, x) {
        var e :| e in c && e.key == x;
        assert e in next;
      } else {
        MissingLasts(l, log, ev, x, now);
      }
    }
  }

  /** The entry that gives way is an earliest one, and every other key was stored no earlier. */
  lemma EvictionIsCrowding(l: Limits, c: seq<Entry>, log: seq<Event>, victim: Entry)
    requires DistinctKeys(c) && Sound(l, c, log) && |c| == l.size + 1 && victim in c
    requires forall x :: x in c ==> victim.expires <= x.expires
    ensures Crowded(l, log, victim.key, victim.expires - l.ttl)
  {
    var from := victim.expires - l.ttl;
    forall k | k in KeySet(c) ensures k in PutsSince(log, from) {
      var e :| e in c && e.key == k;
      LastPutWasPut(log, k, from);
    }
    DistinctKeysCount(c);
    assert victim.key in KeySet(c);
    SubsetIsSmaller(KeySet(c) - {victim.key}, PutsSince(log, from) - {victim.key});
  }

  /** One entry too many: exactly the first of the entries by expiry gives way. */
  lemma EvictedMembers(l: Limits, c: seq<Entry>) returns (victim: Entry)
    requires DistinctKeys(c) && |c| == l.size + 1
    ensures victim == Sort(ByExpiry(), c)[0] && victim in c && forall x :: x in c ==> victim.expires <= x.expires
    ensures DistinctKeys(Evicted(l, c)) && |Evicted(l, c)| == l.size
    ensures forall e :: e in Evicted(l, c) <==> e in c && e.key != victim.key
  {
    HeadOfSortIsLeast(ByExpiry(), c);
    victim := Sort(ByExpiry(), c)[0];
    assert forall e :: e in c ==> ByExpiry()(victim, e);
    var keys := KeysOf(Sort(ByExpiry(), c)[..|c| - l.size]);
    assert keys == [victim.key];
    assert keys[..|keys| - 1] == [] && Without(c, []) == c;
    assert Evicted(l, c) == Drop(c, victim.key);
    DropMembers(c, victim.key);
    DropShortens(c, victim.key);
  }

  lemma EvictReflects(l: Limits, c: seq<Entry>, log: seq<Event>, now: Time)
    requires DistinctKeys(c) && |c| == l.size + 1
    requires forall e :: e in c ==> e.expires <= now + l.ttl
    requires Sound(l, c, log) && Complete(l, c, log, now)
    ensures Reflects(l, Evicted(l, c), log, now)
  {
    var victim := EvictedMembers(l, c);
    var next := Evicted(l, c);
    EvictionIsCrowding(l, c, log, victim);
    forall x ensures HasKey(next, x) || Missing(l, log, x, now) {
      if x != victim.key && HasKey(c, x) {
        var e :| e in c && e.key == x;
        assert e in next;
      }
    }
  }

  lemma PutReflects(l: Limits, c: seq<Entry>, log: seq<Event>, k: Key, a: Attachment, now: Time, at: Time)
    requires Reflects(l, c, log, now) && now <= at && Storable(k, a)
    ensures Reflects(l, Put(l, c, k, a, at), log + [Stored(k, a, at)], at)
    ensures Entry(k, at + l.ttl, a) in Put(l, c, k, a, at)
  {
    var entry := Entry(k, at + l.ttl, a);
    var next := Assign(c, entry);
    AssignReflects(l, c, log, k, a, now, at);
    AssignPlaces(c, entry);
    AssignMembers(c, entry);
    if |next| > l.size {
      var first := EvictedMembers(l, next);
      EvictReflects(l, next, log + [Stored(k, a, at)], at);
      assert next == c + [entry];
      LatestSortsLast(ByExpiry(), c, entry);
      var victim := Sort(ByExpiry(), c)[0];
      assert Sort(ByExpiry(), next)[0] == victim;
      SortHasSameMembers(ByExpiry(), c, victim);
      assert !HasKey(c, k);
    }
  }

  lemma StepReflects(l: Limits, c: seq<Entry>, log: seq<Event>, ev: Event, now: Time)
    requires Reflects(l, c, log, now) && now <= ev.at
    ensures Reflects(l, Step(l, c, ev), log + [ev], ev.at)
  {
    match ev
    case Stored(k, a, at) =>
      if Storable(k, a) {
        PutReflects(l, c, log, k, a, now, at);
      } else {
        IdlePutReflects(l, c, log, ev, now);
      }
    case LookedUp(k, at) => PruneReflects(l, c, log, k, now, at);
    case Invalidated(ks, at) => InvalidationReflects(l, c, log, ks, now, at);
    case Cleared(at) => ClearReflects(l, log, at);
  }

  lemma IdlePutReflects(l: Limits, c: seq<Entry>, log: seq<Event>, ev: Event, now: Time)
    requires Reflects(l, c, log, now) && now <= ev.at && ev.Stored? && !Storable(ev.key, ev.attachment)
    ensures Reflects(l, c, log + [ev], ev.at)
  {
    var longer := log + [ev];
    assert longer[..|longer| - 1] == log && longer[|longer| - 1] == ev;
    assert forall x :: LastPut(longer, x) == LastPut(log, x);
    forall x ensures HasKey(c, x) || Missing(l, longer, x, ev.at) {
      if !HasKey(c, x) { MissingLasts(l, log, ev, x, now); }
    }
  }

  lemma {:induction false} RunReflects(l: Limits, log: seq<Event>)
    requires InOrder(log)
    ensures Reflects(l, Run(l, log), log, LastTime(log))
    decreases |log|
  {
    if log != [] {
      var past, last := log[..|log| - 1], log[|log| - 1];
      RunReflects(l, past);
      StepReflects(l, Run(l, past), past, last, LastTime(past));
      assert past + [last] == log;
    }
  }

  // ---- what callers rely on -------------------------------------------------------------------------------

  /**
   * A lookup after any log gives the attachment last stored for that key, if it gives one, and within
   * its time to live; and it gives none only when there is none, it has expired, or it was crowded out.
   */
  lemma LookupReadsTheLog(l: Limits, log: seq<Event>, k: Key, now: Time)
    requires InOrder(log) && LastTime(log) <= now
    ensures var (found, stored) := (Lookup(Run(l, log), k, now), LastPut(log, k));
      && (found.Some? ==> stored.Some? && stored.value.attachment == found.value && now < stored.value.at + l.ttl)
      && (found.None? ==> Missing(l, log, k, now))
  {
    RunReflects(l, log);
    var c := Run(l, log);
    PrunedMembers(c, now);
    var pruned := Pruned(c, now);
    GetFinds(pruned, k);
    if HasKey(pruned, k) {
      var e :| e in pruned && e.key == k;
    } else if HasKey(c, k) {
      var e :| e in c && e.key == k;
      assert LastPut(log, k) == Some(Stamped(e.attachment, e.expires - l.ttl));
      assert e !in pruned;
    } else {
      var p := LastPut(log, k);
      assert Missing(l, log, k, LastTime(log));
    }
  }

  /** While fewer other keys are stored than fit, the cache answers exactly as an unbounded one. */
  lemma UncrowdedCacheIsExact(l: Limits, log: seq<Event>, k: Key, now: Time)
    requires InOrder(log) && LastTime(log) <= now && |PutsSince(log, 0)| <= l.size
    ensures Lookup(Run(l, log), k, now) ==
      var stored := LastPut(log, k);
      if stored.Some? && now < stored.value.at + l.ttl then Some(stored.value.attachment) else None
  {
    LookupReadsTheLog(l, log, k, now);
    var stored := LastPut(log, k);
    if stored.Some? {
      var since := PutsSince(log, stored.value.at);
      LastPutWasPut(log, k, stored.value.at);
      assert |since - {k}| == |since| - 1;
      PutsSinceShrinks(log, 0, stored.value.at);
      SubsetIsSmaller(since, PutsSince(log, 0));
    }
  }

  lemma {:induction false} PutsSinceShrinks(log: seq<Event>, early: Time, late: Time)
    requires early <= late
    ensures PutsSince(log, late) <= PutsSince(log, early)
    decreases |log|
  {
    if log != [] { PutsSinceShrinks(log[..|log| - 1], early, late); }
  }

  // ---- exactly which entries give way --------------------------------------------------------------------

  /** Without invalidations, whatever was stored later than an entry of the cache is in the cache as well. */
  ghost predicate NewestFirst(l: Limits, c: seq<Entry>, log: seq<Event>)
  {
    forall e, k :: e in c && LastPut(log, k).Some? && LastPut(log, k).value.at + l.ttl > e.expires ==> HasKey(c, k)
  }

  ghost predicate NothingInvalidated(log: seq<Event>)
  {
    forall i :: 0 <= i < |log| ==> log[i].Stored? || log[i].LookedUp?
  }

  lemma PruneKeepsNewest(l: Limits, c: seq<Entry>, log: seq<Event>, k: Key, now: Time, at: Time)
    requires Reflects(l, c, log, now) && NewestFirst(l, c, log)
    ensures NewestFirst(l, Pruned(c, at), log + [LookedUp(k, at)])
  {
    var next, longer := Pruned(c, at), log + [LookedUp(k, at)];
    assert longer[..|longer| - 1] == log && longer[|longer| - 1] == LookedUp(k, at);
    PrunedMembers(c, at);
    forall e, j | e in next && LastPut(longer, j).Some? && LastPut(longer, j).value.at + l.ttl > e.expires
      ensures HasKey(next, j)
    {
      assert LastPut(longer, j) == LastPut(log, j) && e in c;
      assert HasKey(c, j);
      var f :| f in c && f.key == j;
      assert f.expires == LastPut(log, j).value.at + l.ttl;
      assert f in next;
    }
  }

  lemma AssignKeepsNewest(l: Limits, c: seq<Entry>, log: seq<Event>, k: Key, a: Attachment, now: Time, at: Time)
    requires Reflects(l, c, log, now) && NewestFirst(l, c, log) && now <= at && Storable(k, a)
    requires InOrder(log) && LastTime(log) <= at
    ensures NewestFirst(l, Assign(c, Entry(k, at + l.ttl, a)), log + [Stored(k, a, at)])
  {
    var entry := Entry(k, at + l.ttl, a);
    var next, longer := Assign(c, entry), log + [Stored(k, a, at)];
    assert longer[..|longer| - 1] == log && longer[|longer| - 1] == Stored(k, a, at);
    AssignMembers(c, entry);
    forall e, j | e in next && LastPut(longer, j).Some? && LastPut(longer, j).value.at + l.ttl > e.expires
      ensures HasKey(next, j)
    {
      if j == k {
        assert entry in next;
      } else {
        assert LastPut(longer, j) == LastPut(log, j);
        LastPutInOrder(log, j);
        assert e != entry && e in c;
        assert HasKey(c, j);
        var f :| f in c && f.key == j;
        assert f in next;
      }
    }
  }

  lemma {:induction false} LastPutInOrder(log: seq<Event>, k: Key)
    requires InOrder(log) && LastPut(log, k).Some?
    ensures LastPut(log, k).value.at <= LastTime(log)
    decreases |log|
  {
    var last := log[|log| - 1];
    if !(last.Stored? && last.key == k && Storable(k, last.attachment)) {
      LastPutInOrder(log[..|log| - 1], k);
      assert |log| > 1 ==> log[|log| - 2].at <= last.at;
    }
  }

  lemma KeysTellApart(c: seq<Entry>, e: Entry, f: Entry)
    requires DistinctKeys(c) && e in c && f in c && e != f
    ensures e.key != f.key
  {
  }

  lemma EvictKeepsNewest(l: Limits, c: seq<Entry>, log: seq<Event>)
    requires DistinctKeys(c) && |c| == l.size + 1 && Sound(l, c, log) && NewestFirst(l, c, log)
    ensures NewestFirst(l, Evicted(l, c), log)
  {
    var victim := EvictedMembers(l, c);
    var next := Evicted(l, c);
    forall e, k | e in next && LastPut(log, k).Some? && LastPut(log, k).value.at + l.ttl > e.expires
      ensures HasKey(next, k)
    {
      assert HasKey(c, k);
      var f :| f in c && f.key == k;
      assert f.expires == LastPut(log, k).value.at + l.ttl;
      assert f != victim;
      assert f.key != victim.key by { KeysTellApart(c, f, victim); }
      assert f in next;
    }
  }

  lemma PutKeepsNewest(l: Limits, c: seq<Entry>, log: seq<Event>, k: Key, a: Attachment, now: Time, at: Time)
    requires Reflects(l, c, log, now) && NewestFirst(l, c, log) && now <= at && Storable(k, a)
    requires InOrder(log) && LastTime(log) <= at
    ensures NewestFirst(l, Put(l, c, k, a, at), log + [Stored(k, a, at)])
  {
    var next := Assign(c, Entry(k, at + l.ttl, a));
    AssignKeepsNewest(l, c, log, k, a, now, at);
    AssignReflects(l, c, log, k, a, now, at);
    assert Put(l, c, k, a, at) == Evicted(l, next);
    if |next| > l.size { EvictKeepsNewest(l, next, log + [Stored(k, a, at)]); }
  }

  lemma IdlePutKeepsNewest(l: Limits, c: seq<Entry>, log: seq<Event>, ev: Event)
    requires NewestFirst(l, c, log) && ev.Stored? && !Storable(ev.key, ev.attachment)
    ensures NewestFirst(l, c, log + [ev])
  {
    var longer := log + [ev];
    assert longer[..|longer| - 1] == log && longer[|longer| - 1] == ev;
    assert forall x :: LastPut(longer, x) == LastPut(log, x);
  }

  lemma PastInOrder(log: seq<Event>)
    requires log != [] && InOrder(log)
    ensures InOrder(log[..|log| - 1]) && LastTime(log[..|log| - 1]) <= log[|log| - 1].at
  {
    var past := log[..|log| - 1];
    assert forall i :: 0 <= i < |past| ==> past[i] == log[i];
  }

  lemma {:induction false} RunKeepsNewest(l: Limits, log: seq<Event>)
    requires InOrder(log) && NothingInvalidated(log)
    ensures NewestFirst(l, Run(l, log), log)
    decreases |log|
  {
    if log != [] {
      var past, last := log[..|log| - 1], log[|log| - 1];
      PastInOrder(log);
      RunKeepsNewest(l, past);
      RunReflects(l, past);
      assert past + [last] == log;
      match last
      case Stored(k, a, at) =>
        if Storable(k, a) {
          PutKeepsNewest(l, Run(l, past), past, k, a, LastTime(past), at);
        } else {
          IdlePutKeepsNewest(l, Run(l, past), past, last);
        }
      case LookedUp(k, at) => PruneKeepsNewest(l, Run(l, past), past, k, LastTime(past), at);
    }
  }

  predicate IsPut(ev: Event, k: Key) { ev.Stored? && ev.key == k && Storable(k, ev.attachment) }

  lemma {:induction false} PutsSinceMeans(log: seq<Event>, from: Time, k: Key)
    ensures k in PutsSince(log, from) <==> exists i :: 0 <= i < |log| && IsPut(log[i], k) && log[i].at >= from
    decreases |log|
  {
    if log != [] {
      var past, n := log[..|log| - 1], |log| - 1;
      PutsSinceMeans(past, from, k);
      assert forall i :: 0 <= i < n ==> past[i] == log[i];
    }
  }

  /** Without invalidations the last put of a key is the latest one of all its puts. */
  lemma {:induction false} LastPutIsLatest(log: seq<Event>, k: Key, i: nat)
    requires InOrder(log) && NothingInvalidated(log) && i < |log| && IsPut(log[i], k)
    ensures LastPut(log, k).Some? && log[i].at <= LastPut(log, k).value.at
    decreases |log|
  {
    var past, n := log[..|log| - 1], |log| - 1;
    PastInOrder(log);
    if i < n && !IsPut(log[n], k) { LastPutIsLatest(past, k, i); }
  }

  lemma {:induction false} LastPutHappened(log: seq<Event>, k: Key) returns (i: nat)
    requires LastPut(log, k).Some?
    ensures i < |log| && IsPut(log[i], k) && log[i].at == LastPut(log, k).value.at
    decreases |log|
  {
    var n := |log| - 1;
    if IsPut(log[n], k) { i := n; } else { i := LastPutHappened(log[..n], k); }
  }

  /** Of what was stored later than an entry that is still there, there are fewer keys than fit. */
  lemma KeptMeansUncrowded(l: Limits, log: seq<Event>, e: Entry)
    requires InOrder(log) && NothingInvalidated(log) && e in Run(l, log) && e.expires >= l.ttl
    ensures |PutsSince(log, e.expires - l.ttl + 1)| < l.size
  {
    var c, from := Run(l, log), e.expires - l.ttl + 1;
    RunReflects(l, log);
    RunKeepsNewest(l, log);
    forall k | k in PutsSince(log, from) ensures k in KeySet(c) - {e.key} {
      PutsSinceMeans(log, from, k);
      var i :| 0 <= i < |log| && IsPut(log[i], k) && log[i].at >= from;
      LastPutIsLatest(log, k, i);
      assert HasKey(c, k);
    }
    DistinctKeysCount(c);
    assert e.key in KeySet(c);
    SubsetIsSmaller(PutsSince(log, from), KeySet(c) - {e.key});
  }

  ghost predicate PutsApart(log: seq<Event>)
  {
    forall i, j :: 0 <= i < j < |log| && log[i].Stored? && log[j].Stored? ==> log[i].at < log[j].at
  }

  /** When no two stores happen at the same time, only the entry itself was stored at its time. */
  lemma OnlyOneAtATime(log: seq<Event>, k: Key)
    requires InOrder(log) && NothingInvalidated(log) && PutsApart(log) && LastPut(log, k).Some?
    ensures PutsSince(log, LastPut(log, k).value.at) - {k} == PutsSince(log, LastPut(log, k).value.at + 1)
  {
    var at := LastPut(log, k).value.at;
    var n := LastPutHappened(log, k);
    forall x ensures x in PutsSince(log, at) - {k} <==> x in PutsSince(log, at + 1) {
      PutsSinceMeans(log, at, x);
      PutsSinceMeans(log, at + 1, x);
      if x in PutsSince(log, at) && x != k {
        var i :| 0 <= i < |log| && IsPut(log[i], x) && log[i].at >= at;
        assert i != n && log[i].at != at;
      }
      if x in PutsSince(log, at + 1) {
        var i :| 0 <= i < |log| && IsPut(log[i], x) && log[i].at >= at + 1;
        if x == k { LastPutIsLatest(log, k, i); }
      }
    }
  }

  /**
   * When nothing is invalidated and no two stores happen at the same time, an entry within its time to live is
   * missing exactly when at least as many other keys as fit were stored since.
   */
  lemma CrowdedOutExactly(l: Limits, log: seq<Event>, k: Key, now: Time)
    requires InOrder(log) && NothingInvalidated(log) && PutsApart(log) && LastTime(log) <= now
    requires LastPut(log, k).Some? && now < LastPut(log, k).value.at + l.ttl
    ensures Lookup(Run(l, log), k, now) == None <==> Crowded(l, log, k, LastPut(log, k).value.at)
  {
    LookupReadsTheLog(l, log, k, now);
    if Lookup(Run(l, log), k, now).Some? { FoundIsUncrowded(l, log, k, now); }
  }

  lemma FoundIsUncrowded(l: Limits, log: seq<Event>, k: Key, now: Time)
    requires InOrder(log) && NothingInvalidated(log) && PutsApart(log)
    requires LastPut(log, k).Some? && Lookup(Run(l, log), k, now).Some?
    ensures !Crowded(l, log, k, LastPut(log, k).value.at)
  {
    FoundIsKept(l, log, k, now);
    var at := LastPut(log, k).value.at;
    var e :| e in Run(l, log) && e.key == k && e.expires == at + l.ttl;
    KeptMeansUncrowded(l, log, e);
    OnlyOneAtATime(log, k);
  }

  lemma FoundIsKept(l: Limits, log: seq<Event>, k: Key, now: Time)
    requires InOrder(log) && Lookup(Run(l, log), k, now).Some? && LastPut(log, k).Some?
    ensures exists e :: e in Run(l, log) && e.key == k && e.expires == LastPut(log, k).value.at + l.ttl
  {
    RunReflects(l, log);
    var c := Run(l, log);
    PrunedMembers(c, now);
    GetFinds(Pruned(c, now), k);
    var e :| e in Pruned(c, now) && e.key == k;
    assert e in c;
  }

  // ---- stores and invalidations -------------------------------------------------------------------------------

  /** After any log and one more store, the size is legal and the entry just stored is found until it expires. */
  lemma StoredEntryIsFound(l: Limits, log: seq<Event>, k: Key, a: Attachment, at: Time, now: Time)
    requires InOrder(log + [Stored(k, a, at)]) && at <= now
    ensures var c := Run(l, log + [Stored(k, a, at)]);
      && |c| <= l.size
      && (Storable(k, a) && now < at + l.ttl ==> Lookup(c, k, now) == Some(a))
  {
    var longer := log + [Stored(k, a, at)];
    assert longer[..|longer| - 1] == log && longer[|longer| - 1] == Stored(k, a, at);
    assert InOrder(log) by { assert forall i :: 0 <= i < |log| ==> longer[i] == log[i]; }
    RunReflects(l, longer);
    if Storable(k, a) {
      RunReflects(l, log);
      assert LastTime(log) <= at by {
        assert log != [] ==> longer[|log| - 1] == log[|log| - 1] && longer[|log|].at == at;
      }
      PutReflects(l, Run(l, log), log, k, a, LastTime(log), at);
      PrunedMembers(Run(l, longer), now);
      GetFinds(Pruned(Run(l, longer), now), k);
    }
  }

  /** An invalidated key is not found until it is stored again. */
  lemma InvalidatedKeyIsGone(l: Limits, log: seq<Event>, ks: seq<Key>, at: Time, k: Key, now: Time)
    requires InOrder(log + [Invalidated(ks, at)]) && at <= now && k in ks
    ensures Lookup(Run(l, log + [Invalidated(ks, at)]), k, now) == None
  {
    var longer := log + [Invalidated(ks, at)];
    assert longer[|longer| - 1] == Invalidated(ks, at);
    LookupReadsTheLog(l, longer, k, now);
  }

  // ---- the module state ------------------------------------------------------------------------------------

  lemma {:induction false} DropAt(c: seq<Entry>, k: Key, i: nat)
    requires i <= |c| && (forall j :: 0 <= j < i ==> c[j].key != k) && (i < |c| ==> c[i].key == k)
    ensures Drop(c, k) == if i < |c| then c[..i] + c[i + 1..] else c
  {
    if i > 0 {
      var rest := c[1..];
      DropAt(rest, k, i - 1);
      assert Drop(c, k) == [c[0]] + Drop(rest, k);
      if i < |c| {
        assert rest[..i - 1] == c[1..i] && rest[i..] == c[i + 1..];
        assert c[..i] == [c[0]] + c[1..i];
      } else {
        assert c == [c[0]] + rest;
      }
    }
  }

  class AttachmentCache {
    const limits: Limits
    var entries: seq<Entry>

    constructor (l: Limits)
      ensures limits == l && entries == []
    {
      limits, entries := l, [];
    }

    /** Pops each key that is there. */
    method PopAll(keys: seq<Key>)
      modifies this
      ensures entries == Without(old(entries), keys)
    {
      var i := 0;
      while i < |keys|
        invariant 0 <= i <= |keys|
        invariant entries == Without(old(entries), keys[..i])
      {
        Pop(keys[i]);
        assert keys[..i + 1][..i] == keys[..i];
        i := i + 1;
      }
      assert keys[..i] == keys;
    }

    method Pop(key: Key)
      modifies this
      ensures entries == Drop(old(entries), key)
    {
      var i := 0;
      while i < |entries| && entries[i].key != key
        invariant 0 <= i <= |entries|
        invariant entries == old(entries)
        invariant forall k :: 0 <= k < i ==> entries[k].key != key
      {
        i := i + 1;
      }
      DropAt(entries, key, i);
      if i < |entries| { entries := entries[..i] + entries[i + 1..]; }
    }

    method Cached(key: Key, now: Time) returns (attachment: Option<Attachment>)
      modifies this
      ensures entries == Pruned(old(entries), now)
      ensures attachment == Lookup(old(entries), key, now)
    {
      PopAll(KeysOf(Filter(Expired(now), entries)));
      attachment := Get(entries, key);
    }

    method Cache(key: Key, attachment: Attachment, now: Time)
      modifies this
      ensures entries == Put(limits, old(entries), key, attachment, now)
    {
      if key == "" || attachment.uri == "" { return; }
      entries := Assign(entries, Entry(key, now + limits.ttl, attachment));
      if |entries| > limits.size {
        var oldest := Sort(ByExpiry(), entries);
        PopAll(KeysOf(oldest[..|entries| - limits.size]));
      }
    }

    method Invalidate(keys: seq<Key>)
      modifies this
      ensures entries == Without(old(entries), keys)
    {
      PopAll(keys);
    }

    method Clear()
      modifies this
      ensures entries == []
    {
      entries := [];
    }
  }
}
