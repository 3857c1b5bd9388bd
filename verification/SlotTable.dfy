/** Tables of slot identities, as the three pools keep them. */
module SlotTable {
  import opened Util

  type SlotId = nat

  function Remove(table: seq<SlotId>, s: SlotId): seq<SlotId>
  {
    if table == [] then [] else if table[0] == s then table[1..] else [table[0]] + Remove(table[1..], s)
  }

  lemma {:induction false} RemoveAt(table: seq<SlotId>, s: SlotId, i: nat)
    requires i <= |table| && (forall k :: 0 <= k < i ==> table[k] != s) && (i < |table| ==> table[i] == s)
    ensures Remove(table, s) == if i < |table| then table[..i] + table[i + 1..] else table
  {
    if i > 0 {
      RemoveAt(table[1..], s, i - 1);
      assert i < |table| ==> table[1..][..i - 1] == table[1..i] && table[1..][i..] == table[i + 1..];
      assert table == [table[0]] + table[1..];
    }
  }

  /** The first slot of the table that satisfies `p`. */
  function First(p: SlotId -> bool, table: seq<SlotId>): (r: Option<SlotId>)
    ensures r.Some? ==> r.value in table && p(r.value)
    ensures r.None? ==> forall s :: s in table ==> !p(s)
  {
    if table == [] then None else if p(table[0]) then Some(table[0]) else First(p, table[1..])
  }

  /** Slot `s` satisfies `p`, and no earlier slot of the table does. */
  ghost predicate FirstOf(p: SlotId -> bool, table: seq<SlotId>, s: SlotId)
  {
    exists i :: 0 <= i < |table| && table[i] == s && p(s) && forall k :: 0 <= k < i ==> !p(table[k])
  }

  lemma {:induction false} FirstIsFirst(p: SlotId -> bool, table: seq<SlotId>)
    ensures forall s: SlotId :: First(p, table) == Some(s) <==> FirstOf(p, table, s)
  {
    if table != [] {
      FirstIsFirst(p, table[1..]);
      forall s: SlotId ensures First(p, table) == Some(s) <==> FirstOf(p, table, s) {
        if p(table[0]) {
          assert s == table[0] ==> FirstOf(p, table, s);
        } else {
          LaterFirst(p, table, s);
        }
      }
    }
  }

  lemma LaterFirst(p: SlotId -> bool, table: seq<SlotId>, s: SlotId)
    requires table != [] && !p(table[0])
    ensures FirstOf(p, table, s) <==> FirstOf(p, table[1..], s)
  {
    if i :| 0 <= i < |table[1..]| && table[1..][i] == s && p(s) && forall k :: 0 <= k < i ==> !p(table[1..][k]) {
      assert table[i + 1] == s;
      forall k | 0 <= k < i + 1 ensures !p(table[k]) {
        if k > 0 { assert table[k] == table[1..][k - 1]; }
      }
      assert FirstOf(p, table, s);
    }
    if i :| 0 <= i < |table| && table[i] == s && p(s) && forall k :: 0 <= k < i ==> !p(table[k]) {
      assert table[1..][i - 1] == s;
      assert FirstOf(p, table[1..], s);
    }
  }

  /** Dropping a slot that the search would pass over does not change what it finds. */
  lemma {:induction false} FirstSkips(p: SlotId -> bool, table: seq<SlotId>, s: SlotId)
    requires !p(s)
    ensures First(p, Remove(table, s)) == First(p, table)
  {
    if table != [] { FirstSkips(p, table[1..], s); }
  }

  lemma {:induction false} RemoveMembers(table: seq<SlotId>, s: SlotId)
    requires Distinct(table) && s in table
    ensures Distinct(Remove(table, s)) && |Remove(table, s)| == |table| - 1
    ensures forall t :: t in Remove(table, s) <==> t in table && t != s
  {
    if table[0] != s {
      RemoveMembers(table[1..], s);
      assert table[0] !in table[1..];
      assert table[0] !in Remove(table[1..], s);
    } else {
      assert s !in table[1..];
    }
  }

  lemma {:induction false} ShorterWithout(table: seq<SlotId>, s: SlotId)
    requires s in table
    ensures |Remove(table, s)| == |table| - 1
  {
    if table[0] != s { ShorterWithout(table[1..], s); }
  }

  /** The sum of the loads of all slots of a table. */
  function Total(load: SlotId -> int, table: seq<SlotId>): int
  {
    if table == [] then 0 else load(table[0]) + Total(load, table[1..])
  }

  lemma {:induction false} TotalIsBounded(load: SlotId -> int, table: seq<SlotId>, limit: nat, n: nat)
    requires forall s :: s in table ==> 0 <= load(s) <= limit
    requires |table| <= n
    ensures 0 <= Total(load, table) <= n * limit
  {
    if table != [] {
      TotalIsBounded(load, table[1..], limit, n - 1);
      assert n * limit == (n - 1) * limit + limit;
    } else {
      assert n * limit >= 0;
    }
  }

  /** When every load is the number of holders, and every held slot is listed, the sum counts the holders. */
  lemma {:induction false} TotalCountsHolders(load: SlotId -> int, table: seq<SlotId>, held: multiset<SlotId>)
    requires Distinct(table) && forall s :: s in table ==> load(s) == held[s]
    requires forall s :: s in held ==> s in table
    ensures Total(load, table) == |held|
  {
    if table == [] {
      assert held == multiset{};
    } else {
      var s := table[0];
      var others := held[s := 0];
      assert s !in table[1..];
      TotalCountsHolders(load, table[1..], others);
      assert held == others[s := held[s]];
    }
  }
}
