/**
 * The round-robin owner scheduler: the shared rotating list with its set of known owners, and the
 * local cursor used without Redis. An owner is the numeric value of its fixed-width hash, so the
 * order of the numbers is the order of the strings; 0 stands for the empty owner.
 */
module OwnerScheduler {
  import opened Util

  type Owner = nat

  const NOBODY: Owner := 0

  ghost predicate Least(m: Owner, s: set<Owner>) { m in s && forall x :: x in s ==> m <= x }

  lemma {:induction false} LeastExists(s: set<Owner>) returns (m: Owner)
    requires s != {}
    ensures Least(m, s)
  {
    var y :| y in s;
    m := y;
    if s - {y} != {} {
      var other := LeastExists(s - {y});
      if other < y { m := other; }
    }
    forall x | x in s ensures m <= x {
      if x != y { assert x in s - {y}; }
    }
  }

  /** `sorted(s)` for a set. */
  function Ascending(s: set<Owner>): (r: seq<Owner>)
    ensures |r| == |s| && Distinct(r)
    ensures forall x :: x in r <==> x in s
  {
    if s == {} then []
    else
      assert exists m :: Least(m, s) by { var m := LeastExists(s); }
      var m :| m in s && forall x :: x in s ==> m <= x;
      [m] + Ascending(s - {m})
  }

  /** The owners a call can serve: the empty owner is never one of them. */
  function Normalized(eligible: set<Owner>): set<Owner> { eligible - {NOBODY} }

  datatype Ring = Ring(list: seq<Owner>, known: set<Owner>)

  /** The known set holds exactly the members of the list, each listed once; nobody is not an owner. */
  ghost predicate RingInv(r: Ring)
  {
    Distinct(r.list) && (forall x :: x in r.known <==> x in r.list) && NOBODY !in r.known
  }

  function Register(r: Ring, owner: Owner): Ring
  {
    if owner == NOBODY || owner in r.known then r else Ring(r.list + [owner], r.known + {owner})
  }

  function RegisterAll(r: Ring, owners: seq<Owner>): Ring
    decreases |owners|
  {
    if owners == [] then r else RegisterAll(Register(r, owners[0]), owners[1..])
  }

  /** Moves the head of the list to its tail. */
  function Rotate(list: seq<Owner>): seq<Owner> { if list == [] then [] else list[1..] + [list[0]] }

  /** Position of the first eligible owner; the length of the list when there is none. */
  function FirstEligible(list: seq<Owner>, eligible: set<Owner>): (k: nat)
    ensures k <= |list|
    ensures k < |list| ==> list[k] in eligible
    ensures forall i :: 0 <= i < k ==> list[i] !in eligible
  {
    if list == [] || list[0] in eligible then 0 else 1 + FirstEligible(list[1..], eligible)
  }

  /** The ring after its first `k + 1` owners went to the tail; a full search leaves the order as it was. */
  function Turned(r: Ring, k: nat): Ring
    requires k <= |r.list|
  {
    if k == |r.list| then r else r.(list := r.list[k + 1..] + r.list[..k + 1])
  }

  /** What a call serves: the first eligible owner of the list, which goes to the tail with all it passed. */
  function Serve(r: Ring, eligible: set<Owner>): (out: (Owner, Ring))
  {
    if Normalized(eligible) == {} then (NOBODY, r)
    else
      var full := RegisterAll(r, Ascending(Normalized(eligible)));
      var k := FirstEligible(full.list, Normalized(eligible));
      (if k == |full.list| then Ascending(Normalized(eligible))[0] else full.list[k], Turned(full, k))
  }

  lemma RegisterKeepsInv(r: Ring, owner: Owner)
    requires RingInv(r)
    ensures RingInv(Register(r, owner))
    ensures r.list <= Register(r, owner).list
    ensures owner != NOBODY ==> owner in Register(r, owner).known
  {
  }

  lemma {:induction false} RegisterAllKeepsInv(r: Ring, owners: seq<Owner>)
    requires RingInv(r)
    ensures RingInv(RegisterAll(r, owners))
    ensures r.list <= RegisterAll(r, owners).list
    ensures forall x :: x in RegisterAll(r, owners).known <==> x in r.known || (x in owners && x != NOBODY)
    decreases |owners|
  {
    if owners != [] {
      RegisterKeepsInv(r, owners[0]);
      RegisterAllKeepsInv(Register(r, owners[0]), owners[1..]);
    }
  }

  lemma {:induction false} RegisterAllOfKnown(r: Ring, owners: seq<Owner>)
    requires forall x :: x in owners ==> x in r.known
    ensures RegisterAll(r, owners) == r
    decreases |owners|
  {
    if owners != [] {
      RegisterAllOfKnown(r, owners[1..]);
    }
  }

  /** Every eligible owner is on the list before the search starts, so the search never runs dry. */
  lemma FallbackIsUnreachable(r: Ring, eligible: set<Owner>)
    requires RingInv(r) && Normalized(eligible) != {}
    ensures var full := RegisterAll(r, Ascending(Normalized(eligible)));
      FirstEligible(full.list, Normalized(eligible)) < |full.list|
    ensures Serve(r, eligible).0 in eligible && Serve(r, eligible).0 != NOBODY
  {
    var order := Ascending(Normalized(eligible));
    RegisterAllKeepsInv(r, order);
    var full := RegisterAll(r, order);
    assert order[0] in full.known;
    var i :| 0 <= i < |full.list| && full.list[i] == order[0];
  }

  lemma RotationKeepsInv(r: Ring, k: nat)
    requires RingInv(r) && k <= |r.list|
    ensures RingInv(r.(list := r.list[k..] + r.list[..k]))
  {
    var turned := r.list[k..] + r.list[..k];
    forall x ensures x in turned <==> x in r.list {
      assert r.list == r.list[..k] + r.list[k..];
    }
  }

  lemma TurnKeepsInv(full: Ring, e: set<Owner>)
    requires RingInv(full)
    ensures RingInv(Turned(full, FirstEligible(full.list, e)))
  {
    var k := FirstEligible(full.list, e);
    if k < |full.list| { RotationKeepsInv(full, k + 1); }
  }

  lemma ServeKeepsInv(r: Ring, eligible: set<Owner>)
    requires RingInv(r)
    ensures RingInv(Serve(r, eligible).1)
  {
    var e := Normalized(eligible);
    if e != {} {
      RegisterAllKeepsInv(r, Ascending(e));
      TurnKeepsInv(RegisterAll(r, Ascending(e)), e);
    }
  }

  /** After the registrations a call only turns the list. */
  lemma ServeIsTurn(r: Ring, full: Ring, eligible: set<Owner>)
    requires Normalized(eligible) != {} && full == RegisterAll(r, Ascending(Normalized(eligible)))
    requires FirstEligible(full.list, Normalized(eligible)) < |full.list|
    ensures var k := FirstEligible(full.list, Normalized(eligible));
      Serve(r, eligible) == (full.list[k], full.(list := full.list[k + 1..] + full.list[..k + 1]))
  {
  }

  lemma SomebodyIsEligible(r: Ring, e: set<Owner>)
    requires RingInv(r) && e != {} && e <= r.known
    ensures FirstEligible(r.list, e) < |r.list|
  {
    var x :| x in e;
    assert x in r.list;
  }

  // ---- fairness for a fixed eligible set --------------------------------------------------------

  function Eligible(list: seq<Owner>, eligible: set<Owner>): seq<Owner>
  {
    if list == [] then []
    else if list[0] in eligible then [list[0]] + Eligible(list[1..], eligible)
    else Eligible(list[1..], eligible)
  }

  lemma {:induction false} EligibleOfSum(a: seq<Owner>, b: seq<Owner>, eligible: set<Owner>)
    ensures Eligible(a + b, eligible) == Eligible(a, eligible) + Eligible(b, eligible)
  {
    if a == [] {
      assert a + b == b;
    } else {
      assert (a + b)[1..] == a[1..] + b;
      EligibleOfSum(a[1..], b, eligible);
    }
  }

  lemma {:induction false} EligibleOfNone(list: seq<Owner>, eligible: set<Owner>)
    requires forall i :: 0 <= i < |list| ==> list[i] !in eligible
    ensures Eligible(list, eligible) == []
  {
    if list != [] { EligibleOfNone(list[1..], eligible); }
  }

  lemma {:induction false} EligibleMembers(list: seq<Owner>, eligible: set<Owner>, x: Owner)
    ensures x in Eligible(list, eligible) <==> x in list && x in eligible
  {
    if list != [] { EligibleMembers(list[1..], eligible, x); }
  }

  lemma {:induction false} EligibleIsDistinct(list: seq<Owner>, eligible: set<Owner>)
    requires Distinct(list)
    ensures Distinct(Eligible(list, eligible))
  {
    if list != [] {
      EligibleIsDistinct(list[1..], eligible);
      EligibleMembers(list[1..], eligible, list[0]);
    }
  }

  lemma CutAround(list: seq<Owner>, k: nat)
    requires k < |list|
    ensures list == list[..k] + ([list[k]] + list[k + 1..]) && list[..k + 1] == list[..k] + [list[k]]
  {
  }

  lemma TurnPastFirst(list: seq<Owner>, e: set<Owner>)
    requires FirstEligible(list, e) < |list|
    ensures var k := FirstEligible(list, e); var order := Eligible(list, e);
      order != [] && order[0] == list[k] && Eligible(list[k + 1..] + list[..k + 1], e) == Rotate(order)
  {
    var k := FirstEligible(list, e);
    var before := list[..k];
    CutAround(list, k);
    assert forall i :: 0 <= i < |before| ==> before[i] !in e;
    EligibleAroundFirst(before, list[k], list[k + 1..], e);
  }

  lemma EligibleAroundFirst(before: seq<Owner>, x: Owner, after: seq<Owner>, e: set<Owner>)
    requires x in e && forall i :: 0 <= i < |before| ==> before[i] !in e
    ensures Eligible(before + ([x] + after), e) == [x] + Eligible(after, e)
    ensures Eligible(after + (before + [x]), e) == Eligible(after, e) + [x]
  {
    EligibleOfNone(before, e);
    EligibleOfSum(before, [x] + after, e);
    EligibleOfSum(after, before + [x], e);
    EligibleOfSum(before, [x], e);
    assert ([x] + after)[1..] == after;
    assert [x][1..] == [];
    assert [] + [x] == [x];
  }

  lemma ServeOfKnown(r: Ring, eligible: set<Owner>)
    requires Normalized(eligible) != {} && Normalized(eligible) <= r.known
    requires FirstEligible(r.list, Normalized(eligible)) < |r.list|
    ensures var k := FirstEligible(r.list, Normalized(eligible));
      Serve(r, eligible) == (r.list[k], r.(list := r.list[k + 1..] + r.list[..k + 1]))
  {
    RegisterAllOfKnown(r, Ascending(Normalized(eligible)));
    ServeIsTurn(r, r, eligible);
  }

  lemma TurnRotatesEligible(r: Ring, eligible: set<Owner>)
    requires Normalized(eligible) != {} && Normalized(eligible) <= r.known
    requires FirstEligible(r.list, Normalized(eligible)) < |r.list|
    ensures var order := Eligible(r.list, Normalized(eligible));
      && order != [] && Serve(r, eligible).0 == order[0]
      && Eligible(Serve(r, eligible).1.list, Normalized(eligible)) == Rotate(order)
      && Serve(r, eligible).1.known == r.known
  {
    var e := Normalized(eligible);
    var k := FirstEligible(r.list, e);
    ServeOfKnown(r, eligible);
    TurnPastFirst(r.list, e);
    assert Serve(r, eligible).0 == r.list[k] && Serve(r, eligible).1.list == r.list[k + 1..] + r.list[..k + 1];
  }

  /** One call serves the head of the eligible owners and rotates exactly them by one. */
  lemma ServeRotatesEligible(r: Ring, eligible: set<Owner>)
    requires RingInv(r) && Normalized(eligible) != {} && Normalized(eligible) <= r.known
    ensures var order := Eligible(r.list, Normalized(eligible));
      && order != [] && Serve(r, eligible).0 == order[0]
      && Eligible(Serve(r, eligible).1.list, Normalized(eligible)) == Rotate(order)
      && Serve(r, eligible).1.known == r.known
  {
    SomebodyIsEligible(r, Normalized(eligible));
    TurnRotatesEligible(r, eligible);
  }

  /** The owners served by `n` calls with the same eligible set. */
  function Served(r: Ring, eligible: set<Owner>, n: nat): seq<Owner>
    decreases n
  {
    if n == 0 then [] else [Serve(r, eligible).0] + Served(Serve(r, eligible).1, eligible, n - 1)
  }

  lemma PrefixOfRotation(order: seq<Owner>, n: nat)
    requires 0 < n <= |order|
    ensures [order[0]] + Rotate(order)[..n - 1] == order[..n]
  {
  }

  lemma {:induction false} ServedFollowsOrder(r: Ring, eligible: set<Owner>, n: nat)
    requires RingInv(r) && Normalized(eligible) != {} && Normalized(eligible) <= r.known
    requires n <= |Eligible(r.list, Normalized(eligible))|
    ensures Served(r, eligible, n) == Eligible(r.list, Normalized(eligible))[..n]
    decreases n
  {
    if n > 0 {
      var order := Eligible(r.list, Normalized(eligible));
      ServeRotatesEligible(r, eligible);
      ServeKeepsInv(r, eligible);
      ServedFollowsOrder(Serve(r, eligible).1, eligible, n - 1);
      PrefixOfRotation(order, n);
    }
  }

  lemma {:induction false} DistinctHasSetSize(s: seq<Owner>, e: set<Owner>)
    requires Distinct(s) && forall x :: x in s <==> x in e
    ensures |s| == |e|
  {
    if s == [] {
      assert e == {};
    } else {
      assert s == [s[0]] + s[1..];
      assert s[0] !in s[1..];
      forall x ensures x in s[1..] <==> x in e - {s[0]} { }
      DistinctHasSetSize(s[1..], e - {s[0]});
    }
  }

  lemma EligibleCount(list: seq<Owner>, e: set<Owner>)
    requires Distinct(list) && forall x :: x in e ==> x in list
    ensures var order := Eligible(list, e);
      Distinct(order) && |order| == |e| && forall x :: x in order <==> x in e
  {
    var order := Eligible(list, e);
    forall x ensures x in order <==> x in e { EligibleMembers(list, e, x); }
    EligibleIsDistinct(list, e);
    DistinctHasSetSize(order, e);
  }

  /** Registering the eligible owners beforehand makes no difference to any number of calls. */
  lemma ServedAfterRegistration(r: Ring, eligible: set<Owner>, n: nat)
    requires RingInv(r)
    ensures var full := RegisterAll(r, Ascending(Normalized(eligible)));
      && RingInv(full) && Normalized(eligible) <= full.known
      && Served(r, eligible, n) == Served(full, eligible, n)
  {
    var order := Ascending(Normalized(eligible));
    RegisterAllKeepsInv(r, order);
    RegisterAllOfKnown(RegisterAll(r, order), order);
  }

  /** For a fixed eligible set of n owners, n consecutive calls serve each of them exactly once. */
  lemma RoundServesEachOnce(r: Ring, eligible: set<Owner>)
    requires RingInv(r)
    ensures var n := |Normalized(eligible)|;
      && Distinct(Served(r, eligible, n))
      && forall x :: x in Served(r, eligible, n) <==> x in Normalized(eligible)
  {
    var e := Normalized(eligible);
    if e != {} {
      var full := RegisterAll(r, Ascending(e));
      ServedAfterRegistration(r, eligible, |e|);
      EligibleCount(full.list, e);
      ServedFollowsOrder(full, eligible, |e|);
      assert Eligible(full.list, e)[..|e|] == Eligible(full.list, e);
    }
  }

  // ---- bounded bypass when the eligible set keeps changing ------------------------------------------

  datatype Op = Join(owner: Owner) | Next(eligible: set<Owner>)

  function Apply(r: Ring, op: Op): Ring
  {
    match op
    case Join(owner) => Register(r, owner)
    case Next(eligible) => Serve(r, eligible).1
  }

  /** How many of the operations are calls. */
  function CallsMade(ops: seq<Op>): nat
  {
    if ops == [] then 0 else (if ops[0].Next? then 1 else 0) + CallsMade(ops[1..])
  }

  ghost predicate AlwaysWaiting(r: Ring, ops: seq<Op>, owner: Owner)
    decreases |ops|
  {
    ops != [] ==>
      && (ops[0].Next? ==> owner in ops[0].eligible && Serve(r, ops[0].eligible).0 != owner)
      && AlwaysWaiting(Apply(r, ops[0]), ops[1..], owner)
  }

  ghost predicate StandsWithin(list: seq<Owner>, owner: Owner, bound: int)
  {
    exists at :: 0 <= at < |list| && list[at] == owner && at <= bound
  }

  lemma TurnBringsCloser(list: seq<Owner>, e: set<Owner>, at: nat)
    requires at < |list| && list[at] in e && list[FirstEligible(list, e)] != list[at]
    ensures var k := FirstEligible(list, e); StandsWithin(list[k + 1..] + list[..k + 1], list[at], at - 1)
  {
    var k := FirstEligible(list, e);
    assert k < at;
    assert (list[k + 1..] + list[..k + 1])[at - k - 1] == list[at];
  }

  lemma ListedIsSomebody(r: Ring, at: nat)
    requires RingInv(r) && at < |r.list|
    ensures r.list[at] != NOBODY
  {
  }

  lemma {:induction false} RegistrationsAppend(r: Ring, owners: seq<Owner>)
    ensures r.list <= RegisterAll(r, owners).list
    decreases |owners|
  {
    if owners != [] { RegistrationsAppend(Register(r, owners[0]), owners[1..]); }
  }

  /** A call that passes over an eligible owner brings it strictly closer to the head. */
  lemma PassingBringsCloser(r: Ring, eligible: set<Owner>, owner: Owner, at: nat)
    requires at < |r.list| && r.list[at] == owner
    requires owner in Normalized(eligible) && Serve(r, eligible).0 != owner
    ensures StandsWithin(Serve(r, eligible).1.list, owner, at - 1)
  {
    var e := Normalized(eligible);
    var full := RegisterAll(r, Ascending(e));
    RegistrationsAppend(r, Ascending(e));
    assert full.list[at] == owner;
    ServeIsTurn(r, full, eligible);
    TurnBringsCloser(full.list, e, at);
  }

  /** An owner at position `at` is bypassed at most `at` times, whoever joins or becomes eligible. */
  lemma {:induction false} BypassIsBounded(r: Ring, ops: seq<Op>, owner: Owner, at: nat)
    requires RingInv(r) && at < |r.list| && r.list[at] == owner
    requires AlwaysWaiting(r, ops, owner)
    ensures CallsMade(ops) <= at
    decreases |ops|
  {
    if ops != [] {
      var after := Apply(r, ops[0]);
      var next := at;
      match ops[0] {
        case Join(x) => RegisterKeepsInv(r, x);
        case Next(eligible) =>
          ServeKeepsInv(r, eligible);
          ListedIsSomebody(r, at);
          PassingBringsCloser(r, eligible, owner, at);
          next :| 0 <= next < |after.list| && after.list[next] == owner && next <= at - 1;
      }
      BypassIsBounded(after, ops[1..], owner, next);
    }
  }

  // ---- the local cursor ---------------------------------------------------------------------------

  /** One turn of the cursor over the sorted eligible owners. */
  function Turn(cursor: nat, order: seq<Owner>): (out: (Owner, nat))
  {
    if order == [] then (NOBODY, cursor) else (order[cursor % |order|], (cursor + 1) % |order|)
  }

  function Cursor(cursor: nat, eligible: set<Owner>): (Owner, nat) { Turn(cursor, Ascending(Normalized(eligible))) }

  function Turns(cursor: nat, order: seq<Owner>, n: nat): (r: seq<Owner>)
    ensures |r| == n
    decreases n
  {
    if n == 0 then [] else [Turn(cursor, order).0] + Turns(Turn(cursor, order).1, order, n - 1)
  }

  lemma {:induction false} TurnsAt(cursor: nat, order: seq<Owner>, n: nat, k: nat)
    requires order != [] && k < n <= |order|
    ensures Turns(cursor, order, n)[k] == order[Wrap(cursor % |order| + k, |order|)]
    decreases k
  {
    NextRemainder(cursor, |order|);
    if k > 0 {
      var next := (cursor + 1) % |order|;
      TurnsAt(next, order, n - 1, k - 1);
      RemainderIsUnique(next, 0, next, |order|);
      assert Turns(cursor, order, n)[k] == Turns(next, order, n - 1)[k - 1];
    }
  }

  /** The local cursor also serves a fixed eligible list once per round, wherever it starts. */
  lemma CursorRoundServesEachOnce(cursor: nat, order: seq<Owner>)
    requires Distinct(order)
    ensures Distinct(Turns(cursor, order, |order|))
    ensures forall x :: x in Turns(cursor, order, |order|) <==> x in order
  {
    var n := |order|;
    if n > 0 {
      var served, base := Turns(cursor, order, n), cursor % n;
      forall k | 0 <= k < n ensures served[k] == order[Wrap(base + k, n)] {
        TurnsAt(cursor, order, n, k);
      }
      forall i, j | 0 <= i < j < n ensures served[i] != served[j] {
        var a, b := Wrap(base + i, n), Wrap(base + j, n);
        assert order[Min(a, b)] != order[Max(a, b)];
      }
      forall x | x in order ensures x in served {
        var m :| 0 <= m < |order| && order[m] == x;
        var k := if m >= base then m - base else m + n - base;
        assert served[k] == x;
      }
    }
  }

  // ---- the local cursor when the eligible set changes ---------------------------------------------------

  /** The owners that a run of calls with these eligible sets serves. */
  function CursorServed(cursor: nat, calls: seq<set<Owner>>): (r: seq<Owner>)
    ensures |r| == |calls|
    decreases |calls|
  {
    if calls == [] then []
    else [Cursor(cursor, calls[0]).0] + CursorServed(Cursor(cursor, calls[0]).1, calls[1..])
  }

  /** The owners in front of `x` in the sorted list. */
  function Below(s: set<Owner>, x: Owner): set<Owner> { set y | y in s && y < x }

  lemma AscendingHead(s: set<Owner>)
    requires s != {}
    ensures Least(Ascending(s)[0], s)
    ensures Ascending(s) == [Ascending(s)[0]] + Ascending(s - {Ascending(s)[0]})
  {
  }

  lemma BelowAfterLeast(s: set<Owner>, m: Owner, x: Owner)
    requires Least(m, s) && x in s && x != m
    ensures |Below(s, x)| == |Below(s - {m}, x)| + 1
  {
    assert Below(s, x) == Below(s - {m}, x) + {m};
  }

  lemma BelowLeast(s: set<Owner>, m: Owner)
    requires Least(m, s)
    ensures |Below(s, m)| == 0
  {
    assert Below(s, m) == {};
  }

  lemma BehindTheHead(first: Owner, rest: seq<Owner>, all: seq<Owner>, k: nat)
    requires all == [first] + rest && k < |rest|
    ensures all[k + 1] == rest[k]
  {
  }

  /** The position of an owner in the sorted list is the number of smaller ones. */
  lemma {:induction false} AscendingAt(s: set<Owner>, x: Owner)
    requires x in s
    ensures |Below(s, x)| < |Ascending(s)| && Ascending(s)[|Below(s, x)|] == x
    decreases s
  {
    AscendingHead(s);
    var m := Ascending(s)[0];
    if x == m {
      BelowLeast(s, m);
    } else {
      AscendingAt(s - {m}, x);
      BelowAfterLeast(s, m, x);
      BehindTheHead(m, Ascending(s - {m}), Ascending(s), |Below(s - {m}, x)|);
    }
  }

  /** A call serves `x` exactly when the cursor stands at its rank. */
  lemma CursorAt(cursor: nat, eligible: set<Owner>, x: Owner)
    requires x in Normalized(eligible)
    ensures var e := Normalized(eligible);
      && (Cursor(cursor, eligible).0 == x <==> cursor % |e| == |Below(e, x)|)
      && Cursor(cursor, eligible).1 == Wrap(cursor % |e| + 1, |e|)
      && |Below(e, x)| < |e|
  {
    var e := Normalized(eligible);
    AscendingAt(e, x);
    NextRemainder(cursor, |e|);
    var order, k := Ascending(e), |Below(e, x)|;
    assert order[k] == x;
    if cursor % |e| != k {
      assert order[Min(cursor % |e|, k)] != order[Max(cursor % |e|, k)];
    }
  }

  /**
   * `x` is eligible in every call, the owners in front of it stay the same, and the number of eligible
   * owners never falls and never exceeds `limit`.
   */
  ghost predicate Steady(calls: seq<set<Owner>>, x: Owner, front: set<Owner>, limit: nat)
  {
    && (forall i :: 0 <= i < |calls| ==>
          x in Normalized(calls[i]) && Below(Normalized(calls[i]), x) == front && |Normalized(calls[i])| <= limit)
    && forall i, j :: 0 <= i < j < |calls| ==> |Normalized(calls[i])| <= |Normalized(calls[j])|
  }

  /** How many calls at most pass before the cursor comes from `at` to `rank`, over at most `limit` owners. */
  function Distance(at: nat, rank: nat, limit: nat): int { if at <= rank then rank - at else limit - at + rank }

  lemma SteadyRest(calls: seq<set<Owner>>, x: Owner, front: set<Owner>, limit: nat)
    requires Steady(calls, x, front, limit) && calls != []
    ensures Steady(calls[1..], x, front, limit)
  {
    var rest := calls[1..];
    assert forall i :: 0 <= i < |rest| ==> rest[i] == calls[i + 1];
  }

  lemma CursorComesCloser(cursor: nat, now: set<Owner>, next: set<Owner>, x: Owner, front: set<Owner>, limit: nat)
    requires x in Normalized(now) && x in Normalized(next)
    requires Below(Normalized(now), x) == front && Below(Normalized(next), x) == front
    requires |Normalized(now)| <= |Normalized(next)| <= limit && Cursor(cursor, now).0 != x
    ensures Distance(Cursor(cursor, now).1 % |Normalized(next)|, |front|, limit)
          < Distance(cursor % |Normalized(now)|, |front|, limit)
  {
    CursorAt(cursor, now, x);
    CursorAt(Cursor(cursor, now).1, next, x);
    var at, moved := cursor % |Normalized(now)|, Cursor(cursor, now).1;
    RemainderIsUnique(moved, 0, moved, |Normalized(next)|);
  }

  lemma {:induction false} CursorServesWithin(
    cursor: nat, calls: seq<set<Owner>>, x: Owner, front: set<Owner>, limit: nat)
    requires Steady(calls, x, front, limit) && calls != []
    requires Distance(cursor % |Normalized(calls[0])|, |front|, limit) < |calls|
    ensures x in CursorServed(cursor, calls)
    decreases |calls|
  {
    CursorAt(cursor, calls[0], x);
    if Cursor(cursor, calls[0]).0 != x {
      assert |calls| > 1;
      SteadyRest(calls, x, front, limit);
      assert calls[1..][0] == calls[1];
      CursorComesCloser(cursor, calls[0], calls[1], x, front, limit);
      CursorServesWithin(Cursor(cursor, calls[0]).1, calls[1..], x, front, limit);
    }
  }

  /**
   * The local cursor serves an owner within as many calls as there ever are eligible owners, as long as the
   * owners in front of it stay the same and the number of eligible owners never falls. Owners behind it may
   * come and be exchanged.
   */
  lemma CursorServesSteadyOwner(cursor: nat, calls: seq<set<Owner>>, x: Owner, front: set<Owner>, limit: nat)
    requires Steady(calls, x, front, limit) && limit <= |calls| && calls != []
    ensures x in CursorServed(cursor, calls)
  {
    CursorAt(cursor, calls[0], x);
    CursorServesWithin(cursor, calls, x, front, limit);
  }

  /** A call with `size` eligible owners, `rank` of them in front of `x`. */
  ghost predicate Ranked(e: set<Owner>, x: Owner, size: nat, rank: nat)
  {
    x in Normalized(e) && |Normalized(e)| == size && |Below(Normalized(e), x)| == rank
  }

  /** A call whose cursor does not stand at the rank of `x` passes it by. */
  lemma PassedBy(cursor: nat, e: set<Owner>, x: Owner, size: nat, rank: nat, next: nat, rest: seq<set<Owner>>)
    requires Ranked(e, x, size, rank) && cursor % size != rank && next == Wrap(cursor % size + 1, size)
    requires x !in CursorServed(next, rest)
    ensures x !in CursorServed(cursor, [e] + rest)
  {
    CursorAt(cursor, e, x);
    assert ([e] + rest)[1..] == rest;
  }

  lemma PassedByTurns(a: set<Owner>, b: set<Owner>, x: Owner, rest: seq<set<Owner>>)
    requires Ranked(a, x, 2, 0) && Ranked(b, x, 2, 1) && x !in CursorServed(1, rest)
    ensures x !in CursorServed(1, [a] + ([b] + rest))
  {
    PassedBy(0, b, x, 2, 1, 1, rest);
    PassedBy(1, a, x, 2, 0, 0, [b] + rest);
  }

  /** Two eligible sets by turns. */
  function Alternating(a: set<Owner>, b: set<Owner>, n: nat): seq<set<Owner>>
  {
    if n == 0 then [] else [a] + ([b] + Alternating(a, b, n - 1))
  }

  /**
   * Steadiness in front is needed. Unlike the rotating list, the cursor then has no bypass bound: an owner
   * that is by turns the first and the second of two is eligible in every call, however long the run, and
   * never served.
   */
  lemma {:induction false} CursorCanStarve(a: set<Owner>, b: set<Owner>, x: Owner, n: nat)
    requires Ranked(a, x, 2, 0) && Ranked(b, x, 2, 1)
    ensures x !in CursorServed(1, Alternating(a, b, n))
  {
    if n > 0 {
      CursorCanStarve(a, b, x, n - 1);
      PassedByTurns(a, b, x, Alternating(a, b, n - 1));
    }
  }

  lemma PassedByLeaving(a: set<Owner>, b: set<Owner>, x: Owner, rest: seq<set<Owner>>)
    requires Ranked(a, x, 5, 0) && Ranked(b, x, 3, 0) && x !in CursorServed(2, rest)
    ensures x !in CursorServed(2, [a] + ([a] + ([b] + rest)))
  {
    PassedBy(4, b, x, 3, 0, 2, rest);
    PassedBy(3, a, x, 5, 0, 4, [b] + rest);
    PassedBy(2, a, x, 5, 0, 3, [a] + ([b] + rest));
  }

  /** A larger set twice, then a smaller one. */
  function Leaving(a: set<Owner>, b: set<Owner>, n: nat): seq<set<Owner>>
  {
    if n == 0 then [] else [a] + ([a] + ([b] + Leaving(a, b, n - 1)))
  }

  /**
   * So is a number that never falls: an owner that is first among five, five and three by turns is eligible
   * in every call, nobody is ever in front of it, and it is never served.
   */
  lemma {:induction false} CursorCanStarveTheFirst(a: set<Owner>, b: set<Owner>, x: Owner, n: nat)
    requires Ranked(a, x, 5, 0) && Ranked(b, x, 3, 0)
    ensures x !in CursorServed(2, Leaving(a, b, n))
  {
    if n > 0 {
      CursorCanStarveTheFirst(a, b, x, n - 1);
      PassedByLeaving(a, b, x, Leaving(a, b, n - 1));
    }
  }

  lemma RankedIs(e: set<Owner>, x: Owner, front: set<Owner>)
    requires x in e && NOBODY !in e && (forall y :: y in front <==> y in e && y < x)
    ensures Ranked(e, x, |e|, |front|)
  {
    assert Normalized(e) == e;
    assert Below(e, x) == front;
  }

  lemma TwoOwnersRanked(x: Owner, y: Owner)
    requires 0 < x < y
    ensures Ranked({x, y}, x, 2, 0) && Ranked({x, y}, y, 2, 1)
  {
    RankedIs({x, y}, x, {});
    RankedIs({x, y}, y, {x});
  }

  /**
   * Both happen from the cursor's first position. With a call for 1 and 2 in front, owner 2 is never served
   * though it is eligible in every call.
   */
  lemma CursorStarvesFromTheStart(n: nat)
    ensures 2 !in CursorServed(0, [{1, 2}] + Alternating({2, 3}, {1, 2}, n))
  {
    TwoOwnersRanked(2, 3);
    TwoOwnersRanked(1, 2);
    CursorCanStarve({2, 3}, {1, 2}, 2, n);
    PassedBy(0, {1, 2}, 2, 2, 1, 1, Alternating({2, 3}, {1, 2}, n));
  }

  lemma FiveAndThree(five: set<Owner>, three: set<Owner>)
    requires five == {1, 2, 3, 4, 5} && three == {1, 2, 3}
    ensures Ranked(five, 1, 5, 0) && Ranked(three, 1, 3, 0)
  {
    RankedIs(five, 1, {});
    RankedIs(three, 1, {});
  }

  /** Owner 1, always first, is served by the first call of all and then never again. */
  lemma CursorStarvesTheFirstFromTheStart(five: set<Owner>, three: set<Owner>, n: nat)
    requires five == {1, 2, 3, 4, 5} && three == {1, 2, 3}
    ensures var served := CursorServed(0, [five] + ([five] + Leaving(five, three, n)));
      served[0] == 1 && 1 !in served[1..]
  {
    FiveAndThree(five, three);
    var rest := Leaving(five, three, n);
    CursorCanStarveTheFirst(five, three, 1, n);
    PassedBy(1, five, 1, 5, 0, 2, rest);
    FirstCallAtStart(five, 1, 5, [five] + rest);
  }

  lemma FirstCallAtStart(e: set<Owner>, x: Owner, size: nat, rest: seq<set<Owner>>)
    requires Ranked(e, x, size, 0) && size > 1
    ensures CursorServed(0, [e] + rest) == [x] + CursorServed(1, rest)
  {
    CursorAt(0, e, x);
    assert Cursor(0, e) == (x, 1);
    assert ([e] + rest)[0] == e && ([e] + rest)[1..] == rest;
  }

  // ---- the coordinator ------------------------------------------------------------------------------

  lemma TurnedOnce(list: seq<Owner>, i: nat)
    requires i < |list|
    ensures var turned := list[i..] + list[..i]; turned[1..] + [turned[0]] == list[i + 1..] + list[..i + 1]
  {
    assert list[..i + 1] == list[..i] + [list[i]];
    assert (list[i..] + list[..i])[1..] == list[i + 1..] + list[..i];
  }

  class BatchCoordinator {
    var ownerList: seq<Owner>
    var ownerSet: set<Owner>
    var localCursor: nat

    function State(): Ring
      reads this
    {
      Ring(ownerList, ownerSet)
    }

    constructor ()
      ensures RingInv(State()) && localCursor == 0 && ownerList == []
    {
      ownerList, ownerSet, localCursor := [], {}, 0;
    }

    method RegisterOwner(owner: Owner)
      requires RingInv(State())
      modifies this
      ensures RingInv(State()) && State() == Register(old(State()), owner) && localCursor == old(localCursor)
    {
      if owner == NOBODY { return; }
      if owner !in ownerSet {
        ownerSet := ownerSet + {owner};
        ownerList := ownerList + [owner];
      }
    }

    /** Turns the shared list, at most `attempts` times, until an eligible owner comes by. */
    method TurnUntilEligible(eligible: set<Owner>, attempts: nat) returns (found: Option<Owner>)
      requires FirstEligible(ownerList, eligible) < |ownerList| <= attempts
      modifies this`ownerList
      ensures var k := FirstEligible(old(ownerList), eligible);
        found == Some(old(ownerList)[k]) && ownerList == old(ownerList)[k + 1..] + old(ownerList)[..k + 1]
    {
      ghost var list := ownerList;
      ghost var k := FirstEligible(list, eligible);
      for i := 0 to attempts
        invariant i <= k && ownerList == list[i..] + list[..i]
      {
        var owner := ownerList[0];
        assert owner == list[i];
        TurnedOnce(list, i);
        ownerList := ownerList[1..] + [ownerList[0]];
        if owner in eligible { return Some(owner); }
      }
      found := None;
    }

    /** Registers the eligible owners, then serves the first of them on the shared list. */
    method NextOwner(eligible: set<Owner>) returns (owner: Owner)
      requires RingInv(State())
      modifies this
      ensures RingInv(State()) && localCursor == old(localCursor)
      ensures (owner, State()) == Serve(old(State()), eligible)
    {
      var normalized := Ascending(Normalized(eligible));
      if normalized == [] { return NOBODY; }
      owner := ServeSorted(eligible, normalized);
      ServeKeepsInv(old(State()), eligible);
    }

    method ServeSorted(eligible: set<Owner>, normalized: seq<Owner>) returns (owner: Owner)
      requires RingInv(State()) && normalized != [] && normalized == Ascending(Normalized(eligible))
      modifies this
      ensures localCursor == old(localCursor)
      ensures (owner, State()) == Serve(old(State()), eligible)
    {
      RegisterEligible(eligible, normalized);
      ghost var full := State();
      owner := SearchOwner(Normalized(eligible), |normalized|);
      ServeIsTurn(old(State()), full, eligible);
    }

    method RegisterEligible(eligible: set<Owner>, normalized: seq<Owner>)
      requires RingInv(State()) && normalized != [] && normalized == Ascending(Normalized(eligible))
      modifies this
      ensures State() == RegisterAll(old(State()), normalized) && localCursor == old(localCursor)
      ensures FirstEligible(ownerList, Normalized(eligible)) < |ownerList|
    {
      FallbackIsUnreachable(State(), eligible);
      RegisterEach(normalized);
    }

    /** The search always finds somebody, so the fallback to the first sorted owner has no case here. */
    method SearchOwner(eligible: set<Owner>, least: nat) returns (owner: Owner)
      requires FirstEligible(ownerList, eligible) < |ownerList|
      modifies this`ownerList
      ensures var k := FirstEligible(old(ownerList), eligible);
        owner == old(ownerList)[k] && ownerList == old(ownerList)[k + 1..] + old(ownerList)[..k + 1]
    {
      var found := TurnUntilEligible(eligible, Max(least, |ownerList|));
      owner := found.value;
    }

    method RegisterEach(owners: seq<Owner>)
      requires RingInv(State())
      modifies this
      ensures State() == RegisterAll(old(State()), owners) && localCursor == old(localCursor)
    {
      ghost var start := State();
      for i := 0 to |owners|
        invariant RingInv(State()) && localCursor == old(localCursor)
        invariant RegisterAll(State(), owners[i..]) == RegisterAll(start, owners)
      {
        RegisterOwner(owners[i]);
        assert owners[i..][1..] == owners[i + 1..];
      }
    }

    /** The same service without a shared list. */
    method NextLocalOwner(eligible: set<Owner>) returns (owner: Owner)
      modifies this
      ensures (owner, localCursor) == Cursor(old(localCursor), eligible) && State() == old(State())
    {
      var normalized := Ascending(Normalized(eligible));
      if normalized == [] { return NOBODY; }
      owner := normalized[localCursor % |normalized|];
      localCursor := (localCursor + 1) % |normalized|;
    }
  }
}
