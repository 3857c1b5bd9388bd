/** Merging accounts that turned out to hold the same session cookies. */
module Merge {
  import opened Util
  import opened Ledger
  import opened LedgerRuns

  type AccountId = nat

  datatype Member = Member(
    id: AccountId, fingerprint: string, hasTask: bool, book: Book, studio: Book, updatedAt: nat, createdAt: nat)

  /** What decides which duplicate survives, most important entry first. */
  function Score(m: Member, tasks: map<AccountId, nat>): seq<int>
  {
    [if m.id in tasks then tasks[m.id] else 0, if m.hasTask then 1 else 0, |Named(m.book.charges)|,
     Max(0, m.book.used), m.updatedAt, m.createdAt]
  }

  predicate Beats(a: seq<int>, b: seq<int>)
  {
    a != [] && b != [] && (a[0] > b[0] || (a[0] == b[0] && Beats(a[1..], b[1..])))
  }

  /** The first member with the highest score. */
  function Keeper(group: seq<Member>, tasks: map<AccountId, nat>): (k: Member)
    requires group != []
    ensures k in group
    decreases |group|
  {
    if |group| == 1 then group[0]
    else
      var best := Keeper(group[..|group| - 1], tasks);
      if Beats(Score(group[|group| - 1], tasks), Score(best, tasks)) then group[|group| - 1] else best
  }

  function Group(accounts: seq<Member>, fingerprint: string): (g: seq<Member>)
    ensures forall m :: m in g <==> m in accounts && m.fingerprint == fingerprint
  {
    if accounts == [] then []
    else
      var rest := Group(accounts[..|accounts| - 1], fingerprint);
      if accounts[|accounts| - 1].fingerprint == fingerprint then rest + [accounts[|accounts| - 1]] else rest
  }

  /** Appends the charges whose id is not held yet. */
  function AddNew(held: seq<Charge>, charges: seq<Charge>): seq<Charge>
    decreases |charges|
  {
    if charges == [] then held
    else AddNew(if charges[0].id in Ids(held) then held else held + [charges[0]], charges[1..])
  }

  function Absorb(held: seq<Charge>, group: seq<Member>, keeper: AccountId): seq<Charge>
    decreases |group|
  {
    if group == [] then held
    else Absorb(if group[0].id == keeper then held else AddNew(held, Named(group[0].book.charges)), group[1..], keeper)
  }

  function MaxBase(group: seq<Member>): (r: int)
    ensures r >= 0
    ensures forall m :: m in group ==> m.book.base <= r
    ensures r > 0 ==> exists m :: m in group && m.book.base == r
  {
    if group == [] then 0 else Max(Max(0, group[0].book.base), MaxBase(group[1..]))
  }

  function MaxUpdated(group: seq<Member>): nat
  {
    if group == [] then 0 else Max(group[0].updatedAt, MaxUpdated(group[1..]))
  }

  function MergedCharges(group: seq<Member>, keeper: Member): seq<Charge>
  {
    Absorb(Named(keeper.book.charges), group, keeper.id)
  }

  /** The account that stands for a whole group. */
  function Survivor(group: seq<Member>, tasks: map<AccountId, nat>): Member
    requires group != []
  {
    if |group| == 1 then group[0]
    else
      var keeper := Keeper(group, tasks);
      var charges := MergedCharges(group, keeper);
      var book := if charges == [] then keeper.book
                  else Recomputed(Book(true, MaxBase(group), charges, keeper.book.used));
      keeper.(book := book, updatedAt := MaxUpdated(group))
  }

  predicate Survives(accounts: seq<Member>, m: Member, tasks: map<AccountId, nat>)
  {
    var group := Group(accounts, m.fingerprint);
    group != [] && Survivor(group, tasks).id == m.id
  }

  /** What an account leaves behind: the survivor of its group if it is the one, else nothing. */
  function StandIn(accounts: seq<Member>, m: Member, tasks: map<AccountId, nat>): Option<Member>
  {
    if Survives(accounts, m, tasks) then Some(Survivor(Group(accounts, m.fingerprint), tasks)) else None
  }

  function KeepSome(f: Member -> Option<Member>, accounts: seq<Member>): seq<Member>
  {
    if accounts == [] then []
    else
      var rest := KeepSome(f, accounts[..|accounts| - 1]);
      match f(accounts[|accounts| - 1]) case Some(m) => rest + [m] case None => rest
  }

  function Rule(accounts: seq<Member>, tasks: map<AccountId, nat>): Member -> Option<Member>
  {
    (m: Member) => StandIn(accounts, m, tasks)
  }

  /** The document after the merge, in its old order. */
  function Merged(accounts: seq<Member>, tasks: map<AccountId, nat>): seq<Member>
  {
    KeepSome(Rule(accounts, tasks), accounts)
  }

  /** The members of a group but its keeper. */
  function OthersOf(group: seq<Member>, keeper: AccountId): seq<AccountId>
  {
    if group == [] then []
    else (if group[0].id == keeper then [] else [group[0].id]) + OthersOf(group[1..], keeper)
  }

  /** The fingerprints in the order in which the document first shows them. */
  function Fingerprints(accounts: seq<Member>): seq<string>
  {
    if accounts == [] then []
    else
      var before, last := Fingerprints(accounts[..|accounts| - 1]), accounts[|accounts| - 1].fingerprint;
      if last in before then before else before + [last]
  }

  function RemovedFrom(group: seq<Member>, tasks: map<AccountId, nat>): seq<AccountId>
  {
    if |group| < 2 then [] else OthersOf(group, Keeper(group, tasks).id)
  }

  /** The removed accounts, group by group. */
  function RemovedIds(accounts: seq<Member>, fingerprints: seq<string>, tasks: map<AccountId, nat>): seq<AccountId>
  {
    if fingerprints == [] then []
    else
      var n := |fingerprints| - 1;
      RemovedIds(accounts, fingerprints[..n], tasks) + RemovedFrom(Group(accounts, fingerprints[n]), tasks)
  }

  ghost predicate UniqueIds(accounts: seq<Member>)
  {
    forall i, k :: 0 <= i < k < |accounts| ==> accounts[i].id != accounts[k].id
  }

  // ---- the keeper ---------------------------------------------------------------------------------

  lemma {:induction false} BeatsIsTransitive(a: seq<int>, b: seq<int>, c: seq<int>)
    requires Beats(a, b) && Beats(b, c)
    ensures Beats(a, c)
  {
    if a[0] == b[0] && b[0] == c[0] { BeatsIsTransitive(a[1..], b[1..], c[1..]); }
  }

  lemma {:induction false} BeatsExcludes(a: seq<int>, b: seq<int>, c: seq<int>)
    requires |a| == |b| == |c| && !Beats(a, b) && !Beats(b, c)
    ensures !Beats(a, c)
  {
    if a != [] && a[0] == b[0] && b[0] == c[0] { BeatsExcludes(a[1..], b[1..], c[1..]); }
  }

  /** Nobody scores higher than member `at`, and nobody listed before it scores as high. */
  ghost predicate FirstBest(group: seq<Member>, tasks: map<AccountId, nat>, at: nat)
  {
    && at < |group|
    && (forall i :: 0 <= i < |group| ==> !Beats(Score(group[i], tasks), Score(group[at], tasks)))
    && forall i :: 0 <= i < at ==> Beats(Score(group[at], tasks), Score(group[i], tasks))
  }

  lemma OneMoreMember(front: seq<Member>, last: Member, tasks: map<AccountId, nat>, best: nat)
    requires FirstBest(front, tasks, best)
    ensures FirstBest(front + [last], tasks,
                      if Beats(Score(last, tasks), Score(front[best], tasks)) then |front| else best)
  {
    NobodyBeatsItself(Score(last, tasks));
    forall i | 0 <= i < |front|
      ensures Beats(Score(last, tasks), Score(front[best], tasks)) ==>
        Beats(Score(last, tasks), Score(front[i], tasks)) && !Beats(Score(front[i], tasks), Score(last, tasks))
    {
      RankedAgainst(front[i], front[best], last, tasks);
    }
  }

  lemma SoleMemberIsBest(m: Member, tasks: map<AccountId, nat>)
    ensures FirstBest([m], tasks, 0)
  {
    NobodyBeatsItself(Score(m, tasks));
  }

  lemma KeeperOfMore(front: seq<Member>, last: Member, tasks: map<AccountId, nat>)
    requires front != []
    ensures var best := Keeper(front, tasks);
      Keeper(front + [last], tasks) == if Beats(Score(last, tasks), Score(best, tasks)) then last else best
  {
    var group := front + [last];
    assert group[..|group| - 1] == front && group[|group| - 1] == last;
  }

  /** The keeper is the first of the best, as `max` picks it. */
  lemma {:induction false} KeeperIsFirstBest(group: seq<Member>, tasks: map<AccountId, nat>) returns (at: nat)
    requires group != []
    ensures FirstBest(group, tasks, at) && group[at] == Keeper(group, tasks)
    decreases |group|
  {
    var front, last := group[..|group| - 1], group[|group| - 1];
    assert group == front + [last];
    if front == [] {
      at := 0;
      SoleMemberIsBest(last, tasks);
    } else {
      var best := KeeperIsFirstBest(front, tasks);
      at := if Beats(Score(last, tasks), Score(front[best], tasks)) then |front| else best;
      OneMoreMember(front, last, tasks, best);
      KeeperOfMore(front, last, tasks);
    }
  }

  /** The tasks that the caller counted for an account. */
  function TasksOf(m: Member, tasks: map<AccountId, nat>): nat { if m.id in tasks then tasks[m.id] else 0 }

  /** Whether `k` is ahead of `m`: by tasks, then a current task, charges, usage, last update and creation. */
  predicate Ahead(k: Member, m: Member, tasks: map<AccountId, nat>)
  {
    if TasksOf(k, tasks) != TasksOf(m, tasks) then TasksOf(k, tasks) > TasksOf(m, tasks)
    else if k.hasTask != m.hasTask then k.hasTask
    else if |Named(k.book.charges)| != |Named(m.book.charges)| then |Named(k.book.charges)| > |Named(m.book.charges)|
    else if UsedOf(k) != UsedOf(m) then UsedOf(k) > UsedOf(m)
    else if k.updatedAt != m.updatedAt then k.updatedAt > m.updatedAt
    else k.createdAt > m.createdAt
  }

  function UsedOf(m: Member): nat { if m.book.used < 0 then 0 else m.book.used }

  lemma ScoreIsAhead(k: Member, m: Member, tasks: map<AccountId, nat>)
    ensures Beats(Score(k, tasks), Score(m, tasks)) <==> Ahead(k, m, tasks)
  {
    var a, b := Score(k, tasks), Score(m, tasks);
    BeatsTail(a, b, 0);
    BeatsTail(a, b, 1);
    BeatsTail(a, b, 2);
    BeatsTail(a, b, 3);
    BeatsTail(a, b, 4);
    BeatsTail(a, b, 5);
  }

  lemma BeatsTail(a: seq<int>, b: seq<int>, i: nat)
    requires |a| == |b| && i < |a|
    ensures Beats(a[i..], b[i..]) <==> if a[i] != b[i] then a[i] > b[i] else Beats(a[i + 1..], b[i + 1..])
    ensures !Beats(a[|a|..], b[|b|..]) && a[0..] == a && b[0..] == b
  {
    assert a[i..][1..] == a[i + 1..] && b[i..][1..] == b[i + 1..];
  }

  /** No account of the group is ahead of the keeper, and the keeper is ahead of all that are listed before it. */
  lemma KeeperComesFirst(group: seq<Member>, tasks: map<AccountId, nat>) returns (at: nat)
    requires group != []
    ensures at < |group| && group[at] == Keeper(group, tasks)
    ensures forall i :: 0 <= i < |group| ==> !Ahead(group[i], group[at], tasks)
    ensures forall i :: 0 <= i < at ==> Ahead(group[at], group[i], tasks)
  {
    at := KeeperIsFirstBest(group, tasks);
    forall i | 0 <= i < |group|
      ensures Beats(Score(group[i], tasks), Score(group[at], tasks)) <==> Ahead(group[i], group[at], tasks)
      ensures Beats(Score(group[at], tasks), Score(group[i], tasks)) <==> Ahead(group[at], group[i], tasks)
    {
      ScoreIsAhead(group[i], group[at], tasks);
      ScoreIsAhead(group[at], group[i], tasks);
    }
  }

  lemma {:induction false} MaxUpdatedMeans(group: seq<Member>)
    requires group != []
    ensures forall m :: m in group ==> m.updatedAt <= MaxUpdated(group)
    ensures exists m :: m in group && m.updatedAt == MaxUpdated(group)
  {
    assert group[0] in group;
    if |group| > 1 { MaxUpdatedMeans(group[1..]); }
  }

  /** What a merge leaves of a group as it was in the keeper, and the latest update of all. */
  lemma SurvivorMeans(group: seq<Member>, tasks: map<AccountId, nat>)
    requires |group| > 1
    ensures var keeper, s := Keeper(group, tasks), Survivor(group, tasks);
      && s.id == keeper.id && s.fingerprint == keeper.fingerprint && s.hasTask == keeper.hasTask
      && s.studio == keeper.studio && s.createdAt == keeper.createdAt
      && (forall m :: m in group ==> m.updatedAt <= s.updatedAt)
      && (exists m :: m in group && m.updatedAt == s.updatedAt)
  {
    MaxUpdatedMeans(group);
  }

  lemma {:induction false} NobodyBeatsItself(a: seq<int>)
    ensures !Beats(a, a)
  {
    if a != [] { NobodyBeatsItself(a[1..]); }
  }

  /** Whoever beats the best so far beats everybody before it. */
  lemma RankedAgainst(m: Member, best: Member, last: Member, tasks: map<AccountId, nat>)
    requires !Beats(Score(m, tasks), Score(best, tasks))
    ensures Beats(Score(last, tasks), Score(best, tasks)) ==>
      Beats(Score(last, tasks), Score(m, tasks)) && !Beats(Score(m, tasks), Score(last, tasks))
  {
    var s, b, l := Score(m, tasks), Score(best, tasks), Score(last, tasks);
    if Beats(l, b) {
      if !Beats(l, s) { BeatsExcludes(l, s, b); }
      if Beats(s, l) { BeatsIsTransitive(s, l, b); }
    }
  }

  // ---- charges ------------------------------------------------------------------------------------

  ghost predicate UniqueChargeIds(charges: seq<Charge>)
  {
    forall i, k :: 0 <= i < k < |charges| ==> charges[i].id != charges[k].id
  }

  /** One more charge changes the ids as it should, whether or not its id was held. */
  lemma OneMoreCharge(held: seq<Charge>, c: Charge)
    ensures var next := if c.id in Ids(held) then held else held + [c];
      && Ids(next) == Ids(held) + {c.id}
      && (UniqueChargeIds(held) ==> UniqueChargeIds(next))
  {
    IdsOfSum(held, [c]);
    assert c in [c] && Ids([c]) == {c.id};
    if c.id !in Ids(held) {
      forall k | 0 <= k < |held| ensures held[k].id != c.id { assert held[k] in held; }
    }
  }

  lemma {:induction false} AddNewIds(held: seq<Charge>, charges: seq<Charge>)
    ensures Ids(AddNew(held, charges)) == Ids(held) + Ids(charges)
    decreases |charges|
  {
    if charges != [] {
      OneMoreCharge(held, charges[0]);
      AddNewIds(if charges[0].id in Ids(held) then held else held + [charges[0]], charges[1..]);
      assert charges == [charges[0]] + charges[1..];
      IdsOfSum([charges[0]], charges[1..]);
      assert charges[0] in [charges[0]] && Ids([charges[0]]) == {charges[0].id};
    }
  }

  lemma {:induction false} AddNewMembers(held: seq<Charge>, charges: seq<Charge>)
    ensures held <= AddNew(held, charges)
    ensures Ids(AddNew(held, charges)) == Ids(held) + Ids(charges)
    ensures forall c :: c in AddNew(held, charges) ==> c in held || c in charges
    ensures UniqueChargeIds(held) ==> UniqueChargeIds(AddNew(held, charges))
    decreases |charges|
  {
    AddNewIds(held, charges);
    if charges != [] {
      OneMoreCharge(held, charges[0]);
      AddNewMembers(if charges[0].id in Ids(held) then held else held + [charges[0]], charges[1..]);
    }
  }

  function GroupIds(group: seq<Member>): set<string>
  {
    if group == [] then {} else Ids(Named(group[0].book.charges)) + GroupIds(group[1..])
  }

  lemma {:induction false} GroupIdsContain(group: seq<Member>, m: Member)
    requires m in group
    ensures Ids(Named(m.book.charges)) <= GroupIds(group)
  {
    if group[0] != m { GroupIdsContain(group[1..], m); }
  }

  ghost predicate HeldBySome(group: seq<Member>, c: Charge)
  {
    exists m :: m in group && c in Named(m.book.charges)
  }

  lemma {:induction false} AbsorbMembers(held: seq<Charge>, group: seq<Member>, keeper: Member)
    requires Ids(Named(keeper.book.charges)) <= Ids(held)
    requires forall m :: m in group && m.id == keeper.id ==> m == keeper
    ensures held <= Absorb(held, group, keeper.id)
    ensures Ids(Absorb(held, group, keeper.id)) == Ids(held) + GroupIds(group)
    ensures forall c :: c in Absorb(held, group, keeper.id) ==> c in held || HeldBySome(group, c)
    ensures UniqueChargeIds(held) ==> UniqueChargeIds(Absorb(held, group, keeper.id))
    decreases |group|
  {
    if group != [] {
      var next := if group[0].id == keeper.id then held else AddNew(held, Named(group[0].book.charges));
      AddNewMembers(held, Named(group[0].book.charges));
      AbsorbMembers(next, group[1..], keeper);
      forall c | c in Absorb(held, group, keeper.id) ensures c in held || HeldBySome(group, c) {
        if HeldBySome(group[1..], c) {
          var m :| m in group[1..] && c in Named(m.book.charges);
          assert m in group;
        } else if c in next && c !in held {
          assert group[0] in group;
        }
      }
    }
  }

  lemma MergedChargesMembers(group: seq<Member>, keeper: Member)
    requires keeper in group && UniqueIds(group) && UniqueChargeIds(Named(keeper.book.charges))
    ensures var charges := MergedCharges(group, keeper);
      && Ids(charges) == GroupIds(group) && UniqueChargeIds(charges)
      && forall c :: c in charges ==> HeldBySome(group, c)
  {
    var held := Named(keeper.book.charges);
    AbsorbMembers(held, group, keeper);
    GroupIdsContain(group, keeper);
    forall c | c in held ensures HeldBySome(group, c) { assert keeper in group; }
  }

  lemma SomeChargeIsMerged(group: seq<Member>, charges: seq<Charge>, m: Member)
    requires m in group && Named(m.book.charges) != [] && Ids(charges) == GroupIds(group)
    ensures charges != []
  {
    GroupIdsContain(group, m);
    assert Named(m.book.charges)[0] in Named(m.book.charges);
    assert Named(m.book.charges)[0].id in Ids(charges);
  }

  /** No charge id of the group is lost, none is invented, and none is listed twice. */
  lemma SurvivorHoldsEveryCharge(group: seq<Member>, tasks: map<AccountId, nat>)
    requires |group| >= 2 && UniqueIds(group)
    requires UniqueChargeIds(Named(Keeper(group, tasks).book.charges))
    requires exists m :: m in group && Named(m.book.charges) != []
    ensures var s := Survivor(group, tasks);
      && Ids(s.book.charges) == GroupIds(group)
      && UniqueChargeIds(s.book.charges)
      && (forall c :: c in s.book.charges ==> HeldBySome(group, c))
      && s.book.initialized && s.book.used == MaxBase(group) + ActiveUnits(s.book.charges)
  {
    var keeper := Keeper(group, tasks);
    var charges := MergedCharges(group, keeper);
    MergedChargesMembers(group, keeper);
    var m :| m in group && Named(m.book.charges) != [];
    SomeChargeIsMerged(group, charges, m);
    assert Survivor(group, tasks).book == Recomputed(Book(true, MaxBase(group), charges, keeper.book.used));
  }

  lemma {:induction false} SubsetSum(a: seq<Charge>, b: seq<Charge>)
    requires UniqueChargeIds(a) && forall c :: c in a ==> c in b
    ensures ActiveUnits(a) <= ActiveUnits(b)
    decreases |a|
  {
    if a != [] {
      assert a[0] in b;
      var i :| 0 <= i < |b| && b[i] == a[0];
      var without := b[..i] + b[i + 1..];
      forall c | c in a[1..] ensures c in without {
        var k :| 1 <= k < |a| && a[k] == c;
        assert c in b && c != a[0];
        var j :| 0 <= j < |b| && b[j] == c;
        if j < i { assert without[j] == c; } else { assert without[j - 1] == c; }
      }
      SubsetSum(a[1..], without);
      ActiveOfSum(b[..i], b[i + 1..]);
      assert b == b[..i] + ([b[i]] + b[i + 1..]);
      ActiveOfSum(b[..i], [b[i]] + b[i + 1..]);
    }
  }

  /** Two members never tell a shared charge differently. */
  ghost predicate SharedChargesAgree(group: seq<Member>)
  {
    forall m, n, c, d ::
      m in group && n in group && c in Named(m.book.charges) && d in Named(n.book.charges) && c.id == d.id ==> c == d
  }

  /** A charge whose id is merged is merged itself, when nobody tells it differently. */
  lemma OwnChargesAreMerged(group: seq<Member>, charges: seq<Charge>, m: Member)
    requires m in group && SharedChargesAgree(group) && Ids(charges) == GroupIds(group)
    requires forall c :: c in charges ==> HeldBySome(group, c)
    ensures forall c :: c in Named(m.book.charges) ==> c in charges
  {
    GroupIdsContain(group, m);
    forall c | c in Named(m.book.charges) ensures c in charges {
      assert c.id in Ids(charges);
      var d :| d in charges && d.id == c.id;
      assert HeldBySome(group, d);
    }
  }

  lemma {:induction false} MaxBaseCovers(group: seq<Member>, m: Member)
    requires m in group
    ensures MaxBase(group) >= m.book.base
  {
    if group[0] != m { MaxBaseCovers(group[1..], m); }
  }

  lemma OpenedMemberIsCovered(group: seq<Member>, charges: seq<Charge>, m: Member)
    requires m in group && SharedChargesAgree(group) && Ids(charges) == GroupIds(group)
    requires forall c :: c in charges ==> HeldBySome(group, c)
    requires m.book.initialized && Sound(m.book) && UniqueChargeIds(Named(m.book.charges))
    ensures m.book.used <= MaxBase(group) + ActiveUnits(charges)
  {
    OwnChargesAreMerged(group, charges, m);
    SubsetSum(Named(m.book.charges), charges);
    ActiveOfNamed(m.book.charges);
    MaxBaseCovers(group, m);
  }

  /**
   * In a group with agreeing charges and at least one charge, the usage of a sound member is kept exactly
   * when its ledger was opened or it had used no more than the greatest base and the merged charges make.
   */
  lemma SurvivorCoversExactly(group: seq<Member>, tasks: map<AccountId, nat>, m: Member)
    requires |group| >= 2 && UniqueIds(group) && m in group && SharedChargesAgree(group)
    requires Sound(m.book) && UniqueChargeIds(Named(m.book.charges))
    requires UniqueChargeIds(Named(Keeper(group, tasks).book.charges))
    requires exists n :: n in group && Named(n.book.charges) != []
    ensures Survivor(group, tasks).book.used >= m.book.used <==>
      m.book.initialized || m.book.used <= MaxBase(group) + ActiveUnits(MergedCharges(group, Keeper(group, tasks)))
  {
    var keeper := Keeper(group, tasks);
    var charges := MergedCharges(group, keeper);
    MergedChargesMembers(group, keeper);
    var n :| n in group && Named(n.book.charges) != [];
    SomeChargeIsMerged(group, charges, n);
    SurvivorUsage(group, tasks);
    if m.book.initialized { OpenedMemberIsCovered(group, charges, m); }
  }

  lemma SurvivorUsage(group: seq<Member>, tasks: map<AccountId, nat>)
    requires |group| >= 2 && MergedCharges(group, Keeper(group, tasks)) != []
    ensures Survivor(group, tasks).book.used == MaxBase(group) + ActiveUnits(MergedCharges(group, Keeper(group, tasks)))
  {
  }

  // ---- groups without charges -----------------------------------------------------------------------

  /** The two entries of the score that come before the charges. */
  function Rank(m: Member, tasks: map<AccountId, nat>): seq<int>
  {
    [if m.id in tasks then tasks[m.id] else 0, if m.hasTask then 1 else 0]
  }

  lemma {:induction false} BeatsInFront(a: seq<int>, b: seq<int>, x: seq<int>, y: seq<int>)
    requires |a| == |b|
    ensures Beats(a + x, b + y) <==> Beats(a, b) || (a == b && Beats(x, y))
  {
    if a == [] {
      assert a + x == x && b + y == y;
    } else {
      assert (a + x)[1..] == a[1..] + x && (b + y)[1..] == b[1..] + y;
      BeatsInFront(a[1..], b[1..], x, y);
      assert a == b <==> a[0] == b[0] && a[1..] == b[1..];
    }
  }

  /** Without charges, members of equal rank are told apart by their usage first. */
  lemma ScoreByUsage(m: Member, n: Member, tasks: map<AccountId, nat>)
    requires Named(m.book.charges) == [] && Named(n.book.charges) == []
    ensures Beats(Rank(m, tasks), Rank(n, tasks)) ==> Beats(Score(m, tasks), Score(n, tasks))
    ensures Rank(m, tasks) == Rank(n, tasks) && Max(0, m.book.used) > Max(0, n.book.used) ==>
      Beats(Score(m, tasks), Score(n, tasks))
  {
    var x, y := [0, Max(0, m.book.used), m.updatedAt, m.createdAt], [0, Max(0, n.book.used), n.updatedAt, n.createdAt];
    assert Score(m, tasks) == Rank(m, tasks) + x && Score(n, tasks) == Rank(n, tasks) + y;
    BeatsInFront(Rank(m, tasks), Rank(n, tasks), x, y);
    BeatsInFront([0], [0], x[1..], y[1..]);
    assert [0] + x[1..] == x && [0] + y[1..] == y;
    assert x[1..][0] == Max(0, m.book.used) && y[1..][0] == Max(0, n.book.used);
  }

  lemma {:induction false} BeatsIsTotal(a: seq<int>, b: seq<int>)
    requires |a| == |b|
    ensures Beats(a, b) || Beats(b, a) || a == b
  {
    if a != [] {
      BeatsIsTotal(a[1..], b[1..]);
      assert a == [a[0]] + a[1..] && b == [b[0]] + b[1..];
    }
  }

  /** Among the members that nobody outranks, one has used as much as anybody. */
  ghost predicate TopRankUsedMost(group: seq<Member>, tasks: map<AccountId, nat>)
  {
    exists t :: t in group
      && (forall m :: m in group ==> !Beats(Rank(m, tasks), Rank(t, tasks)))
      && forall m :: m in group ==> m.book.used <= t.book.used
  }

  lemma KeeperIsBest(group: seq<Member>, tasks: map<AccountId, nat>, m: Member)
    requires m in group
    ensures !Beats(Score(m, tasks), Score(Keeper(group, tasks), tasks))
  {
    var at := KeeperIsFirstBest(group, tasks);
    var i :| 0 <= i < |group| && group[i] == m;
  }

  ghost predicate NobodyUsedMore(group: seq<Member>, used: int) { forall m :: m in group ==> m.book.used <= used }

  /**
   * A group without any charge keeps the survivor's own usage. That is as much as anybody had used exactly
   * when a member of the highest task count and current-task flag had used the most.
   */
  lemma WithoutChargesUsageIsKeptExactly(group: seq<Member>, tasks: map<AccountId, nat>)
    requires |group| >= 2
    requires forall m :: m in group ==> Named(m.book.charges) == [] && m.book.used >= 0
    ensures Survivor(group, tasks).book == Keeper(group, tasks).book
    ensures NobodyUsedMore(group, Survivor(group, tasks).book.used) <==> TopRankUsedMost(group, tasks)
  {
    AbsorbNothing([], group, Keeper(group, tasks).id);
    var k := Keeper(group, tasks);
    forall m | m in group ensures !Beats(Rank(m, tasks), Rank(k, tasks)) {
      KeeperIsBest(group, tasks, m);
      ScoreByUsage(m, k, tasks);
    }
    if TopRankUsedMost(group, tasks) { TopUsageIsTheKeepers(group, tasks); }
  }

  lemma TopUsageIsTheKeepers(group: seq<Member>, tasks: map<AccountId, nat>)
    requires group != [] && TopRankUsedMost(group, tasks)
    requires forall m :: m in group ==> Named(m.book.charges) == [] && m.book.used >= 0
    ensures NobodyUsedMore(group, Keeper(group, tasks).book.used)
  {
    var k := Keeper(group, tasks);
    var t :| t in group && (forall m :: m in group ==> !Beats(Rank(m, tasks), Rank(t, tasks)))
      && forall m :: m in group ==> m.book.used <= t.book.used;
    KeeperIsBest(group, tasks, t);
    ScoreByUsage(t, k, tasks);
    BeatsIsTotal(Rank(k, tasks), Rank(t, tasks));
  }

  lemma {:induction false} AbsorbNothing(held: seq<Charge>, group: seq<Member>, keeper: AccountId)
    requires forall m :: m in group ==> Named(m.book.charges) == []
    ensures Absorb(held, group, keeper) == held
    decreases |group|
  {
    if group != [] { AbsorbNothing(held, group[1..], keeper); }
  }

  /** The usage of a keeper that never opened its ledger is forgotten as soon as the group has a charge. */
  lemma UnopenedKeeperForgetsUsage(used: nat)
    ensures var keeper := Member(1, "f", true, Book(false, 0, [], used), EmptyBook, 0, 0);
      var other := Member(2, "f", false, Book(true, 0, [Charge("c", 1, Charged)], 1), EmptyBook, 0, 0);
      var s := Survivor([keeper, other], map[]);
      s.id == 1 && s.book.used == 1
  {
    var keeper := Member(1, "f", true, Book(false, 0, [], used), EmptyBook, 0, 0);
    var c := Charge("c", 1, Charged);
    var other := Member(2, "f", false, Book(true, 0, [c], 1), EmptyBook, 0, 0);
    var group := [keeper, other];
    assert group[..1] == [keeper];
    assert Score(other, map[])[0] == 0 && Score(keeper, map[])[0] == 0;
    assert Score(other, map[])[1..][0] == 0 && Score(keeper, map[])[1..][0] == 1;
    var a, b := Score(other, map[]), Score(keeper, map[]);
    assert !Beats(a[1..], b[1..]);
    assert !Beats(a, b);
    assert Keeper([keeper], map[]) == keeper;
    assert Keeper(group, map[]) == keeper;
    assert Named([c]) == [c] + Named([]);
    assert AddNew([], [c]) == AddNew([] + [c], [c][1..]);
    assert group[1..] == [other];
    assert Absorb([], group, 1) == Absorb([], [other], 1);
    assert Absorb([], [other], 1) == Absorb(AddNew([], [c]), [other][1..], 1);
    assert Absorb([], group, 1) == [c];
    assert ActiveUnits([c]) == Counted(c) + ActiveUnits([c][1..]);
  }

  // ---- the whole document ---------------------------------------------------------------------------

  lemma GroupIsUnique(accounts: seq<Member>, fingerprint: string)
    requires UniqueIds(accounts)
    ensures UniqueIds(Group(accounts, fingerprint))
  {
    if accounts != [] {
      var init := accounts[..|accounts| - 1];
      GroupIsUnique(init, fingerprint);
      var last := accounts[|accounts| - 1];
      var rest := Group(init, fingerprint);
      forall k | 0 <= k < |rest| ensures rest[k].id != last.id {
        assert rest[k] in init;
        var i :| 0 <= i < |init| && init[i] == rest[k];
        assert accounts[i].id != accounts[|accounts| - 1].id;
      }
    }
  }

  lemma SurvivorComesFromGroup(accounts: seq<Member>, fingerprint: string, tasks: map<AccountId, nat>)
    requires Group(accounts, fingerprint) != []
    ensures var s := Survivor(Group(accounts, fingerprint), tasks);
      && s.fingerprint == fingerprint
      && exists i :: 0 <= i < |accounts| && accounts[i].id == s.id && accounts[i].fingerprint == fingerprint
  {
    var group := Group(accounts, fingerprint);
    var m := if |group| == 1 then group[0] else Keeper(group, tasks);
    assert m in group;
    var i :| 0 <= i < |accounts| && accounts[i] == m;
  }

  lemma {:induction false} KeepSomeMembers(f: Member -> Option<Member>, accounts: seq<Member>, s: Member)
    ensures s in KeepSome(f, accounts) <==> exists m :: m in accounts && f(m) == Some(s)
  {
    if accounts != [] {
      var init, last := accounts[..|accounts| - 1], accounts[|accounts| - 1];
      KeepSomeMembers(f, init, s);
      assert accounts == init + [last];
      if m :| m in accounts && f(m) == Some(s) { assert m in init || m == last; }
    }
  }

  lemma {:induction false} KeepSomeDistinct(f: Member -> Option<Member>, accounts: seq<Member>)
    requires forall i, k :: 0 <= i < k < |accounts| ==> Apart(f, accounts[i], accounts[k])
    ensures DistinctFingerprints(KeepSome(f, accounts))
  {
    if accounts != [] {
      var init, last := accounts[..|accounts| - 1], accounts[|accounts| - 1];
      forall i, k | 0 <= i < k < |init| ensures Apart(f, init[i], init[k]) {
        assert Apart(f, accounts[i], accounts[k]);
      }
      KeepSomeDistinct(f, init);
      var rest := KeepSome(f, init);
      if f(last).Some? {
        forall k | 0 <= k < |rest| ensures rest[k].fingerprint != f(last).value.fingerprint {
          KeepSomeMembers(f, init, rest[k]);
          var m :| m in init && f(m) == Some(rest[k]);
          var i :| 0 <= i < |init| && init[i] == m;
          assert f(accounts[i]) == Some(rest[k]) && Apart(f, accounts[i], accounts[|accounts| - 1]);
        }
      }
    }
  }

  ghost predicate DistinctFingerprints(r: seq<Member>)
  {
    forall i, k :: 0 <= i < k < |r| ==> r[i].fingerprint != r[k].fingerprint
  }

  /** Two accounts that both leave something behind leave it under different fingerprints. */
  ghost predicate Apart(f: Member -> Option<Member>, m: Member, n: Member)
  {
    f(m).Some? && f(n).Some? ==> f(m).value.fingerprint != f(n).value.fingerprint
  }

  lemma StandInsDiffer(accounts: seq<Member>, tasks: map<AccountId, nat>, i: nat, k: nat)
    requires UniqueIds(accounts) && i < k < |accounts|
    ensures Apart(Rule(accounts, tasks), accounts[i], accounts[k])
  {
    if StandIn(accounts, accounts[i], tasks).Some? && StandIn(accounts, accounts[k], tasks).Some? {
      SurvivorComesFromGroup(accounts, accounts[i].fingerprint, tasks);
      SurvivorComesFromGroup(accounts, accounts[k].fingerprint, tasks);
      assert accounts[i].id != accounts[k].id;
    }
  }

  /** Afterwards fingerprints are pairwise distinct. */
  lemma FingerprintsAreDistinct(accounts: seq<Member>, tasks: map<AccountId, nat>)
    requires UniqueIds(accounts)
    ensures DistinctFingerprints(Merged(accounts, tasks))
  {
    forall i, k | 0 <= i < k < |accounts| ensures Apart(Rule(accounts, tasks), accounts[i], accounts[k]) {
      StandInsDiffer(accounts, tasks, i, k);
    }
    KeepSomeDistinct(Rule(accounts, tasks), accounts);
  }

  /** Every group is represented by its survivor, and by nothing else. */
  lemma EveryGroupLeavesItsSurvivor(accounts: seq<Member>, tasks: map<AccountId, nat>, s: Member)
    requires UniqueIds(accounts)
    ensures s in Merged(accounts, tasks) <==>
      Group(accounts, s.fingerprint) != [] && s == Survivor(Group(accounts, s.fingerprint), tasks)
  {
    var f := Rule(accounts, tasks);
    KeepSomeMembers(f, accounts, s);
    if m :| m in accounts && f(m) == Some(s) {
      SurvivorComesFromGroup(accounts, m.fingerprint, tasks);
    }
    if Group(accounts, s.fingerprint) != [] && s == Survivor(Group(accounts, s.fingerprint), tasks) {
      SurvivorComesFromGroup(accounts, s.fingerprint, tasks);
      var i :| 0 <= i < |accounts| && accounts[i].id == s.id && accounts[i].fingerprint == s.fingerprint;
      assert accounts[i] in accounts && f(accounts[i]) == Some(s);
    }
  }

  // ---- studio charges ------------------------------------------------------------------------------------

  ghost predicate HoldsStudio(accounts: seq<Member>, c: Charge)
  {
    exists m :: m in accounts && c in m.studio.charges
  }

  predicate IsKeeper(accounts: seq<Member>, m: Member, tasks: map<AccountId, nat>)
  {
    Group(accounts, m.fingerprint) != [] && Keeper(Group(accounts, m.fingerprint), tasks) == m
  }

  lemma SurvivorStudio(group: seq<Member>, tasks: map<AccountId, nat>)
    requires group != []
    ensures Survivor(group, tasks).studio == Keeper(group, tasks).studio
    ensures Survivor(group, tasks).fingerprint == Keeper(group, tasks).fingerprint
  {
  }

  /**
   * Only the first ledger is merged. Over the whole document, a studio charge is still on some account
   * afterwards exactly when the keeper of some group had it; the charges of the other duplicates are gone.
   */
  lemma StudioChargeSurvivesExactly(accounts: seq<Member>, tasks: map<AccountId, nat>, c: Charge)
    requires UniqueIds(accounts)
    ensures HoldsStudio(Merged(accounts, tasks), c) <==>
      exists m :: m in accounts && IsKeeper(accounts, m, tasks) && c in m.studio.charges
  {
    if HoldsStudio(Merged(accounts, tasks), c) {
      var s :| s in Merged(accounts, tasks) && c in s.studio.charges;
      EveryGroupLeavesItsSurvivor(accounts, tasks, s);
      var group := Group(accounts, s.fingerprint);
      SurvivorStudio(group, tasks);
      var k := Keeper(group, tasks);
      assert k in accounts && IsKeeper(accounts, k, tasks) && c in k.studio.charges;
    }
    if m :| m in accounts && IsKeeper(accounts, m, tasks) && c in m.studio.charges {
      KeeperLeavesStudio(accounts, tasks, m);
      var s := Survivor(Group(accounts, m.fingerprint), tasks);
      assert s in Merged(accounts, tasks) && c in s.studio.charges;
    }
  }

  lemma KeeperLeavesStudio(accounts: seq<Member>, tasks: map<AccountId, nat>, m: Member)
    requires UniqueIds(accounts) && IsKeeper(accounts, m, tasks)
    ensures var s := Survivor(Group(accounts, m.fingerprint), tasks);
      s in Merged(accounts, tasks) && s.studio == m.studio
  {
    var s := Survivor(Group(accounts, m.fingerprint), tasks);
    SurvivorStudio(Group(accounts, m.fingerprint), tasks);
    EveryGroupLeavesItsSurvivor(accounts, tasks, s);
  }

  /** Two accounts, of which the second one holds a studio charge and the first one is working. */
  function BusyAndCharged(c: Charge): seq<Member>
  {
    [Member(1, "f", true, EmptyBook, EmptyBook, 0, 0),
     Member(2, "f", false, EmptyBook, Book(true, 0, [c], Units(c)), 0, 0)]
  }

  lemma BusyOneIsKept(c: Charge)
    ensures UniqueIds(BusyAndCharged(c))
    ensures Group(BusyAndCharged(c), "f") == BusyAndCharged(c)
    ensures Keeper(BusyAndCharged(c), map[]) == BusyAndCharged(c)[0]
  {
    var group := BusyAndCharged(c);
    assert group[..1] == [group[0]] && group[..1][..0] == [];
    assert Group(group[..1], "f") == Group([], "f") + [group[0]];
    ScoreByUsage(group[0], group[1], map[]);
    BeatsInFront([0], [0], [1], [0]);
    assert Rank(group[0], map[]) == [0] + [1] && Rank(group[1], map[]) == [0] + [0];
    var at := KeeperIsFirstBest(group, map[]);
  }

  /** A paid generation can vanish: any studio charge, a settled one included, is lost by some merge. */
  lemma StudioChargeCanBeLost(c: Charge)
    ensures var accounts := BusyAndCharged(c);
      UniqueIds(accounts) && HoldsStudio(accounts, c) && !HoldsStudio(Merged(accounts, map[]), c)
  {
    var accounts := BusyAndCharged(c);
    BusyOneIsKept(c);
    assert accounts[1] in accounts && c in accounts[1].studio.charges;
    StudioChargeSurvivesExactly(accounts, map[], c);
  }

  // ---- the loops --------------------------------------------------------------------------------------

  method PickKeeper(group: seq<Member>, tasks: map<AccountId, nat>) returns (keeper: Member)
    requires group != []
    ensures keeper == Keeper(group, tasks)
  {
    keeper := group[0];
    for i := 1 to |group|
      invariant keeper == Keeper(group[..i], tasks)
    {
      assert group[..i + 1][..i] == group[..i];
      if Beats(Score(group[i], tasks), Score(keeper, tasks)) { keeper := group[i]; }
    }
    assert group[..|group|] == group;
  }

  /** Collects the charges of a group, the keeper's first, each id once. */
  method CollectCharges(group: seq<Member>, keeper: Member) returns (charges: seq<Charge>)
    ensures charges == MergedCharges(group, keeper)
  {
    charges := Named(keeper.book.charges);
    ghost var start := charges;
    for i := 0 to |group|
      invariant Absorb(charges, group[i..], keeper.id) == Absorb(start, group, keeper.id)
    {
      assert group[i..][1..] == group[i + 1..];
      if group[i].id != keeper.id {
        var own := Named(group[i].book.charges);
        ghost var held := charges;
        for k := 0 to |own|
          invariant AddNew(charges, own[k..]) == AddNew(held, own)
        {
          assert own[k..][1..] == own[k + 1..];
          if own[k].id !in Ids(charges) { charges := charges + [own[k]]; }
        }
      }
    }
  }

  method Maxima(group: seq<Member>) returns (base: int, updated: nat)
    ensures base == MaxBase(group) && updated == MaxUpdated(group)
  {
    base, updated := 0, 0;
    for i := 0 to |group|
      invariant base >= 0 && Max(base, MaxBase(group[i..])) == MaxBase(group)
      invariant Max(updated, MaxUpdated(group[i..])) == MaxUpdated(group)
    {
      assert group[i..][1..] == group[i + 1..];
      base := Max(base, Max(0, group[i].book.base));
      updated := Max(updated, group[i].updatedAt);
    }
    assert group[|group|..] == [];
  }

  method MergeGroup(group: seq<Member>, tasks: map<AccountId, nat>) returns (survivor: Member)
    requires group != []
    ensures survivor == Survivor(group, tasks)
  {
    if |group| < 2 { return group[0]; }
    survivor := PickKeeper(group, tasks);
    var charges := CollectCharges(group, survivor);
    var base, updated := Maxima(group);
    if charges != [] {
      survivor := survivor.(book := Recomputed(Book(true, base, charges, survivor.book.used)));
    }
    survivor := survivor.(updatedAt := updated);
  }

  method GroupByFingerprint(accounts: seq<Member>) returns (groups: map<string, seq<Member>>)
    ensures forall f :: f in groups <==> Group(accounts, f) != []
    ensures forall f :: f in groups ==> groups[f] == Group(accounts, f)
  {
    groups := map[];
    for i := 0 to |accounts|
      invariant forall f :: f in groups <==> Group(accounts[..i], f) != []
      invariant forall f :: f in groups ==> groups[f] == Group(accounts[..i], f)
    {
      var f := accounts[i].fingerprint;
      assert accounts[..i + 1][..i] == accounts[..i];
      groups := groups[f := (if f in groups then groups[f] else []) + [accounts[i]]];
    }
    assert accounts[..|accounts|] == accounts;
  }

  lemma {:induction false} OthersMembers(group: seq<Member>, keeper: AccountId, id: AccountId)
    ensures id in OthersOf(group, keeper) <==> id != keeper && exists m :: m in group && m.id == id
  {
    if group != [] {
      OthersMembers(group[1..], keeper, id);
      assert group == [group[0]] + group[1..];
    }
  }

  lemma {:induction false} FingerprintsMembers(accounts: seq<Member>, f: string)
    ensures f in Fingerprints(accounts) <==> exists m :: m in accounts && m.fingerprint == f
  {
    if accounts != [] {
      var init, last := accounts[..|accounts| - 1], accounts[|accounts| - 1];
      FingerprintsMembers(init, f);
      assert accounts == init + [last];
    }
  }

  /** Some of these groups loses the account. */
  ghost predicate LostBySome(accounts: seq<Member>, fs: seq<string>, tasks: map<AccountId, nat>, id: AccountId)
  {
    exists f :: f in fs && id in RemovedFrom(Group(accounts, f), tasks)
  }

  lemma LostByOneMore(accounts: seq<Member>, fs: seq<string>, f: string, tasks: map<AccountId, nat>, id: AccountId)
    ensures LostBySome(accounts, fs + [f], tasks, id) <==>
      LostBySome(accounts, fs, tasks, id) || id in RemovedFrom(Group(accounts, f), tasks)
  {
    assert forall g :: g in fs + [f] <==> g in fs || g == f;
  }

  lemma {:induction false} RemovedMembers(
    accounts: seq<Member>, fs: seq<string>, tasks: map<AccountId, nat>, id: AccountId)
    ensures id in RemovedIds(accounts, fs, tasks) <==> LostBySome(accounts, fs, tasks, id)
    decreases |fs|
  {
    if fs != [] {
      var n := |fs| - 1;
      RemovedMembers(accounts, fs[..n], tasks, id);
      LostByOneMore(accounts, fs[..n], fs[n], tasks, id);
      assert fs == fs[..n] + [fs[n]];
    }
  }

  lemma LeavesNothing(accounts: seq<Member>, tasks: map<AccountId, nat>, m: Member)
    requires m in accounts
    ensures StandIn(accounts, m, tasks).None? <==> m.id in RemovedFrom(Group(accounts, m.fingerprint), tasks)
  {
    var group := Group(accounts, m.fingerprint);
    assert m in group;
    if |group| >= 2 { OthersMembers(group, Keeper(group, tasks).id, m.id); }
  }

  /** The removed ids are exactly those of the accounts that leave nothing behind. */
  lemma RemovedLeaveNothing(accounts: seq<Member>, tasks: map<AccountId, nat>, id: AccountId)
    ensures id in RemovedIds(accounts, Fingerprints(accounts), tasks) <==>
      exists m :: m in accounts && m.id == id && StandIn(accounts, m, tasks).None?
  {
    var fs := Fingerprints(accounts);
    RemovedMembers(accounts, fs, tasks, id);
    if id in RemovedIds(accounts, fs, tasks) {
      var f :| f in fs && id in RemovedFrom(Group(accounts, f), tasks);
      OthersMembers(Group(accounts, f), Keeper(Group(accounts, f), tasks).id, id);
      var m :| m in Group(accounts, f) && m.id == id;
      LeavesNothing(accounts, tasks, m);
    }
    if m :| m in accounts && m.id == id && StandIn(accounts, m, tasks).None? {
      LeavesNothing(accounts, tasks, m);
      FingerprintsMembers(accounts, m.fingerprint);
    }
  }

  lemma OneMoreAccount(f: Member -> Option<Member>, accounts: seq<Member>, i: nat)
    requires i < |accounts|
    ensures KeepSome(f, accounts[..i + 1]) ==
      KeepSome(f, accounts[..i]) + (if f(accounts[i]).Some? then [f(accounts[i]).value] else [])
  {
    assert accounts[..i + 1][..i] == accounts[..i];
  }

  /** What an account leaves behind, from the groups. */
  method StandInOf(accounts: seq<Member>, groups: map<string, seq<Member>>, m: Member, tasks: map<AccountId, nat>)
    returns (r: Option<Member>)
    requires m in accounts && m.fingerprint in groups && groups[m.fingerprint] == Group(accounts, m.fingerprint)
    ensures r == StandIn(accounts, m, tasks)
  {
    assert m in Group(accounts, m.fingerprint);
    var survivor := MergeGroup(groups[m.fingerprint], tasks);
    r := if survivor.id == m.id then Some(survivor) else None;
  }

  /** Collects the fingerprints of the document. */
  method CollectFingerprints(accounts: seq<Member>) returns (fingerprints: seq<string>)
    ensures fingerprints == Fingerprints(accounts)
  {
    fingerprints := [];
    for i := 0 to |accounts|
      invariant fingerprints == Fingerprints(accounts[..i])
    {
      assert accounts[..i + 1][..i] == accounts[..i];
      var f := accounts[i].fingerprint;
      if f !in fingerprints { fingerprints := fingerprints + [f]; }
    }
    assert accounts[..|accounts|] == accounts;
  }

  lemma {:induction false} OneMoreOther(group: seq<Member>, m: Member, keeper: AccountId)
    ensures OthersOf(group + [m], keeper) == OthersOf(group, keeper) + (if m.id == keeper then [] else [m.id])
  {
    if group != [] {
      assert (group + [m])[1..] == group[1..] + [m];
      OneMoreOther(group[1..], m, keeper);
    }
  }

  method OtherIds(group: seq<Member>, keeper: AccountId) returns (others: seq<AccountId>)
    ensures others == OthersOf(group, keeper)
  {
    others := [];
    for i := 0 to |group|
      invariant others == OthersOf(group[..i], keeper)
    {
      assert group[..i + 1] == group[..i] + [group[i]];
      OneMoreOther(group[..i], group[i], keeper);
      if group[i].id != keeper { others := others + [group[i].id]; }
    }
    assert group[..|group|] == group;
  }

  method RemoveOthers(group: seq<Member>, tasks: map<AccountId, nat>) returns (removed: seq<AccountId>)
    ensures removed == RemovedFrom(group, tasks)
  {
    if |group| < 2 { return []; }
    var keeper := PickKeeper(group, tasks);
    removed := OtherIds(group, keeper.id);
  }

  method CollectRemoved(accounts: seq<Member>, groups: map<string, seq<Member>>, tasks: map<AccountId, nat>)
    returns (removed: seq<AccountId>)
    requires forall f :: f in groups <==> Group(accounts, f) != []
    requires forall f :: f in groups ==> groups[f] == Group(accounts, f)
    ensures removed == RemovedIds(accounts, Fingerprints(accounts), tasks)
  {
    removed := [];
    var fs := CollectFingerprints(accounts);
    for i := 0 to |fs|
      invariant removed == RemovedIds(accounts, fs[..i], tasks)
    {
      assert fs[..i + 1][..i] == fs[..i];
      var others := RemoveOthers(if fs[i] in groups then groups[fs[i]] else [], tasks);
      removed := removed + others;
    }
    assert fs[..|fs|] == fs;
  }

  /** `merge_duplicate_accounts`: groups the document, merges each group, drops the rest. */
  method MergeDuplicates(accounts: seq<Member>, tasks: map<AccountId, nat>)
    returns (kept: seq<Member>, removed: seq<AccountId>)
    ensures kept == Merged(accounts, tasks) && removed == RemovedIds(accounts, Fingerprints(accounts), tasks)
  {
    var groups := GroupByFingerprint(accounts);
    removed := CollectRemoved(accounts, groups, tasks);
    ghost var f := Rule(accounts, tasks);
    kept := [];
    for i := 0 to |accounts|
      invariant kept == KeepSome(f, accounts[..i])
    {
      var m := accounts[i];
      assert m in Group(accounts, m.fingerprint);
      var r := StandInOf(accounts, groups, m, tasks);
      OneMoreAccount(f, accounts, i);
      assert f(m) == r;
      if r.Some? { kept := kept + [r.value]; }
    }
    assert accounts[..|accounts|] == accounts;
  }
}
