/**
 * The store of account proxies and the rotation over the selected ones. Identifiers are opaque; a
 * failing operation writes nothing.
 */
module AccountProxies {
  import opened Util
  import ProxyUrl

  type Id = s: string | s != "" witness "0"

  const MAX_PROXIES: nat := 300

  datatype Proxy = Proxy(id: Id, enabled: bool, entry: ProxyUrl.Entry)

  datatype Store = Store(proxies: seq<Proxy>, selected: seq<Id>, rotate: bool)

  datatype StoreError = TooMany | NotSelectable | NothingRequested | Unknown

  predicate Listed(proxies: seq<Proxy>, id: Id) { exists i :: 0 <= i < |proxies| && proxies[i].id == id }

  predicate Selectable(proxies: seq<Proxy>, id: Id)
  {
    exists i :: 0 <= i < |proxies| && proxies[i].id == id && proxies[i].enabled
  }

  /** `dict.fromkeys`: the first occurrence of each. */
  function Unique(ids: seq<Id>): (r: seq<Id>)
    ensures forall x :: x in r <==> x in ids
    ensures Distinct(r)
  {
    if ids == [] then []
    else
      var u := Unique(ids[..|ids| - 1]);
      var last := ids[|ids| - 1];
      assert ids == ids[..|ids| - 1] + [last];
      if last in u then u else u + [last]
  }

  /** The given identifiers, trimmed and without blanks. */
  function Requested(ids: seq<string>): seq<Id>
  {
    if ids == [] then []
    else
      var id := Strip(ids[0]);
      (if id == "" then [] else [id]) + Requested(ids[1..])
  }

  // ---- the operations ------------------------------------------------------------------------------------

  /** The list with the new proxies at its end and their identifiers, or nothing when it would overflow. */
  function Added(proxies: seq<Proxy>, ids: seq<Id>, parsed: seq<(Id, ProxyUrl.Entry)>): Option<(seq<Proxy>, seq<Id>)>
    decreases |parsed|
  {
    if parsed == [] then Some((proxies, ids))
    else
      var (id, entry) := parsed[0];
      if Listed(proxies, id) then Added(proxies, ids, parsed[1..])
      else if |proxies| >= MAX_PROXIES then None
      else Added(proxies + [Proxy(id, true, entry)], ids + [id], parsed[1..])
  }

  /** `import_account_proxies`, after its lines were parsed. */
  function Import(s: Store, parsed: seq<(Id, ProxyUrl.Entry)>): Result<Store, StoreError>
  {
    match Added(s.proxies, [], parsed)
    case None => Failure(TooMany)
    case Some(r) => Success(s.(proxies := r.0, selected := Unique(s.selected + r.1)))
  }

  /** `select_account_proxies`. */
  function Select(s: Store, ids: seq<string>, rotate: bool): Result<Store, StoreError>
  {
    var requested := Unique(Requested(ids));
    if exists id :: id in requested && !Selectable(s.proxies, id) then Failure(NotSelectable)
    else Success(s.(selected := requested, rotate := rotate))
  }

  function Switched(proxies: seq<Proxy>, requested: seq<Id>, enabled: bool): (r: seq<Proxy>)
    ensures |r| == |proxies|
    ensures forall i :: 0 <= i < |r| ==>
      r[i] == if proxies[i].id in requested then proxies[i].(enabled := enabled) else proxies[i]
  {
    if proxies == [] then []
    else
      [if proxies[0].id in requested then proxies[0].(enabled := enabled) else proxies[0]]
      + Switched(proxies[1..], requested, enabled)
  }

  lemma SwitchedAppends(proxies: seq<Proxy>, p: Proxy, requested: seq<Id>, enabled: bool)
    ensures Switched(proxies + [p], requested, enabled) ==
      Switched(proxies, requested, enabled) + [if p.id in requested then p.(enabled := enabled) else p]
  {
  }

  function NotIn(ids: seq<Id>): Id -> bool { (id: Id) => id !in ids }

  function IdNotIn(ids: seq<Id>): Proxy -> bool { (p: Proxy) => p.id !in ids }

  /** `set_account_proxies_enabled`. */
  function SetEnabled(s: Store, ids: seq<string>, enabled: bool): Result<Store, StoreError>
  {
    var requested := Unique(Requested(ids));
    if requested == [] then Failure(NothingRequested)
    else if exists id :: id in requested && !Listed(s.proxies, id) then Failure(Unknown)
    else
      Success(s.(
        proxies := Switched(s.proxies, requested, enabled),
        selected := if enabled then s.selected else Filter(NotIn(requested), s.selected)))
  }

  /** `delete_account_proxies`: the count of removed entries tells whether all were there. */
  function Delete(s: Store, ids: seq<string>): Result<Store, StoreError>
  {
    var requested := Unique(Requested(ids));
    var rest := Filter(IdNotIn(requested), s.proxies);
    if requested == [] then Failure(NothingRequested)
    else if |s.proxies| - |rest| != |requested| then Failure(Unknown)
    else Success(s.(proxies := rest, selected := Filter(NotIn(requested), s.selected)))
  }

  // ---- the invariant -----------------------------------------------------------------------------------------

  ghost predicate DistinctIds(proxies: seq<Proxy>)
  {
    forall i, j :: 0 <= i < j < |proxies| ==> proxies[i].id != proxies[j].id
  }

  ghost predicate Inv(s: Store)
  {
    && DistinctIds(s.proxies) && |s.proxies| <= MAX_PROXIES
    && Distinct(s.selected) && forall id :: id in s.selected ==> Selectable(s.proxies, id)
  }

  lemma {:induction false} AddedKeeps(proxies: seq<Proxy>, ids: seq<Id>, parsed: seq<(Id, ProxyUrl.Entry)>)
    requires DistinctIds(proxies) && |proxies| <= MAX_PROXIES
    requires forall id :: id in ids ==> Selectable(proxies, id)
    ensures var r := Added(proxies, ids, parsed);
      r.Some? ==>
        && DistinctIds(r.value.0) && |r.value.0| <= MAX_PROXIES && proxies <= r.value.0
        && forall id :: id in r.value.1 ==> Selectable(r.value.0, id)
    decreases |parsed|
  {
    if parsed != [] {
      var (id, entry) := parsed[0];
      if Listed(proxies, id) {
        AddedKeeps(proxies, ids, parsed[1..]);
      } else if |proxies| < MAX_PROXIES {
        var longer := proxies + [Proxy(id, true, entry)];
        assert longer[|proxies|].id == id;
        assert forall x :: Selectable(proxies, x) ==> Selectable(longer, x) by {
          assert forall i :: 0 <= i < |proxies| ==> longer[i] == proxies[i];
        }
        AddedKeeps(longer, ids + [id], parsed[1..]);
      }
    }
  }

  lemma SelectableInLonger(proxies: seq<Proxy>, longer: seq<Proxy>, id: Id)
    requires proxies <= longer && Selectable(proxies, id)
    ensures Selectable(longer, id)
  {
    var i :| 0 <= i < |proxies| && proxies[i].id == id && proxies[i].enabled;
    assert longer[i] == proxies[i];
  }

  lemma ImportKeepsInv(s: Store, parsed: seq<(Id, ProxyUrl.Entry)>)
    requires Inv(s)
    ensures var r := Import(s, parsed); r.Success? ==> Inv(r.value)
  {
    AddedKeeps(s.proxies, [], parsed);
    var r := Added(s.proxies, [], parsed);
    if r.Some? {
      forall id | id in Unique(s.selected + r.value.1) ensures Selectable(r.value.0, id) {
        if id in s.selected { SelectableInLonger(s.proxies, r.value.0, id); }
      }
    }
  }

  lemma {:induction false} FilterKeepsDistinct<T(!new)>(p: T -> bool, s: seq<T>)
    requires Distinct(s)
    ensures Distinct(Filter(p, s)) && |Filter(p, s)| <= |s|
  {
    if s != [] {
      FilterKeepsDistinct(p, s[1..]);
      assert s[0] !in s[1..];
      assert s[0] !in Filter(p, s[1..]);
    }
  }

  lemma {:induction false} FilterKeepsDistinctIds(p: Proxy -> bool, s: seq<Proxy>)
    requires DistinctIds(s)
    ensures DistinctIds(Filter(p, s)) && |Filter(p, s)| <= |s|
  {
    if s != [] {
      FilterKeepsDistinctIds(p, s[1..]);
      assert forall x :: x in s[1..] ==> x.id != s[0].id;
      assert forall x :: x in Filter(p, s[1..]) ==> x.id != s[0].id;
    }
  }

  lemma SetEnabledKeepsInv(s: Store, ids: seq<string>, enabled: bool)
    requires Inv(s)
    ensures var r := SetEnabled(s, ids, enabled); r.Success? ==> Inv(r.value)
  {
    var requested := Unique(Requested(ids));
    var switched := Switched(s.proxies, requested, enabled);
    FilterKeepsDistinct(NotIn(requested), s.selected);
    forall id | id in s.selected && (enabled || id !in requested) ensures Selectable(switched, id) {
      var i :| 0 <= i < |s.proxies| && s.proxies[i].id == id && s.proxies[i].enabled;
      assert switched[i].id == id && switched[i].enabled;
    }
  }

  lemma DeleteKeepsInv(s: Store, ids: seq<string>)
    requires Inv(s)
    ensures var r := Delete(s, ids); r.Success? ==> Inv(r.value)
  {
    var requested := Unique(Requested(ids));
    var rest := Filter(IdNotIn(requested), s.proxies);
    FilterKeepsDistinctIds(IdNotIn(requested), s.proxies);
    FilterKeepsDistinct(NotIn(requested), s.selected);
    forall id | id in s.selected && id !in requested ensures Selectable(rest, id) {
      var i :| 0 <= i < |s.proxies| && s.proxies[i].id == id && s.proxies[i].enabled;
      assert s.proxies[i] in rest;
    }
  }

  // ---- deletion is all or nothing ---------------------------------------------------------------------------------

  function IdsOf(proxies: seq<Proxy>): set<Id> { set p | p in proxies :: p.id }

  lemma {:induction false} DistinctIdsCount(proxies: seq<Proxy>)
    requires DistinctIds(proxies)
    ensures |IdsOf(proxies)| == |proxies|
  {
    if proxies != [] {
      DistinctIdsCount(proxies[1..]);
      assert proxies == [proxies[0]] + proxies[1..];
      assert IdsOf(proxies) == IdsOf(proxies[1..]) + {proxies[0].id};
      assert forall x :: x in proxies[1..] ==> x.id != proxies[0].id;
    }
  }

  lemma {:induction false} DistinctCount<T>(s: seq<T>)
    requires Distinct(s)
    ensures |set x | x in s| == |s|
  {
    if s != [] {
      DistinctCount(s[1..]);
      assert s == [s[0]] + s[1..];
      assert (set x | x in s) == (set x | x in s[1..]) + {s[0]};
      assert s[0] !in s[1..];
    }
  }

  lemma SetParts<T>(all: set<T>, wanted: set<T>)
    ensures |all| - |all - wanted| == |wanted| <==> wanted <= all
  {
    assert all == (all - wanted) + (all * wanted);
    assert wanted == (wanted - all) + (all * wanted);
    assert wanted - all == {} <==> wanted <= all;
  }

  lemma RemovedCount(proxies: seq<Proxy>, requested: seq<Id>)
    requires DistinctIds(proxies)
    ensures |Filter(IdNotIn(requested), proxies)| == |IdsOf(proxies) - (set id | id in requested)|
    ensures |proxies| == |IdsOf(proxies)|
  {
    FilterKeepsDistinctIds(IdNotIn(requested), proxies);
    DistinctIdsCount(proxies);
    DistinctIdsCount(Filter(IdNotIn(requested), proxies));
    KeptIds(proxies, requested);
  }

  /** The count check of the deletion finds a missing identifier, and nothing else. */
  lemma DeleteFailsExactly(s: Store, ids: seq<string>)
    requires Inv(s)
    ensures var requested := Unique(Requested(ids));
      Delete(s, ids).Success? <==> requested != [] && forall id :: id in requested ==> Listed(s.proxies, id)
  {
    var requested := Unique(Requested(ids));
    var wanted := set id | id in requested;
    RemovedCount(s.proxies, requested);
    DistinctCount(requested);
    SetParts(IdsOf(s.proxies), wanted);
    AllListed(s.proxies, requested);
  }

  lemma AllListed(proxies: seq<Proxy>, requested: seq<Id>)
    ensures (set id | id in requested) <= IdsOf(proxies) <==> forall id :: id in requested ==> Listed(proxies, id)
  {
    ListedIds(proxies);
    var wanted := set id | id in requested;
    assert forall id :: id in wanted <==> id in requested;
  }

  lemma ListedIds(proxies: seq<Proxy>)
    ensures forall id :: id in IdsOf(proxies) <==> Listed(proxies, id)
  {
    forall id ensures id in IdsOf(proxies) <==> Listed(proxies, id) {
      if Listed(proxies, id) {
        var i :| 0 <= i < |proxies| && proxies[i].id == id;
        assert proxies[i] in proxies;
      }
    }
  }

  lemma KeptIds(proxies: seq<Proxy>, requested: seq<Id>)
    ensures IdsOf(Filter(IdNotIn(requested), proxies)) == IdsOf(proxies) - (set id | id in requested)
  {
    var rest := Filter(IdNotIn(requested), proxies);
    forall id ensures id in IdsOf(rest) <==> id in IdsOf(proxies) && id !in requested {
      if id in IdsOf(proxies) && id !in requested {
        var p :| p in proxies && p.id == id;
        assert p in rest;
      }
    }
  }

  // ---- runs -----------------------------------------------------------------------------------------------

  datatype Operation =
    | ImportThese(parsed: seq<(Id, ProxyUrl.Entry)>)
    | SelectThese(ids: seq<string>, rotate: bool)
    | Switch(ids: seq<string>, enabled: bool)
    | Remove(ids: seq<string>)

  function Step(s: Store, op: Operation): Store
  {
    var r :=
      match op
      case ImportThese(parsed) => Import(s, parsed)
      case SelectThese(ids, rotate) => Select(s, ids, rotate)
      case Switch(ids, enabled) => SetEnabled(s, ids, enabled)
      case Remove(ids) => Delete(s, ids);
    if r.Success? then r.value else s
  }

  function Run(s: Store, ops: seq<Operation>): Store
    decreases |ops|
  {
    if ops == [] then s else Run(Step(s, ops[0]), ops[1..])
  }

  lemma {:induction false} RunKeepsInv(s: Store, ops: seq<Operation>)
    requires Inv(s)
    ensures Inv(Run(s, ops))
    decreases |ops|
  {
    if ops != [] {
      match ops[0] {
        case ImportThese(parsed) => ImportKeepsInv(s, parsed);
        case SelectThese(_, _) =>
        case Switch(ids, enabled) => SetEnabledKeepsInv(s, ids, enabled);
        case Remove(ids) => DeleteKeepsInv(s, ids);
      }
      RunKeepsInv(Step(s, ops[0]), ops[1..]);
    }
  }

  // ---- rotation -----------------------------------------------------------------------------------------------------

  function Find(proxies: seq<Proxy>, id: Id): Option<Proxy>
  {
    if proxies == [] then None
    else if proxies[0].id == id && proxies[0].enabled then Some(proxies[0]) else Find(proxies[1..], id)
  }

  /** The selected proxies that exist and are enabled, in the order of selection. */
  function Candidates(proxies: seq<Proxy>, selected: seq<Id>): seq<Proxy>
  {
    if selected == [] then []
    else
      var rest := Candidates(proxies, selected[1..]);
      match Find(proxies, selected[0])
      case None => rest
      case Some(p) => [p] + rest
  }

  function Rotation<T>(s: seq<T>, cursor: nat): (r: seq<T>)
    requires s != []
  {
    s[cursor % |s|..] + s[..cursor % |s|]
  }

  /** What `account_proxy_candidates` returns and where it leaves the cursor. */
  function Offer(s: Store, cursor: nat): (seq<Proxy>, nat)
  {
    var found := Candidates(s.proxies, s.selected);
    if found == [] then ([], cursor)
    else if !s.rotate then (found[..1], cursor)
    else (Rotation(found, cursor), (cursor + 1) % |found|)
  }

  lemma {:induction false} FindFinds(proxies: seq<Proxy>, id: Id)
    requires Selectable(proxies, id)
    ensures Find(proxies, id).Some? && Find(proxies, id).value.id == id && Find(proxies, id).value.enabled
    ensures Find(proxies, id).value in proxies
  {
    if !(proxies[0].id == id && proxies[0].enabled) {
      var i :| 0 <= i < |proxies| && proxies[i].id == id && proxies[i].enabled;
      assert proxies[1..][i - 1] == proxies[i];
      FindFinds(proxies[1..], id);
    }
  }

  lemma {:induction false} CandidatesAreSelection(proxies: seq<Proxy>, selected: seq<Id>)
    requires forall id :: id in selected ==> Selectable(proxies, id)
    ensures var found := Candidates(proxies, selected);
      && |found| == |selected|
      && forall i :: 0 <= i < |found| ==> found[i].id == selected[i] && found[i].enabled && found[i] in proxies
  {
    if selected != [] {
      FindFinds(proxies, selected[0]);
      CandidatesAreSelection(proxies, selected[1..]);
    }
  }

  /** The rotation starts at the cursor and wraps around. */
  lemma RotationAt<T>(s: seq<T>, cursor: nat, i: nat)
    requires i < |s|
    ensures |Rotation(s, cursor)| == |s| && Rotation(s, cursor)[i] == s[Wrap(cursor % |s| + i, |s|)]
  {
  }

  /**
   * After any operations on a sound store every selected proxy is offered, enabled, in the order of
   * selection from the cursor on and around.
   */
  lemma EverySelectedProxyIsOffered(s: Store, ops: seq<Operation>, cursor: nat)
    requires Inv(s)
    ensures var r := Run(s, ops);
      var (offered, _) := Offer(r, cursor);
      var n := |r.selected|;
      r.rotate && n > 0 ==>
        && |offered| == n
        && forall i :: 0 <= i < n ==> offered[i].id == r.selected[Wrap(cursor % n + i, n)] && offered[i].enabled
  {
    RunKeepsInv(s, ops);
    var r := Run(s, ops);
    CandidatesAreSelection(r.proxies, r.selected);
    var found := Candidates(r.proxies, r.selected);
    if r.rotate && |r.selected| > 0 {
      forall i | 0 <= i < |found| ensures Rotation(found, cursor)[i] == found[Wrap(cursor % |found| + i, |found|)] {
        RotationAt(found, cursor, i);
      }
    }
  }

  /** The first proxies of `k` consecutive offers. */
  function Firsts(s: Store, cursor: nat, k: nat): seq<Proxy>
    requires s.rotate && Candidates(s.proxies, s.selected) != []
    decreases k
  {
    if k == 0 then [] else [Offer(s, cursor).0[0]] + Firsts(s, Offer(s, cursor).1, k - 1)
  }

  lemma LeadOfOffer(s: Store, cursor: nat)
    requires s.rotate && Candidates(s.proxies, s.selected) != []
    ensures var found := Candidates(s.proxies, s.selected);
      Offer(s, cursor).0 != [] && Offer(s, cursor).0[0] == found[cursor % |found|]
        && Offer(s, cursor).1 == (cursor + 1) % |found|
  {
  }

  function Lap(found: seq<Proxy>, cursor: nat, n: nat): (r: seq<Proxy>)
    requires found != []
    ensures |r| == n
    decreases n
  {
    if n == 0 then [] else [found[cursor % |found|]] + Lap(found, (cursor + 1) % |found|, n - 1)
  }

  lemma {:induction false} FirstsAreLap(s: Store, cursor: nat, n: nat)
    requires s.rotate && Candidates(s.proxies, s.selected) != []
    ensures Firsts(s, cursor, n) == Lap(Candidates(s.proxies, s.selected), cursor, n)
    decreases n
  {
    if n > 0 {
      LeadOfOffer(s, cursor);
      FirstsAreLap(s, Offer(s, cursor).1, n - 1);
    }
  }

  lemma {:induction false} LapAt(found: seq<Proxy>, cursor: nat, n: nat, k: nat)
    requires found != [] && k < n <= |found|
    ensures Lap(found, cursor, n)[k] == found[Wrap(cursor % |found| + k, |found|)]
    decreases k
  {
    NextRemainder(cursor, |found|);
    if k > 0 {
      var next := (cursor + 1) % |found|;
      LapAt(found, next, n - 1, k - 1);
      RemainderIsUnique(next, 0, next, |found|);
      assert Lap(found, cursor, n)[k] == Lap(found, next, n - 1)[k - 1];
    }
  }

  lemma LapIsDistinct(found: seq<Proxy>, cursor: nat)
    requires found != [] && DistinctIds(found)
    ensures DistinctIds(Lap(found, cursor, |found|))
  {
    var n, r, base := |found|, Lap(found, cursor, |found|), cursor % |found|;
    forall i, j | 0 <= i < j < n ensures r[i].id != r[j].id {
      LapAt(found, cursor, n, i);
      LapAt(found, cursor, n, j);
      var a, b := Wrap(base + i, n), Wrap(base + j, n);
      assert found[Min(a, b)].id != found[Max(a, b)].id;
    }
  }

  lemma LapCovers(found: seq<Proxy>, cursor: nat, p: Proxy)
    requires p in found
    ensures p in Lap(found, cursor, |found|)
  {
    var n, base := |found|, cursor % |found|;
    var m :| 0 <= m < n && found[m] == p;
    var k := if m >= base then m - base else m + n - base;
    LapAt(found, cursor, n, k);
  }

  /** As many consecutive offers as there are candidates put each of them first exactly once. */
  lemma EachCandidateLeadsOnce(s: Store, cursor: nat)
    requires Inv(s) && s.rotate && s.selected != []
    ensures Candidates(s.proxies, s.selected) != []
    ensures var r := Firsts(s, cursor, |s.selected|);
      && (forall p :: p in Candidates(s.proxies, s.selected) ==> p in r)
      && forall i, j :: 0 <= i < j < |r| ==> r[i].id != r[j].id
  {
    CandidatesAreSelection(s.proxies, s.selected);
    var found := Candidates(s.proxies, s.selected);
    FirstsAreLap(s, cursor, |found|);
    LapIsDistinct(found, cursor);
    forall p | p in found ensures p in Lap(found, cursor, |found|) { LapCovers(found, cursor, p); }
  }

  // ---- the module state -----------------------------------------------------------------------------------

  class AccountProxyStore {
    var proxies: seq<Proxy>
    var selected: seq<Id>
    var rotate: bool
    var cursor: nat

    function State(): Store
      reads this
    {
      Store(proxies, selected, rotate)
    }

    constructor ()
      ensures State() == Store([], [], true) && cursor == 0
    {
      proxies, selected, rotate, cursor := [], [], true, 0;
    }

    method ImportProxies(parsed: seq<(Id, ProxyUrl.Entry)>) returns (r: Result<nat, StoreError>)
      modifies this
      ensures State() == Step(old(State()), ImportThese(parsed)) && cursor == old(cursor)
      ensures r.Success? == Import(old(State()), parsed).Success?
      ensures r.Success? ==> |proxies| == |old(proxies)| + r.value
    {
      var existing, added, i := proxies, [], 0;
      while i < |parsed|
        invariant 0 <= i <= |parsed|
        invariant Added(existing, added, parsed[i..]) == Added(proxies, [], parsed)
        invariant |existing| == |proxies| + |added|
        invariant State() == old(State()) && cursor == old(cursor)
      {
        var (id, entry) := parsed[i];
        assert parsed[i..][1..] == parsed[i + 1..] && parsed[i..][0] == parsed[i];
        if !Listed(existing, id) {
          if |existing| >= MAX_PROXIES { return Failure(TooMany); }
          existing, added := existing + [Proxy(id, true, entry)], added + [id];
        }
        i := i + 1;
      }
      proxies, selected := existing, Unique(selected + added);
      return Success(|added|);
    }

    method SelectProxies(ids: seq<string>, rotation: bool) returns (ok: bool)
      modifies this
      ensures State() == Step(old(State()), SelectThese(ids, rotation)) && cursor == old(cursor)
      ensures ok == Select(old(State()), ids, rotation).Success?
    {
      var requested := Unique(Requested(ids));
      if exists id :: id in requested && !Selectable(proxies, id) { return false; }
      selected, rotate := requested, rotation;
      return true;
    }

    method SetProxiesEnabled(ids: seq<string>, enabled: bool) returns (ok: bool)
      modifies this
      ensures State() == Step(old(State()), Switch(ids, enabled)) && cursor == old(cursor)
      ensures ok == SetEnabled(old(State()), ids, enabled).Success?
    {
      var requested := Unique(Requested(ids));
      if requested == [] { return false; }
      var switched, missing := SwitchAll(requested, enabled);
      if missing { return false; }
      proxies := switched;
      if !enabled { selected := Filter(NotIn(requested), selected); }
      return true;
    }

    method SwitchAll(requested: seq<Id>, enabled: bool) returns (switched: seq<Proxy>, missing: bool)
      ensures switched == Switched(proxies, requested, enabled)
      ensures missing <==> exists id :: id in requested && !Listed(proxies, id)
    {
      var found: set<Id>;
      switched, found := SwitchEach(requested, enabled);
      missing := exists id :: id in requested && id !in found;
    }

    /** The switched entries, and the requested ids that were met on the way. */
    method SwitchEach(requested: seq<Id>, enabled: bool) returns (switched: seq<Proxy>, found: set<Id>)
      ensures switched == Switched(proxies, requested, enabled)
      ensures forall id :: id in found <==> id in requested && Listed(proxies, id)
    {
      switched, found := [], {};
      for i := 0 to |proxies|
        invariant switched == Switched(proxies[..i], requested, enabled)
        invariant forall id :: id in found <==> id in requested && Listed(proxies[..i], id)
      {
        var p := proxies[i];
        ListedInLonger(proxies, i);
        assert proxies[..i + 1] == proxies[..i] + [p];
        SwitchedAppends(proxies[..i], p, requested, enabled);
        if p.id in requested {
          switched, found := switched + [p.(enabled := enabled)], found + {p.id};
        } else {
          switched := switched + [p];
        }
      }
      assert proxies[..|proxies|] == proxies;
    }

    method DeleteProxies(ids: seq<string>) returns (ok: bool)
      modifies this
      ensures State() == Step(old(State()), Remove(ids)) && cursor == old(cursor)
      ensures ok == Delete(old(State()), ids).Success?
    {
      var requested := Unique(Requested(ids));
      var rest := Filter(IdNotIn(requested), proxies);
      if requested == [] || |proxies| - |rest| != |requested| { return false; }
      proxies, selected := rest, Filter(NotIn(requested), selected);
      return true;
    }

    method ProxyCandidates() returns (offered: seq<Proxy>)
      modifies this`cursor
      ensures (offered, cursor) == Offer(State(), old(cursor))
    {
      var candidates := Candidates(proxies, selected);
      if candidates == [] { return []; }
      if !rotate { return candidates[..1]; }
      var start := cursor % |candidates|;
      cursor := (cursor + 1) % |candidates|;
      return candidates[start..] + candidates[..start];
    }
  }

  lemma ListedInLonger(proxies: seq<Proxy>, i: nat)
    requires i < |proxies|
    ensures forall id :: Listed(proxies[..i + 1], id) <==> Listed(proxies[..i], id) || id == proxies[i].id
  {
    var shorter, longer := proxies[..i], proxies[..i + 1];
    assert longer == shorter + [proxies[i]];
    forall id ensures Listed(longer, id) <==> Listed(shorter, id) || id == proxies[i].id {
      if Listed(shorter, id) {
        var k :| 0 <= k < |shorter| && shorter[k].id == id;
        assert longer[k].id == id;
      }
      if id == proxies[i].id { assert longer[i].id == id; }
    }
  }
}
