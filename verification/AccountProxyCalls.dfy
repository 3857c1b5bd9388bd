/** What each operation on the proxy list means for its entries, its selection and what is offered. */
module AccountProxyCalls {
  import opened Util
  import opened AccountProxies
  import ProxyUrl

  /** The request names the identifier, perhaps with whitespace around it. */
  ghost predicate Names(ids: seq<string>, id: Id) { exists i :: 0 <= i < |ids| && Strip(ids[i]) == id }

  ghost predicate Has(proxies: seq<Proxy>, id: Id) { exists p :: p in proxies && p.id == id }

  ghost predicate HasEnabled(proxies: seq<Proxy>, id: Id) { exists p :: p in proxies && p.id == id && p.enabled }

  lemma {:induction false} RequestedMeans(ids: seq<string>, id: Id)
    ensures id in Requested(ids) <==> Names(ids, id)
  {
    if ids != [] {
      RequestedMeans(ids[1..], id);
      if i :| 0 <= i < |ids| && Strip(ids[i]) == id { assert i > 0 ==> Strip(ids[1..][i - 1]) == id; }
      if i :| 0 <= i < |ids[1..]| && Strip(ids[1..][i]) == id { assert Strip(ids[i + 1]) == id; }
      assert Strip(ids[0]) == id ==> Names(ids, id);
    }
  }

  lemma UniqueRequested(ids: seq<string>)
    ensures forall id: Id :: id in Unique(Requested(ids)) <==> Names(ids, id)
    ensures Unique(Requested(ids)) == [] <==> forall id: Id :: !Names(ids, id)
  {
    forall id: Id ensures id in Unique(Requested(ids)) <==> Names(ids, id) { RequestedMeans(ids, id); }
    var u := Unique(Requested(ids));
    assert u != [] ==> u[0] in u;
  }

  lemma ListedMeans(proxies: seq<Proxy>, id: Id)
    ensures Listed(proxies, id) <==> Has(proxies, id)
    ensures Selectable(proxies, id) <==> HasEnabled(proxies, id)
  {
  }

  // ---- what stays, and in which order --------------------------------------------------------------------

  /** `kept` holds exactly the elements of `all` that satisfy `p`, in the order in which they stood. */
  ghost predicate KeepsExactly<T(!new)>(all: seq<T>, kept: seq<T>, p: T -> bool)
  {
    && (forall x :: x in kept <==> x in all && p(x))
    && forall i, j :: 0 <= i < j < |kept| ==> InOrderIn(all, kept[i], kept[j])
  }

  ghost predicate InOrderIn<T(!new)>(all: seq<T>, x: T, y: T)
  {
    exists i, j :: 0 <= i < j < |all| && all[i] == x && all[j] == y
  }

  lemma FilterKeepsExactly<T(!new)>(all: seq<T>, p: T -> bool)
    ensures KeepsExactly(all, Filter(p, all), p)
  {
    var kept := Filter(p, all);
    forall i, j | 0 <= i < j < |kept| ensures InOrderIn(all, kept[i], kept[j]) {
      FilterOrder(all, p, i, j);
    }
  }

  lemma FilterOrder<T(!new)>(all: seq<T>, p: T -> bool, i: nat, j: nat)
    requires i < j < |Filter(p, all)|
    ensures InOrderIn(all, Filter(p, all)[i], Filter(p, all)[j])
  {
    var at := FilterPosition(p, all, j);
    assert all == all[..at] + all[at..];
    FilterOfSum(p, all[..at], all[at..]);
    assert Filter(p, all)[i] in Filter(p, all[..at]);
    var k :| 0 <= k < at && all[..at][k] == Filter(p, all)[i];
    assert all[k] == Filter(p, all)[i];
  }

  // ---- the operations ------------------------------------------------------------------------------------------

  /**
   * A deletion that names nothing or something that is not there is refused. Otherwise exactly the named
   * proxies go, from the list and from the selection, and all others stay in their order.
   */
  lemma DeleteMeans(s: Store, ids: seq<string>)
    requires Inv(s)
    ensures match Delete(s, ids)
      case Failure(e) =>
        && (e == NothingRequested || e == Unknown)
        && (e == NothingRequested <==> forall id: Id :: !Names(ids, id))
        && (e == Unknown ==> exists id: Id :: Names(ids, id) && !Has(s.proxies, id))
      case Success(r) =>
        && (forall id: Id :: Names(ids, id) ==> Has(s.proxies, id)) && (exists id: Id :: Names(ids, id))
        && r.rotate == s.rotate
        && (forall p :: p in r.proxies <==> p in s.proxies && !Names(ids, p.id))
        && (forall id :: id in r.selected <==> id in s.selected && !Names(ids, id))
        && (forall i, j :: 0 <= i < j < |r.proxies| ==> InOrderIn(s.proxies, r.proxies[i], r.proxies[j]))
        && (forall i, j :: 0 <= i < j < |r.selected| ==> InOrderIn(s.selected, r.selected[i], r.selected[j]))
  {
    var requested := Unique(Requested(ids));
    UniqueRequested(ids);
    DeleteFailsExactly(s, ids);
    forall id ensures Listed(s.proxies, id) <==> Has(s.proxies, id) { ListedMeans(s.proxies, id); }
    FilterKeepsExactly(s.proxies, IdNotIn(requested));
    FilterKeepsExactly(s.selected, NotIn(requested));
    if requested != [] { assert Names(ids, requested[0]); }
  }

  /**
   * Switching that names nothing or something that is not there is refused. Otherwise exactly the named
   * proxies get the new state, and disabled ones leave the selection.
   */
  lemma SwitchMeans(s: Store, ids: seq<string>, enabled: bool)
    ensures match SetEnabled(s, ids, enabled)
      case Failure(e) =>
        && (e == NothingRequested || e == Unknown)
        && (e == NothingRequested <==> forall id: Id :: !Names(ids, id))
        && (e == Unknown ==> exists id: Id :: Names(ids, id) && !Has(s.proxies, id))
      case Success(r) =>
        && (forall id: Id :: Names(ids, id) ==> Has(s.proxies, id)) && (exists id: Id :: Names(ids, id))
        && r.rotate == s.rotate && |r.proxies| == |s.proxies|
        && (forall i :: 0 <= i < |r.proxies| ==>
             r.proxies[i] == s.proxies[i].(enabled :=
               if Names(ids, s.proxies[i].id) then enabled else s.proxies[i].enabled))
        && (enabled ==> r.selected == s.selected)
        && (!enabled ==>
             && (forall id :: id in r.selected <==> id in s.selected && !Names(ids, id))
             && (forall i, j :: 0 <= i < j < |r.selected| ==> InOrderIn(s.selected, r.selected[i], r.selected[j])))
  {
    var requested := Unique(Requested(ids));
    UniqueRequested(ids);
    forall id ensures Listed(s.proxies, id) <==> Has(s.proxies, id) { ListedMeans(s.proxies, id); }
    FilterKeepsExactly(s.selected, NotIn(requested));
    if requested != [] { assert Names(ids, requested[0]); }
  }

  /** The identifier that is named first comes first: later repetitions count for nothing. */
  ghost predicate FirstNamedBefore(ids: seq<string>, x: Id, y: Id)
  {
    exists i :: 0 <= i < |ids| && Strip(ids[i]) == x && forall k :: 0 <= k <= i ==> Strip(ids[k]) != y
  }

  lemma {:induction false} UniqueOrder(ids: seq<Id>, i: nat, j: nat)
    requires i < j < |Unique(ids)|
    ensures exists k ::
      0 <= k < |ids| && ids[k] == Unique(ids)[i] && forall l :: 0 <= l <= k ==> ids[l] != Unique(ids)[j]
  {
    var past := ids[..|ids| - 1];
    if j < |Unique(past)| {
      UniqueOrder(past, i, j);
      var k :| 0 <= k < |past| && past[k] == Unique(past)[i] && forall l :: 0 <= l <= k ==> past[l] != Unique(past)[j];
      assert ids[k] == Unique(ids)[i];
    } else {
      assert Unique(ids)[i] in past;
      var k :| 0 <= k < |past| && past[k] == Unique(ids)[i];
      assert ids[k] == Unique(ids)[i];
      forall l | 0 <= l <= k ensures ids[l] != Unique(ids)[j] {
        assert past[l] in Unique(past);
      }
    }
  }

  /** Where the requested identifier `k` was named. */
  lemma {:induction false} RequestedAt(ids: seq<string>, k: nat) returns (at: nat)
    requires k < |Requested(ids)|
    ensures at < |ids| && Strip(ids[at]) == Requested(ids)[k]
    ensures Requested(ids[..at]) == Requested(ids)[..k]
  {
    var head := if Strip(ids[0]) == "" then [] else [Strip(ids[0])];
    var rest := Requested(ids[1..]);
    if k < |head| {
      at := 0;
    } else {
      var i := RequestedAt(ids[1..], k - |head|);
      at := i + 1;
      PrefixStep(ids, i);
      RequestedHead(ids[0], ids[1..][..i]);
      assert (head + rest)[..k] == head + rest[..k - |head|];
    }
  }

  lemma RequestedHead(first: string, rest: seq<string>)
    ensures Requested([first] + rest) == (if Strip(first) == "" then [] else [Strip(first)]) + Requested(rest)
  {
    assert ([first] + rest)[1..] == rest;
  }

  lemma NamedBefore(ids: seq<string>, k: nat, y: Id)
    requires k < |Requested(ids)| && forall l :: 0 <= l <= k ==> Requested(ids)[l] != y
    ensures FirstNamedBefore(ids, Requested(ids)[k], y)
  {
    var at := RequestedAt(ids, k);
    RequestedMeans(ids[..at], y);
    assert forall l :: 0 <= l < at ==> ids[..at][l] == ids[l];
  }

  lemma SelectionOrder(ids: seq<string>, i: nat, j: nat)
    requires i < j < |Unique(Requested(ids))|
    ensures FirstNamedBefore(ids, Unique(Requested(ids))[i], Unique(Requested(ids))[j])
  {
    var r := Requested(ids);
    UniqueOrder(r, i, j);
    var k :| 0 <= k < |r| && r[k] == Unique(r)[i] && forall l :: 0 <= l <= k ==> r[l] != Unique(r)[j];
    NamedBefore(ids, k, Unique(r)[j]);
  }

  /** A selection is refused exactly when it names a missing or disabled proxy; else it replaces the old one. */
  lemma SelectMeans(s: Store, ids: seq<string>, rotate: bool)
    ensures match Select(s, ids, rotate)
      case Failure(e) => e == NotSelectable && exists id: Id :: Names(ids, id) && !HasEnabled(s.proxies, id)
      case Success(r) =>
        && (forall id: Id :: Names(ids, id) ==> HasEnabled(s.proxies, id))
        && r.proxies == s.proxies && r.rotate == rotate
        && Distinct(r.selected) && (forall id :: id in r.selected <==> Names(ids, id))
        && forall i, j :: 0 <= i < j < |r.selected| ==> FirstNamedBefore(ids, r.selected[i], r.selected[j])
  {
    var requested := Unique(Requested(ids));
    UniqueRequested(ids);
    forall id ensures Selectable(s.proxies, id) <==> HasEnabled(s.proxies, id) { ListedMeans(s.proxies, id); }
    forall i, j | 0 <= i < j < |requested| ensures FirstNamedBefore(ids, requested[i], requested[j]) {
      SelectionOrder(ids, i, j);
    }
  }

  // ---- imports ---------------------------------------------------------------------------------------------

  type Line = (Id, ProxyUrl.Entry)

  /** The identifiers of the lines that the list does not have yet. */
  ghost function NewIds(proxies: seq<Proxy>, parsed: seq<Line>): set<Id>
  {
    set i | 0 <= i < |parsed| && !Has(proxies, parsed[i].0) :: parsed[i].0
  }

  /** Line `i` is the first one of an identifier that the list does not have yet. */
  ghost predicate FirstNew(proxies: seq<Proxy>, parsed: seq<Line>, i: nat)
  {
    && i < |parsed| && !Has(proxies, parsed[i].0)
    && forall k :: 0 <= k < i ==> parsed[k].0 != parsed[i].0
  }

  function FromLine(line: Line): Proxy { Proxy(line.0, true, line.1) }

  ghost predicate OfFirstLine(proxies: seq<Proxy>, parsed: seq<Line>, p: Proxy)
  {
    exists i: nat :: FirstNew(proxies, parsed, i) && p == FromLine(parsed[i])
  }

  lemma NewIdsStep(proxies: seq<Proxy>, parsed: seq<Line>)
    requires parsed != []
    ensures var (id, entry) := parsed[0];
      if Has(proxies, id) then NewIds(proxies, parsed) == NewIds(proxies, parsed[1..])
      else
        && id !in NewIds(proxies + [Proxy(id, true, entry)], parsed[1..])
        && NewIds(proxies, parsed) == NewIds(proxies + [Proxy(id, true, entry)], parsed[1..]) + {id}
        && |NewIds(proxies, parsed)| == |NewIds(proxies + [Proxy(id, true, entry)], parsed[1..])| + 1
  {
    var (id, entry) := parsed[0];
    var rest := parsed[1..];
    assert forall i :: 0 <= i < |rest| ==> rest[i] == parsed[i + 1];
    if Has(proxies, id) {
      assert forall x :: x in NewIds(proxies, parsed) ==> x in NewIds(proxies, rest);
    } else {
      var longer := proxies + [Proxy(id, true, entry)];
      HasMore(proxies, Proxy(id, true, entry));
      assert forall x :: x in NewIds(proxies, parsed) ==> x in NewIds(longer, rest) + {id};
    }
  }

  lemma HasMore(proxies: seq<Proxy>, p: Proxy)
    ensures forall id :: Has(proxies + [p], id) <==> Has(proxies, id) || id == p.id
  {
    assert p in proxies + [p];
  }

  lemma FirstNewStep(proxies: seq<Proxy>, parsed: seq<Line>, i: nat)
    requires parsed != [] && i < |parsed|
    ensures var p := FromLine(parsed[0]);
      FirstNew(proxies, parsed, i) <==>
        if Has(proxies, p.id) then i > 0 && FirstNew(proxies, parsed[1..], i - 1)
        else i == 0 || FirstNew(proxies + [p], parsed[1..], i - 1)
  {
    HasMore(proxies, FromLine(parsed[0]));
    assert forall k :: 0 < k < i ==> parsed[1..][k - 1] == parsed[k];
    if i > 0 { LaterLines(parsed, i); }
  }

  /** Whether the earlier lines have another identifier. */
  lemma LaterLines(parsed: seq<Line>, i: nat)
    requires 0 < i < |parsed|
    ensures (forall k :: 0 <= k < i ==> parsed[k].0 != parsed[i].0) <==>
      parsed[0].0 != parsed[i].0 && forall k :: 0 <= k < i - 1 ==> parsed[1..][k].0 != parsed[1..][i - 1].0
  {
    var rest := parsed[1..];
    if parsed[0].0 != parsed[i].0 && forall k :: 0 <= k < i - 1 ==> rest[k].0 != rest[i - 1].0 {
      forall k | 0 <= k < i ensures parsed[k].0 != parsed[i].0 {
        if k > 0 { assert rest[k - 1] == parsed[k]; }
      }
    }
  }

  lemma OfFirstLineStep(proxies: seq<Proxy>, parsed: seq<Line>, p: Proxy)
    requires parsed != []
    ensures var q := FromLine(parsed[0]);
      OfFirstLine(proxies, parsed, p) <==>
        if Has(proxies, q.id) then OfFirstLine(proxies, parsed[1..], p)
        else p == q || OfFirstLine(proxies + [q], parsed[1..], p)
  {
    var q := FromLine(parsed[0]);
    var known := if Has(proxies, q.id) then proxies else proxies + [q];
    FirstNewStep(proxies, parsed, 0);
    if i: nat :| FirstNew(proxies, parsed, i) && p == FromLine(parsed[i]) {
      FirstNewStep(proxies, parsed, i);
      if i > 0 { assert FirstNew(known, parsed[1..], i - 1) && parsed[1..][i - 1] == parsed[i]; }
    }
    if i: nat :| FirstNew(known, parsed[1..], i) && p == FromLine(parsed[1..][i]) {
      FirstNewStep(proxies, parsed, i + 1);
      assert parsed[i + 1] == parsed[1..][i];
    }
  }

  /** `ids` are the identifiers of `proxies`, in order. */
  ghost predicate SameIds(proxies: seq<Proxy>, ids: seq<Id>)
  {
    |ids| == |proxies| && forall i :: 0 <= i < |ids| ==> ids[i] == proxies[i].id
  }

  /** What one import adds at the end of the list, and where its identifiers go. */
  ghost predicate Adds(proxies: seq<Proxy>, parsed: seq<Line>, added: seq<Proxy>)
  {
    forall p :: p in added <==> OfFirstLine(proxies, parsed, p)
  }

  lemma {:induction false} AddedMeans(proxies: seq<Proxy>, ids: seq<Id>, parsed: seq<Line>)
    returns (added: seq<Proxy>, more: seq<Id>)
    requires |proxies| <= MAX_PROXIES
    ensures Added(proxies, ids, parsed).None? <==> |proxies| + |NewIds(proxies, parsed)| > MAX_PROXIES
    ensures Added(proxies, ids, parsed).Some? ==>
      Added(proxies, ids, parsed).value == (proxies + added, ids + more) && SameIds(added, more)
        && Adds(proxies, parsed, added)
    decreases |parsed|
  {
    added, more := [], [];
    if parsed == [] {
      assert NewIds(proxies, parsed) == {} && proxies + added == proxies && ids + more == ids;
    } else {
      var p, rest := FromLine(parsed[0]), parsed[1..];
      NewIdsStep(proxies, parsed);
      ListedMeans(proxies, p.id);
      if Has(proxies, p.id) {
        added, more := AddedMeans(proxies, ids, rest);
      } else if |proxies| < MAX_PROXIES {
        var later, laterIds := AddedMeans(proxies + [p], ids + [p.id], rest);
        added, more := [p] + later, [p.id] + laterIds;
        assert proxies + [p] + later == proxies + added && ids + [p.id] + laterIds == ids + more;
      }
      forall q ensures OfFirstLine(proxies, parsed, q) <==>
        if Has(proxies, p.id) then OfFirstLine(proxies, rest, q) else q == p || OfFirstLine(proxies + [p], rest, q)
      {
        OfFirstLineStep(proxies, parsed, q);
      }
    }
  }

  lemma {:induction false} UniqueOfDistinct(ids: seq<Id>)
    requires Distinct(ids)
    ensures Unique(ids) == ids
  {
    if ids != [] {
      UniqueOfDistinct(ids[..|ids| - 1]);
      assert ids[|ids| - 1] !in ids[..|ids| - 1];
    }
  }

  /**
   * An import is refused exactly when the list would grow beyond 300. Otherwise the first line of each new
   * identifier becomes an enabled proxy at the end of the list and of the selection.
   */
  lemma ImportMeans(s: Store, parsed: seq<Line>) returns (added: seq<Proxy>, more: seq<Id>)
    requires Inv(s)
    ensures Import(s, parsed) == Failure(TooMany) <==> |s.proxies| + |NewIds(s.proxies, parsed)| > 300
    ensures |s.proxies| + |NewIds(s.proxies, parsed)| <= 300 ==>
      && Import(s, parsed) == Success(s.(proxies := s.proxies + added, selected := s.selected + more))
      && SameIds(added, more) && Adds(s.proxies, parsed, added) && DistinctIds(added)
  {
    added, more := AddedMeans(s.proxies, [], parsed);
    ImportKeepsInv(s, parsed);
    var r := Import(s, parsed);
    if r.Success? {
      AddedKeeps(s.proxies, [], parsed);
      assert [] + more == more;
      AddedAreDistinct(s, added, more);
      UniqueOfDistinct(s.selected + more);
    }
  }

  lemma AddedAreDistinct(s: Store, added: seq<Proxy>, more: seq<Id>)
    requires Inv(s) && DistinctIds(s.proxies + added) && SameIds(added, more)
    ensures DistinctIds(added) && Distinct(s.selected + more)
  {
    var all := s.proxies + added;
    forall i, j | 0 <= i < j < |added| ensures added[i].id != added[j].id {
      assert all[|s.proxies| + i] == added[i] && all[|s.proxies| + j] == added[j];
    }
    forall i, j | 0 <= i < |s.selected| && 0 <= j < |more| ensures s.selected[i] != more[j] {
      assert s.selected[i] in s.selected;
      var k :| 0 <= k < |s.proxies| && s.proxies[k].id == s.selected[i] && s.proxies[k].enabled;
      assert all[k] == s.proxies[k] && all[|s.proxies| + j] == added[j];
    }
  }

  // ---- offers ------------------------------------------------------------------------------------------------

  /** The listed, enabled proxy of each selected identifier, in the order of selection. */
  ghost predicate Usable(s: Store, found: seq<Proxy>)
  {
    && |found| == |s.selected|
    && forall i :: 0 <= i < |found| ==> found[i] in s.proxies && found[i].id == s.selected[i] && found[i].enabled
  }

  lemma WrappedRemainder(cursor: nat, i: nat, n: nat)
    requires i < n
    ensures Wrap(cursor % n + i, n) == (cursor + i) % n
  {
    var q, r := cursor / n, cursor % n;
    if r + i < n {
      RemainderIsUnique(cursor + i, q, r + i, n);
    } else {
      assert (q + 1) * n == q * n + n;
      RemainderIsUnique(cursor + i, q + 1, r + i - n, n);
    }
  }

  /**
   * Without a selection nothing is offered. Without rotation only the first selected proxy is, always the
   * same; with it all are, from the cursor on and around, and the next offer begins one further.
   */
  lemma OfferMeans(s: Store, cursor: nat) returns (found: seq<Proxy>)
    requires Inv(s)
    ensures Usable(s, found)
    ensures var (offered, next) := Offer(s, cursor);
      if s.selected == [] then offered == [] && next == cursor
      else if !s.rotate then offered == [found[0]] && next == cursor
      else
        var n := |found|;
        && |offered| == n && next == (cursor + 1) % n
        && forall i :: 0 <= i < n ==> offered[i] == found[(cursor + i) % n]
  {
    found := Candidates(s.proxies, s.selected);
    CandidatesAreSelection(s.proxies, s.selected);
    if s.selected != [] && s.rotate {
      forall i | 0 <= i < |found| ensures Rotation(found, cursor)[i] == found[(cursor + i) % |found|] {
        RotationAt(found, cursor, i);
        WrappedRemainder(cursor, i, |found|);
      }
    }
  }
}
