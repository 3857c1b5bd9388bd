/** Shared vocabulary: optional values, results, bounded arithmetic and a stable sort. */
module Util {

  datatype Option<+T> = None | Some(value: T)

  datatype Result<+T, +E> = Success(value: T) | Failure(error: E)

  function Max(a: int, b: int): int { if a < b then b else a }

  function Min(a: int, b: int): int { if a < b then a else b }

  /** The first `n` characters of `s`, as a Python slice `s[:n]` takes them. */
  function Clip(s: string, n: nat): string { if |s| <= n then s else s[..n] }

  /** The characters `str.strip` removes. */
  predicate IsSpace(c: char)
  {
    var n := c as int;
    || 9 <= n <= 13 || 28 <= n <= 32 || n == 0x85 || n == 0xA0 || n == 0x1680 || 0x2000 <= n <= 0x200A
    || n == 0x2028 || n == 0x2029 || n == 0x202F || n == 0x205F || n == 0x3000
  }

  /** Whether stripping leaves nothing. */
  predicate Blank(s: string) { forall i :: 0 <= i < |s| ==> IsSpace(s[i]) }

  function StripLeft(s: string): string { if s != "" && IsSpace(s[0]) then StripLeft(s[1..]) else s }

  function StripRight(s: string): string
  {
    if s != "" && IsSpace(s[|s| - 1]) then StripRight(s[..|s| - 1]) else s
  }

  function Strip(s: string): string { StripRight(StripLeft(s)) }

  predicate Capital(c: char) { 'A' <= c <= 'Z' }

  function LowerChar(c: char): char { if Capital(c) then (c as int + 32) as char else c }

  function AsciiLower(s: string): (r: string)
    ensures |r| == |s| && forall i :: 0 <= i < |s| ==> r[i] == LowerChar(s[i])
  {
    if s == "" then "" else [LowerChar(s[0])] + AsciiLower(s[1..])
  }

  function Filter<T(!new)>(p: T -> bool, s: seq<T>): (r: seq<T>)
    ensures forall x :: x in r <==> x in s && p(x)
  {
    if s == [] then [] else (if p(s[0]) then [s[0]] else []) + Filter(p, s[1..])
  }

  /** The order of Python strings. */
  predicate StringLe(a: string, b: string)
  {
    a == "" || (b != "" && (a[0] < b[0] || (a[0] == b[0] && StringLe(a[1..], b[1..]))))
  }

  lemma {:induction false} StringLeIsTotal(a: string, b: string)
    ensures StringLe(a, b) || StringLe(b, a)
  {
    if a != "" && b != "" { StringLeIsTotal(a[1..], b[1..]); }
  }

  lemma {:induction false} StringLeIsTransitive(a: string, b: string, c: string)
    requires StringLe(a, b) && StringLe(b, c)
    ensures StringLe(a, c)
  {
    if a != "" && a[0] == b[0] && b[0] == c[0] { StringLeIsTransitive(a[1..], b[1..], c[1..]); }
  }

  ghost predicate Distinct<T>(s: seq<T>)
  {
    forall i, j :: 0 <= i < j < |s| ==> s[i] != s[j]
  }

  /** A total preorder: what a Python sort key induces. */
  ghost predicate TotalPreorder<T(!new)>(le: (T, T) -> bool)
  {
    && (forall x, y :: le(x, y) || le(y, x))
    && (forall x, y, z :: le(x, y) && le(y, z) ==> le(x, z))
  }

  ghost predicate SortedBy<T>(le: (T, T) -> bool, s: seq<T>)
  {
    forall i, j :: 0 <= i < j < |s| ==> le(s[i], s[j])
  }

  /** Puts `x` in front of the first element that is not smaller: stable from the right. */
  function Insert<T>(le: (T, T) -> bool, x: T, s: seq<T>): (r: seq<T>)
    ensures |r| == |s| + 1
  {
    if s == [] || le(x, s[0]) then [x] + s else [s[0]] + Insert(le, x, s[1..])
  }

  /** The stable sort of `s`. */
  function Sort<T>(le: (T, T) -> bool, s: seq<T>): (r: seq<T>)
    ensures |r| == |s|
  {
    if s == [] then [] else Insert(le, s[0], Sort(le, s[1..]))
  }

  lemma {:induction false} InsertKeepsElements<T>(le: (T, T) -> bool, x: T, s: seq<T>)
    ensures multiset(Insert(le, x, s)) == multiset(s) + multiset{x}
  {
    if s != [] && !le(x, s[0]) {
      InsertKeepsElements(le, x, s[1..]);
      assert s == [s[0]] + s[1..];
    }
  }

  lemma {:induction false} SortKeepsElements<T>(le: (T, T) -> bool, s: seq<T>)
    ensures multiset(Sort(le, s)) == multiset(s)
  {
    if s != [] {
      SortKeepsElements(le, s[1..]);
      InsertKeepsElements(le, s[0], Sort(le, s[1..]));
      assert s == [s[0]] + s[1..];
    }
  }

  lemma {:induction false} InsertKeepsOrder<T(!new)>(le: (T, T) -> bool, x: T, s: seq<T>)
    requires TotalPreorder(le) && SortedBy(le, s)
    ensures SortedBy(le, Insert(le, x, s))
  {
    if s != [] && !le(x, s[0]) {
      var rest := Insert(le, x, s[1..]);
      InsertKeepsOrder(le, x, s[1..]);
      InsertKeepsElements(le, x, s[1..]);
      forall k | 0 <= k < |rest| ensures le(s[0], rest[k]) {
        assert rest[k] in multiset(rest);
        assert rest[k] == x || rest[k] in s[1..];
      }
    }
  }

  lemma {:induction false} SortOrders<T(!new)>(le: (T, T) -> bool, s: seq<T>)
    requires TotalPreorder(le)
    ensures SortedBy(le, Sort(le, s))
  {
    if s != [] {
      SortOrders(le, s[1..]);
      InsertKeepsOrder(le, s[0], Sort(le, s[1..]));
    }
  }

  lemma SortHasSameMembers<T>(le: (T, T) -> bool, s: seq<T>, x: T)
    ensures x in Sort(le, s) <==> x in s
  {
    SortKeepsElements(le, s);
    assert x in multiset(s) <==> x in multiset(Sort(le, s));
  }

  /** The head of a sorted list is a least element of the list that was sorted. */
  lemma HeadOfSortIsLeast<T(!new)>(le: (T, T) -> bool, s: seq<T>)
    requires TotalPreorder(le) && s != []
    ensures Sort(le, s)[0] in s
    ensures forall x :: x in s ==> le(Sort(le, s)[0], x)
  {
    var r := Sort(le, s);
    SortOrders(le, s);
    SortHasSameMembers(le, s, r[0]);
    forall x | x in s ensures le(r[0], x) {
      SortHasSameMembers(le, s, x);
    }
  }

  /** `x` brought back below `n`, for `x` less than `2 * n`. */
  function Wrap(x: int, n: int): int { if x < n then x else x - n }

  lemma SmallMultiple(d: int, n: int)
    requires n > 0 && -n < d * n < n
    ensures d == 0
  {
    assert d >= 1 ==> d * n >= n;
    assert d <= -1 ==> d * n <= -n;
  }

  lemma RemainderIsUnique(x: nat, q: int, r: nat, n: nat)
    requires r < n && x == q * n + r
    ensures x % n == r
  {
    var p, m := x / n, x % n;
    assert x == p * n + m;
    assert (p - q) * n == r - m;
    SmallMultiple(p - q, n);
  }

  lemma NextRemainder(c: nat, n: nat)
    requires n > 0
    ensures (c + 1) % n == Wrap(c % n + 1, n)
  {
    var q, m := c / n, c % n;
    assert c == q * n + m;
    if m + 1 < n {
      RemainderIsUnique(c + 1, q, m + 1, n);
    } else {
      assert (q + 1) * n == q * n + n;
      RemainderIsUnique(c + 1, q + 1, 0, n);
    }
  }

  lemma {:induction false} SubsetIsSmaller<T>(a: set<T>, b: set<T>)
    requires a <= b
    ensures |a| <= |b|
  {
    if a != {} {
      var x :| x in a;
      SubsetIsSmaller(a - {x}, b - {x});
    }
  }

  lemma {:induction false} StripLeftTrims(s: string)
    ensures StripLeft(s) == "" || !IsSpace(StripLeft(s)[0])
  {
    if s != "" && IsSpace(s[0]) { StripLeftTrims(s[1..]); }
  }

  lemma {:induction false} StripRightTrims(s: string)
    ensures StripRight(s) <= s
    ensures StripRight(s) == "" || !IsSpace(StripRight(s)[|StripRight(s)| - 1])
  {
    if s != "" && IsSpace(s[|s| - 1]) { StripRightTrims(s[..|s| - 1]); }
  }

  lemma StripIsIdempotent(s: string)
    ensures Strip(Strip(s)) == Strip(s)
  {
    StripLeftTrims(s);
    StripRightTrims(StripLeft(s));
  }

  lemma StripKeeps(s: string)
    requires s == "" || (!IsSpace(s[0]) && !IsSpace(s[|s| - 1]))
    ensures Strip(s) == s
  {
  }

  lemma {:induction false} InsertHead<T>(le: (T, T) -> bool, x: T, s: seq<T>)
    ensures Insert(le, x, s)[0] == if s == [] || le(x, s[0]) then x else s[0]
  {
  }

  /** Stability at the head: of the least elements the sort puts the one that came first in front. */
  lemma {:induction false} HeadOfSortIsFirst<T(!new)>(le: (T, T) -> bool, s: seq<T>) returns (at: nat)
    requires TotalPreorder(le) && s != []
    ensures at < |s| && Sort(le, s)[0] == s[at]
    ensures forall i :: 0 <= i < at ==> !le(s[i], s[at])
  {
    at := 0;
    var rest := Sort(le, s[1..]);
    InsertHead(le, s[0], rest);
    if rest != [] && !le(s[0], rest[0]) {
      var k := HeadOfSortIsFirst(le, s[1..]);
      at := k + 1;
      forall i | 0 <= i < at ensures !le(s[i], s[at]) {
        if i > 0 { assert s[i] == s[1..][i - 1]; }
      }
    }
  }

  lemma FilterStep<T(!new)>(p: T -> bool, x: T, t: seq<T>)
    ensures Filter(p, [x] + t) == (if p(x) then [x] else []) + Filter(p, t)
  {
    assert ([x] + t)[1..] == t;
  }

  lemma PrefixStep<T>(s: seq<T>, i: nat)
    requires 0 < |s| && i < |s|
    ensures s[..i + 1] == [s[0]] + s[1..][..i] && s == [s[0]] + s[1..]
  {
  }

  /** Where element `k` of a filtered list stood. */
  lemma {:induction false} FilterPosition<T(!new)>(p: T -> bool, s: seq<T>, k: nat) returns (at: nat)
    requires k < |Filter(p, s)|
    ensures at < |s| && s[at] == Filter(p, s)[k] && |Filter(p, s[..at])| == k
  {
    PrefixStep(s, 0);
    FilterStep(p, s[0], s[1..]);
    if p(s[0]) && k == 0 {
      at := 0;
      assert s[..0] == [];
    } else {
      var before := if p(s[0]) then k - 1 else k;
      var i := FilterPosition(p, s[1..], before);
      at := i + 1;
      PrefixStep(s, i);
      FilterStep(p, s[0], s[1..][..i]);
    }
  }

  lemma {:induction false} FilterOfSum<T(!new)>(p: T -> bool, a: seq<T>, b: seq<T>)
    ensures Filter(p, a + b) == Filter(p, a) + Filter(p, b)
  {
    if a == [] {
      assert a + b == b;
    } else {
      assert (a + b)[1..] == a[1..] + b;
      FilterOfSum(p, a[1..], b);
    }
  }

  /** An element that passes the filter in front of position `at` stands in front of it afterwards. */
  lemma FilterIndex<T(!new)>(p: T -> bool, s: seq<T>, i: nat, at: nat, k: nat) returns (j: nat)
    requires i < at < |s| && p(s[i]) && |Filter(p, s[..at])| == k
    ensures j < k <= |Filter(p, s)| && Filter(p, s)[j] == s[i]
  {
    assert s[i] in s[..at] by { assert s[..at][i] == s[i]; }
    assert s[i] in Filter(p, s[..at]);
    j :| 0 <= j < k && Filter(p, s[..at])[j] == s[i];
    assert s == s[..at] + s[at..];
    FilterOfSum(p, s[..at], s[at..]);
  }
}
