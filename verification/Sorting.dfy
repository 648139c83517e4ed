/** Sorting and filtering, with the facts the other modules use about them. */
module Sorting {

  lemma HasElement(keys: set<int>)
    ensures keys == {} || exists k :: k in keys
  {
    if forall k :: k !in keys {
      assert forall k :: k in keys <==> k in {};
    }
  }

  lemma HasText(keys: set<string>)
    ensures keys == {} || exists k :: k in keys
  {
  }

  lemma {:induction false} LeastExists(keys: set<int>)
    requires keys != {}
    ensures exists m :: m in keys && forall k :: k in keys ==> m <= k
  {
    HasElement(keys);
    var x :| x in keys;
    var rest := keys - {x};
    if rest == {} {
      assert keys == {x};
    } else {
      LeastExists(rest);
      var m :| m in rest && forall k :: k in rest ==> m <= k;
      var least := if x <= m then x else m;
      assert forall k :: k in keys ==> k == x || k in rest;
      assert least in keys && forall k :: k in keys ==> least <= k;
    }
  }

  method Sorted(keys: set<int>) returns (rows: seq<int>)
    ensures forall r :: r in rows <==> r in keys
    ensures forall i, j :: 0 <= i < j < |rows| ==> rows[i] < rows[j]
  {
    rows := [];
    var rest := keys;
    while rest != {}
      invariant rest <= keys
      invariant forall r :: r in keys <==> r in rows || r in rest
      invariant forall i, j :: 0 <= i < j < |rows| ==> rows[i] < rows[j]
      invariant forall i, k :: 0 <= i < |rows| && k in rest ==> rows[i] < k
      decreases rest
    {
      LeastExists(rest);
      var m :| m in rest && forall k :: k in rest ==> m <= k;
      rows := rows + [m];
      rest := rest - {m};
    }
  }

  // ----- Texts -----

  /** Text order by code point, as tuples of strings compare. */
  predicate TextLe(a: string, b: string) {
    a == [] || (b != [] && (a[0] < b[0] || (a[0] == b[0] && TextLe(a[1..], b[1..]))))
  }

  lemma {:induction false} TextTotal(a: string, b: string)
    ensures TextLe(a, b) || TextLe(b, a)
    ensures TextLe(a, b) && TextLe(b, a) ==> a == b
  {
    if a != [] && b != [] && a[0] == b[0] {
      TextTotal(a[1..], b[1..]);
      assert a == [a[0]] + a[1..] && b == [b[0]] + b[1..];
    }
  }

  lemma {:induction false} TextTransitive(a: string, b: string, c: string)
    requires TextLe(a, b) && TextLe(b, c)
    ensures TextLe(a, c)
  {
    if a != [] && a[0] == b[0] == c[0] {
      TextTransitive(a[1..], b[1..], c[1..]);
    }
  }

  /** The usual meaning: a proper prefix comes first, else the first difference decides. */
  ghost predicate Precedes(a: string, b: string) {
    a < b || exists n :: DiffersFirst(a, b, n) && a[n] < b[n]
  }

  ghost predicate DiffersFirst(a: string, b: string, n: int) {
    0 <= n < |a| && n < |b| && a[..n] == b[..n] && a[n] != b[n]
  }

  lemma {:induction false} TextLeMeans(a: string, b: string)
    ensures TextLe(a, b) <==> a == b || Precedes(a, b)
  {
    if a != [] && b != [] {
      assert DiffersFirst(a, b, 0) <==> a[0] != b[0];
      if a[0] == b[0] {
        TextLeMeans(a[1..], b[1..]);
        assert a == [a[0]] + a[1..] && b == [b[0]] + b[1..];
        forall n ensures DiffersFirst(a, b, n + 1) <==> DiffersFirst(a[1..], b[1..], n) {
          SharedFirst(a, b, n);
        }
        if n :| DiffersFirst(a, b, n) && a[n] < b[n] {
          assert DiffersFirst(a[1..], b[1..], n - 1);
        }
        if n :| DiffersFirst(a[1..], b[1..], n) && a[1..][n] < b[1..][n] {
          assert DiffersFirst(a, b, n + 1);
        }
      }
    }
  }

  lemma SharedFirst(a: string, b: string, n: int)
    requires a != [] && b != [] && a[0] == b[0]
    ensures DiffersFirst(a, b, n + 1) <==> DiffersFirst(a[1..], b[1..], n)
  {
    if 0 <= n < |a| - 1 && n < |b| - 1 {
      assert a[..n + 1] == [a[0]] + a[1..][..n] && b[..n + 1] == [b[0]] + b[1..][..n];
    }
  }

  ghost predicate Ascending(texts: seq<string>) {
    forall i, j :: 0 <= i < j < |texts| ==> TextLe(texts[i], texts[j]) && texts[i] != texts[j]
  }

  lemma {:induction false} LeastTextExists(keys: set<string>)
    requires keys != {}
    ensures exists m :: m in keys && forall k :: k in keys ==> TextLe(m, k)
  {
    HasText(keys);
    var x :| x in keys;
    TextTotal(x, x);
    var rest := keys - {x};
    if rest == {} {
      assert keys == {x};
    } else {
      LeastTextExists(rest);
      var m :| m in rest && forall k :: k in rest ==> TextLe(m, k);
      TextTotal(x, m);
      var least := if TextLe(x, m) then x else m;
      forall k | k in keys ensures TextLe(least, k) {
        if k != x && least == x {
          TextTransitive(x, m, k);
        }
      }
    }
  }

  method SortedTexts(keys: set<string>) returns (texts: seq<string>)
    ensures forall t :: t in texts <==> t in keys
    ensures Ascending(texts)
  {
    texts := [];
    var rest := keys;
    while rest != {}
      invariant rest <= keys
      invariant forall t :: t in keys <==> t in texts || t in rest
      invariant Ascending(texts)
      invariant forall i, k :: 0 <= i < |texts| && k in rest ==> TextLe(texts[i], k) && texts[i] != k
      decreases |rest|
    {
      LeastTextExists(rest);
      var m :| m in rest && forall k :: k in rest ==> TextLe(m, k);
      texts := texts + [m];
      rest := rest - {m};
    }
  }

  // ----- Filtering -----

  function Filter<T>(s: seq<T>, p: T -> bool): seq<T> {
    if s == [] then []
    else Filter(s[..|s| - 1], p) + if p(s[|s| - 1]) then [s[|s| - 1]] else []
  }

  lemma {:induction false} FilterMembers<T>(s: seq<T>, p: T -> bool)
    ensures forall x :: x in Filter(s, p) <==> x in s && p(x)
    ensures |Filter(s, p)| <= |s|
  {
    if s != [] {
      FilterMembers(s[..|s| - 1], p);
      assert s == s[..|s| - 1] + [s[|s| - 1]];
    }
  }

  lemma FilterAppend<T>(s: seq<T>, x: T, p: T -> bool)
    ensures Filter(s + [x], p) == Filter(s, p) + if p(x) then [x] else []
  {
  }

  lemma FilterStep<T>(s: seq<T>, n: nat, p: T -> bool)
    requires n < |s|
    ensures Filter(s[..n + 1], p) == Filter(s[..n], p) + if p(s[n]) then [s[n]] else []
  {
    assert s[..n + 1] == s[..n] + [s[n]];
    FilterAppend(s[..n], s[n], p);
  }

  /** Dropping a tail with no matches changes nothing. */
  lemma {:induction false} FilterPrefix<T>(s: seq<T>, n: nat, p: T -> bool, q: T -> bool)
    requires n <= |s|
    requires forall i :: 0 <= i < n ==> p(s[i]) == q(s[i])
    requires forall i :: n <= i < |s| ==> !q(s[i])
    ensures Filter(s[..n], p) == Filter(s, q)
    decreases |s|
  {
    if s != [] {
      var front := s[..|s| - 1];
      if n == |s| {
        assert s[..n] == s;
        FilterPrefix(front, n - 1, p, q);
        assert front[..n - 1] == front;
      } else {
        FilterPrefix(front, n, p, q);
        assert front[..n] == s[..n];
      }
    }
  }

  ghost predicate Distinct<T>(s: seq<T>) {
    forall i, j :: 0 <= i < j < |s| ==> s[i] != s[j]
  }

  // ----- Sorting by a total preorder -----

  ghost predicate TotalPreorder<T(!new)>(le: (T, T) -> bool) {
    && (forall x, y :: le(x, y) || le(y, x))
    && (forall x, y, z :: le(x, y) && le(y, z) ==> le(x, z))
  }

  ghost predicate SortedBy<T>(s: seq<T>, le: (T, T) -> bool) {
    forall i, j :: 0 <= i < j < |s| ==> le(s[i], s[j])
  }

  function Insert<T>(x: T, s: seq<T>, le: (T, T) -> bool): seq<T> {
    if s == [] || le(x, s[0]) then [x] + s else [s[0]] + Insert(x, s[1..], le)
  }

  function SortBy<T>(s: seq<T>, le: (T, T) -> bool): seq<T> {
    if s == [] then [] else Insert(s[0], SortBy(s[1..], le), le)
  }

  lemma {:induction false} InsertSorts<T(!new)>(x: T, s: seq<T>, le: (T, T) -> bool)
    requires TotalPreorder(le) && SortedBy(s, le)
    ensures SortedBy(Insert(x, s, le), le)
    ensures multiset(Insert(x, s, le)) == multiset(s) + multiset{x}
  {
    if s == [] || le(x, s[0]) {
      assert forall i :: 0 < i < |s| ==> le(s[0], s[i]);
    } else {
      InsertSorts(x, s[1..], le);
      HeadStaysLeast(s, x, Insert(x, s[1..], le), le);
      assert s == [s[0]] + s[1..];
    }
  }

  lemma HeadStaysLeast<T>(s: seq<T>, x: T, rest: seq<T>, le: (T, T) -> bool)
    requires s != [] && SortedBy(s, le) && le(s[0], x)
    requires multiset(rest) == multiset(s[1..]) + multiset{x}
    ensures forall i :: 0 <= i < |rest| ==> le(s[0], rest[i])
  {
    forall i | 0 <= i < |rest| ensures le(s[0], rest[i]) {
      assert rest[i] in multiset(rest);
      if rest[i] != x {
        assert rest[i] in s[1..];
      }
    }
  }

  lemma SameMembers<T>(s: seq<T>, t: seq<T>)
    requires multiset(s) == multiset(t)
    ensures |s| == |t|
    ensures forall x :: x in s <==> x in t
  {
    assert |multiset(s)| == |multiset(t)|;
    forall x ensures x in s <==> x in t {
      assert x in multiset(s) <==> x in multiset(t);
    }
  }

  lemma {:induction false} SortBySorts<T(!new)>(s: seq<T>, le: (T, T) -> bool)
    requires TotalPreorder(le)
    ensures SortedBy(SortBy(s, le), le)
    ensures multiset(SortBy(s, le)) == multiset(s)
    ensures |SortBy(s, le)| == |s|
    ensures forall x :: x in SortBy(s, le) <==> x in s
  {
    if s != [] {
      SortBySorts(s[1..], le);
      InsertSorts(s[0], SortBy(s[1..], le), le);
      assert s == [s[0]] + s[1..];
    }
    SameMembers(SortBy(s, le), s);
  }

  // ----- Binary search -----

  /** How many leading entries of a sorted list are at most `x`. */
  method BisectRight(keys: seq<int>, x: int) returns (position: nat)
    requires forall i, j :: 0 <= i < j < |keys| ==> keys[i] <= keys[j]
    ensures position <= |keys|
    ensures forall i :: 0 <= i < position ==> keys[i] <= x
    ensures forall i :: position <= i < |keys| ==> x < keys[i]
  {
    var lo, hi := 0, |keys|;
    while lo < hi
      invariant 0 <= lo <= hi <= |keys|
      invariant forall i :: 0 <= i < lo ==> keys[i] <= x
      invariant forall i :: hi <= i < |keys| ==> x < keys[i]
    {
      var middle := (lo + hi) / 2;
      if x < keys[middle] {
        hi := middle;
      } else {
        lo := middle + 1;
      }
    }
    position := lo;
  }
}
