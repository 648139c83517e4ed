/**
 Bounded recovery of job manifests: a heap that keeps the newest of any number
 of manifests, and the choice of what a restart loads, keeps and deletes.
 */
module ManifestHeap {
  import opened Outcomes
  import opened Sorting

  // ----- The order of manifests -----

  /** What a recovery candidate is compared by. */
  datatype Item = Item(updatedAt: string, jobId: string)

  predicate Le(x: Item, y: Item) {
    if x.updatedAt == y.updatedAt then TextLe(x.jobId, y.jobId) else TextLe(x.updatedAt, y.updatedAt)
  }

  predicate Older(x: Item, y: Item) {
    Le(x, y) && x != y
  }

  lemma LeIsTotal(x: Item, y: Item)
    ensures Le(x, y) || Le(y, x)
    ensures Le(x, y) && Le(y, x) ==> x == y
  {
    TextTotal(x.updatedAt, y.updatedAt);
    TextTotal(x.jobId, y.jobId);
  }

  lemma LeIsTransitive(x: Item, y: Item, z: Item)
    requires Le(x, y) && Le(y, z)
    ensures Le(x, z)
  {
    TextTotal(x.updatedAt, y.updatedAt);
    TextTotal(y.updatedAt, z.updatedAt);
    if TextLe(x.updatedAt, y.updatedAt) && TextLe(y.updatedAt, z.updatedAt) {
      TextTransitive(x.updatedAt, y.updatedAt, z.updatedAt);
    }
    if TextLe(x.jobId, y.jobId) && TextLe(y.jobId, z.jobId) {
      TextTransitive(x.jobId, y.jobId, z.jobId);
    }
  }

  /** Updated later, or at the same time under a later id. */
  ghost predicate Newer(x: Item, y: Item) {
    Precedes(y.updatedAt, x.updatedAt) || (x.updatedAt == y.updatedAt && Precedes(y.jobId, x.jobId))
  }

  lemma NewerIsNotLe(x: Item, y: Item)
    ensures Newer(x, y) <==> !Le(x, y)
  {
    TextLeMeans(y.updatedAt, x.updatedAt);
    TextLeMeans(y.jobId, x.jobId);
    TextTotal(x.updatedAt, y.updatedAt);
    TextTotal(x.jobId, y.jobId);
    NeverBeforeItself(x.updatedAt);
    NeverBeforeItself(x.jobId);
  }

  lemma NeverBeforeItself(a: string)
    ensures !Precedes(a, a)
  {
  }

  function NewestFirst(): (Item, Item) -> bool {
    (x: Item, y: Item) => Le(y, x)
  }

  lemma NewestFirstOrders()
    ensures TotalPreorder(NewestFirst())
  {
    forall x: Item, y: Item ensures Le(y, x) || Le(x, y) {
      LeIsTotal(x, y);
    }
    forall x: Item, y: Item, z: Item | Le(y, x) && Le(z, y) ensures Le(z, x) {
      LeIsTransitive(z, y, x);
    }
  }

  // ----- The best of a collection -----

  /** Sort everything, newest first, and truncate. */
  function Best(seen: seq<Item>, limit: nat): seq<Item> {
    var sorted := SortBy(seen, NewestFirst());
    if |sorted| <= limit then sorted else sorted[..limit]
  }

  /** The newest of `all`, up to the limit, and the newest of them first. */
  ghost predicate AreNewest(chosen: seq<Item>, all: multiset<Item>, limit: nat) {
    && multiset(chosen) <= all
    && |chosen| == (if |all| <= limit then |all| else limit)
    && (forall i, j :: 0 <= i < j < |chosen| ==> !Newer(chosen[j], chosen[i]))
    && (forall x, y :: x in chosen && y in all - multiset(chosen) ==> !Newer(y, x))
  }

  lemma PrefixIsNewest(sorted: seq<Item>, n: nat)
    requires n <= |sorted| && forall i, j :: 0 <= i < j < |sorted| ==> !Newer(sorted[j], sorted[i])
    ensures AreNewest(sorted[..n], multiset(sorted), n)
  {
    var chosen, rest := sorted[..n], sorted[n..];
    assert sorted == chosen + rest;
    assert multiset(sorted) == multiset(chosen) + multiset(rest);
    assert |multiset(sorted)| == |sorted|;
    forall x, y | x in chosen && y in rest ensures !Newer(y, x) {
      var i :| 0 <= i < n && chosen[i] == x;
      var j :| 0 <= j < |rest| && rest[j] == y;
      assert sorted[i] == x && sorted[n + j] == y;
    }
    forall y | y in multiset(sorted) - multiset(chosen) ensures y in rest {
    }
  }

  lemma BestAreNewest(seen: seq<Item>, limit: nat)
    ensures AreNewest(Best(seen, limit), multiset(seen), limit)
  {
    var sorted := SortBy(seen, NewestFirst());
    NewestFirstOrders();
    SortBySorts(seen, NewestFirst());
    forall i, j | 0 <= i < j < |sorted| ensures !Newer(sorted[j], sorted[i]) {
      NewerIsNotLe(sorted[j], sorted[i]);
      assert NewestFirst()(sorted[i], sorted[j]);
    }
    PrefixIsNewest(sorted, |Best(seen, limit)|);
    assert |multiset(seen)| == |seen|;
    assert sorted[..|Best(seen, limit)|] == Best(seen, limit);
  }

  lemma NewestIsFirst(s: seq<Item>, x: Item)
    requires SortedBy(s, NewestFirst()) && x in s
    ensures Le(x, s[0])
  {
    LeIsTotal(s[0], s[0]);
    var i :| 0 <= i < |s| && s[i] == x;
    assert i > 0 ==> NewestFirst()(s[0], s[i]);
  }

  lemma TailMultiset<T>(s: seq<T>)
    requires s != []
    ensures multiset(s[1..]) == multiset(s) - multiset{s[0]}
  {
    assert s == [s[0]] + s[1..];
  }

  /** Sorted lists of the same items are the same list. */
  lemma {:induction false} SortedIsUnique(s: seq<Item>, t: seq<Item>)
    requires SortedBy(s, NewestFirst()) && SortedBy(t, NewestFirst()) && multiset(s) == multiset(t)
    ensures s == t
    decreases |s|
  {
    SameMembers(s, t);
    if s != [] {
      NewestIsFirst(t, s[0]);
      NewestIsFirst(s, t[0]);
      LeIsTotal(s[0], t[0]);
      TailMultiset(s);
      TailMultiset(t);
      SortedIsUnique(s[1..], t[1..]);
      assert s == [s[0]] + s[1..] && t == [t[0]] + t[1..];
    }
  }

  /** `kept` holds `limit` items of `seen`, or all of them, and what was left out is no newer. */
  ghost predicate KeepsBest(kept: multiset<Item>, seen: multiset<Item>, limit: nat) {
    && kept <= seen
    && |kept| == (if |seen| <= limit then |seen| else limit)
    && forall x, y :: x in kept && y in seen - kept ==> Le(y, x)
  }

  lemma JoinSorted(a: seq<Item>, b: seq<Item>)
    requires SortedBy(a, NewestFirst()) && SortedBy(b, NewestFirst())
    requires forall x, y :: x in a && y in b ==> Le(y, x)
    ensures SortedBy(a + b, NewestFirst())
  {
  }

  /** Whatever keeps the best has exactly what sorting everything and truncating has. */
  lemma KeptIsSortedPrefix(kept: seq<Item>, seen: seq<Item>, rest: seq<Item>, limit: nat)
    requires KeepsBest(multiset(kept), multiset(seen), limit)
    requires multiset(rest) == multiset(seen) - multiset(kept)
    ensures SortBy(kept, NewestFirst()) == Best(seen, limit)
  {
    NewestFirstOrders();
    var a, b, all := SortBy(kept, NewestFirst()), SortBy(rest, NewestFirst()), SortBy(seen, NewestFirst());
    SortBySorts(kept, NewestFirst());
    SortBySorts(rest, NewestFirst());
    SortBySorts(seen, NewestFirst());
    forall x, y | x in a && y in b ensures Le(y, x) {
      assert x in multiset(kept) && y in multiset(rest);
    }
    JoinSorted(a, b);
    assert multiset(a + b) == multiset(all);
    SortedIsUnique(a + b, all);
    assert |a| == |multiset(kept)| && |all| == |multiset(seen)|;
  }

  // ----- The heap -----

  function Parent(i: nat): nat
    requires i > 0
  {
    (i - 1) / 2
  }

  /** Heap order everywhere, except that the item at the hole may be out of place. */
  ghost predicate HeapExcept(s: seq<Item>, hole: nat) {
    && (forall i :: 0 < i < |s| && i != hole && Parent(i) != hole ==> Le(s[Parent(i)], s[i]))
    && (forall i :: 0 < hole < |s| && 0 < i < |s| && Parent(i) == hole ==> Le(s[Parent(hole)], s[i]))
  }

  ghost predicate IsHeap(s: seq<Item>) {
    forall i :: 0 < i < |s| ==> Le(s[Parent(i)], s[i])
  }

  lemma {:induction false} RootIsOldest(s: seq<Item>, i: nat)
    requires IsHeap(s) && i < |s|
    ensures Le(s[0], s[i])
    decreases i
  {
    if i == 0 {
      LeIsTotal(s[0], s[0]);
    } else {
      RootIsOldest(s, Parent(i));
      LeIsTransitive(s[0], s[Parent(i)], s[i]);
    }
  }

  function Swapped(s: seq<Item>, i: nat, j: nat): seq<Item>
    requires i < |s| && j < |s|
  {
    s[i := s[j]][j := s[i]]
  }

  lemma SwapKeepsItems(s: seq<Item>, i: nat, j: nat)
    requires i < |s| && j < |s|
    ensures multiset(Swapped(s, i, j)) == multiset(s)
  {
  }

  lemma RisingKeepsHeap(s: seq<Item>, pos: nat)
    requires 0 < pos < |s| && HeapExcept(s, pos) && Older(s[pos], s[Parent(pos)])
    ensures HeapExcept(Swapped(s, pos, Parent(pos)), Parent(pos))
    ensures forall i :: 0 < i < |s| && Parent(i) == Parent(pos) ==> Le(s[pos], Swapped(s, pos, Parent(pos))[i])
  {
    var up := Parent(pos);
    var t := Swapped(s, pos, up);
    forall i | 0 < i < |s| && Parent(i) == up && i != pos
      ensures Le(s[pos], s[i]) && (up > 0 ==> Le(s[Parent(up)], s[i]))
    {
      LeIsTransitive(s[pos], s[up], s[i]);
      if up > 0 {
        LeIsTransitive(s[Parent(up)], s[up], s[i]);
      }
    }
    forall i | 0 < i < |t| && i != up && Parent(i) != up ensures Le(t[Parent(i)], t[i]) {
      assert i != pos;
    }
  }

  /** Moves the item at the hole up past every newer parent (`heapq` calls this sifting down). */
  method RiseFrom(start: seq<Item>, hole: nat) returns (s: seq<Item>)
    requires hole < |start| && HeapExcept(start, hole)
    requires forall i :: 0 < i < |start| && Parent(i) == hole ==> Le(start[hole], start[i])
    ensures IsHeap(s) && multiset(s) == multiset(start)
  {
    s := start;
    var pos: nat := hole;
    while pos > 0 && Older(s[pos], s[Parent(pos)])
      invariant pos < |s| && multiset(s) == multiset(start)
      invariant HeapExcept(s, pos)
      invariant forall i :: 0 < i < |s| && Parent(i) == pos ==> Le(s[pos], s[i])
    {
      RisingKeepsHeap(s, pos);
      SwapKeepsItems(s, pos, Parent(pos));
      s := Swapped(s, pos, Parent(pos));
      pos := Parent(pos);
    }
    if pos > 0 {
      LeIsTotal(s[Parent(pos)], s[pos]);
    }
  }

  lemma SinkingKeepsHeap(s: seq<Item>, pos: nat, child: nat)
    requires child < |s| && child > 0 && Parent(child) == pos && HeapExcept(s, pos)
    requires forall i :: 0 < i < |s| && Parent(i) == pos ==> Le(s[child], s[i])
    ensures HeapExcept(Swapped(s, pos, child), child)
  {
  }

  lemma OlderChild(s: seq<Item>, pos: nat, child: nat)
    requires child < |s| && child in {2 * pos + 1, 2 * pos + 2}
    requires child == 2 * pos + 1 ==> 2 * pos + 2 >= |s| || Le(s[2 * pos + 1], s[2 * pos + 2])
    requires child == 2 * pos + 2 ==> Le(s[2 * pos + 2], s[2 * pos + 1])
    ensures Parent(child) == pos
    ensures forall i :: 0 < i < |s| && Parent(i) == pos ==> Le(s[child], s[i])
  {
    LeIsTotal(s[child], s[child]);
    forall i | 0 < i < |s| && Parent(i) == pos ensures Le(s[child], s[i]) {
      assert i == 2 * pos + 1 || i == 2 * pos + 2;
    }
  }

  lemma NoChildren(size: nat, pos: nat)
    requires size <= 2 * pos + 1
    ensures forall i :: 0 < i < size ==> Parent(i) != pos
  {
  }

  /** Sinks the root to a leaf below its older children, then lets it rise again (`heapq` calls this sifting up). */
  method SinkRoot(start: seq<Item>) returns (s: seq<Item>)
    requires start != [] && HeapExcept(start, 0)
    ensures IsHeap(s) && multiset(s) == multiset(start)
  {
    s := start;
    var pos: nat, child: nat := 0, 1;
    while child < |s|
      invariant pos < |s| && child == 2 * pos + 1 && multiset(s) == multiset(start)
      invariant HeapExcept(s, pos)
      decreases |s| - pos
    {
      if child + 1 < |s| && !Older(s[child], s[child + 1]) {
        LeIsTotal(s[child + 1], s[child]);
        child := child + 1;
      }
      OlderChild(s, pos, child);
      SinkingKeepsHeap(s, pos, child);
      SwapKeepsItems(s, pos, child);
      ghost var size := |s|;
      s := Swapped(s, pos, child);
      pos := child;
      child := 2 * pos + 1;
      assert |s| == size;
    }
    NoChildren(|s|, pos);
    s := RiseFrom(s, pos);
  }

  lemma ReplacingKeepsBest(kept: multiset<Item>, seen: multiset<Item>, limit: nat, oldest: Item, item: Item)
    requires KeepsBest(kept, seen, limit) && |kept| == limit && oldest in kept && Older(oldest, item)
    requires forall x :: x in kept ==> Le(oldest, x)
    ensures KeepsBest(kept - multiset{oldest} + multiset{item}, seen + multiset{item}, limit)
  {
    var after := kept - multiset{oldest} + multiset{item};
    assert seen + multiset{item} - after == seen - kept + multiset{oldest};
    forall x, y | x in after && y in seen - kept + multiset{oldest} ensures Le(y, x) {
      if y in seen - kept && x == item {
        LeIsTransitive(y, oldest, item);
      }
    }
  }

  lemma RejectingKeepsBest(kept: multiset<Item>, seen: multiset<Item>, limit: nat, oldest: Item, item: Item)
    requires KeepsBest(kept, seen, limit) && |kept| == limit && oldest in kept && !Older(oldest, item)
    requires forall x :: x in kept ==> Le(oldest, x)
    ensures KeepsBest(kept, seen + multiset{item}, limit)
  {
    assert seen + multiset{item} - kept == seen - kept + multiset{item};
    LeIsTotal(oldest, item);
    forall x | x in kept ensures Le(item, x) {
      LeIsTransitive(item, oldest, x);
    }
  }

  lemma GrowingKeepsBest(kept: multiset<Item>, seen: multiset<Item>, limit: nat, item: Item)
    requires KeepsBest(kept, seen, limit) && |kept| < limit
    ensures KeepsBest(kept + multiset{item}, seen + multiset{item}, limit)
  {
    assert |seen - kept| == 0;
    assert seen == kept;
  }

  lemma NothingKept(seen: multiset<Item>, item: Item)
    requires KeepsBest(multiset{}, seen, 0)
    ensures KeepsBest(multiset{}, seen + multiset{item}, 0)
  {
  }

  lemma RootBelowAll(s: seq<Item>)
    requires IsHeap(s) && s != []
    ensures forall x :: x in multiset(s) ==> Le(s[0], x)
  {
    forall x | x in multiset(s) ensures Le(s[0], x) {
      var i :| 0 <= i < |s| && s[i] == x;
      RootIsOldest(s, i);
    }
  }

  class ManifestHeap {
    var items: seq<Item>

    ghost predicate Valid()
      reads this
    {
      IsHeap(items)
    }

    constructor ()
      ensures Valid() && items == []
    {
      items := [];
    }

    method Push(item: Item)
      requires Valid()
      modifies this
      ensures Valid() && multiset(items) == multiset(old(items)) + multiset{item}
    {
      var longer := items + [item];
      forall i | 0 < i < |longer| ensures Parent(i) < |items| {
      }
      items := RiseFrom(longer, |items|);
    }

    /** Takes the oldest item out and puts another one in. */
    method Replace(item: Item) returns (oldest: Item)
      requires Valid() && items != []
      modifies this
      ensures Valid() && oldest == old(items)[0]
      ensures multiset(items) == multiset(old(items)) - multiset{oldest} + multiset{item}
    {
      oldest := items[0];
      items := SinkRoot(items[0 := item]);
    }

    /** Keeps the newest `limit` items seen so far; the one that has to go is returned. */
    method Retain(item: Item, limit: nat, ghost seen: multiset<Item>) returns (evicted: Option<Item>)
      requires Valid() && KeepsBest(multiset(items), seen, limit)
      modifies this
      ensures Valid() && KeepsBest(multiset(items), seen + multiset{item}, limit)
      ensures multiset(items) + (if evicted.Some? then multiset{evicted.value} else multiset{}) ==
        multiset(old(items)) + multiset{item}
    {
      assert |multiset(items)| == |items|;
      if limit == 0 {
        assert items == [];
        NothingKept(seen, item);
        return Some(item);
      }
      if |items| < limit {
        GrowingKeepsBest(multiset(items), seen, limit, item);
        Push(item);
        return None;
      }
      RootBelowAll(items);
      if Older(items[0], item) {
        ReplacingKeepsBest(multiset(items), seen, limit, items[0], item);
        var oldest := Replace(item);
        return Some(oldest);
      }
      RejectingKeepsBest(multiset(items), seen, limit, items[0], item);
      evicted := Some(item);
    }
  }
}
