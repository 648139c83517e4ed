/**
 The rows of a worksheet occupied by values or merged spans, as coalesced
 intervals, and the start of the contiguous header band above a row.
 */
module RowIntervals {
  import opened Outcomes
  import opened Sorting
  import opened MergeSweep


  /** Merged spans are the inclusive rectangles of the sweep. */
  type Span = Bounds

  ghost predicate WellFormed(spans: seq<Span>) {
    && (forall s :: s in spans ==> 1 <= s.top <= s.bottom && 1 <= s.left <= s.right)
    && !SomeOverlap(spans)
  }

  lemma OneSpanPerCell(spans: seq<Span>, a: Span, b: Span)
    requires WellFormed(spans) && a in spans && b in spans && Overlaps(a, b)
    ensures a == b
  {
  }

  lemma PairCounted(a: seq<Bounds>, i: nat, j: nat)
    requires i < j < |a|
    ensures multiset{a[i], a[j]} <= multiset(a)
  {
    assert a == a[..j] + [a[j]] + a[j + 1..];
    assert a[i] in a[..j];
  }

  lemma PairPlaced(b: seq<Bounds>, x: Bounds, y: Bounds)
    requires multiset{x, y} <= multiset(b)
    ensures exists k, n :: 0 <= k < |b| && 0 <= n < |b| && k != n && b[k] == x && b[n] == y
  {
    assert x in multiset(b) && y in multiset(b);
    var k :| 0 <= k < |b| && b[k] == x;
    if x == y {
      var rest := b[..k] + b[k + 1..];
      assert b == b[..k] + [b[k]] + b[k + 1..];
      assert multiset(b) == multiset(rest) + multiset{x};
      assert y in multiset(rest);
      var m :| 0 <= m < |rest| && rest[m] == y;
      var n := if m < k then m else m + 1;
      assert b[n] == y;
    } else {
      var n :| 0 <= n < |b| && b[n] == y;
    }
  }

  /** Reordering a list of rectangles never changes whether two of them overlap. */
  lemma OverlapsAreOrderFree(a: seq<Bounds>, b: seq<Bounds>)
    requires multiset(a) == multiset(b)
    ensures SomeOverlap(a) ==> SomeOverlap(b)
  {
    if SomeOverlap(a) {
      var i, j :| 0 <= i < j < |a| && Overlaps(a[i], a[j]);
      PairCounted(a, i, j);
      PairPlaced(b, a[i], a[j]);
      var k, n :| 0 <= k < |b| && 0 <= n < |b| && k != n && b[k] == a[i] && b[n] == a[j];
      assert Overlaps(b[k], b[n]) && Overlaps(b[n], b[k]);
    }
  }

  // ----- Coalesced row intervals -----

  datatype Rows = Rows(first: int, last: int)

  ghost predicate InSome(intervals: seq<Rows>, row: int) {
    exists i :: 0 <= i < |intervals| && intervals[i].first <= row <= intervals[i].last
  }

  /** Sorted, nonempty, and with a free row between neighbours. */
  ghost predicate Separated(intervals: seq<Rows>) {
    && (forall i :: 0 <= i < |intervals| ==> intervals[i].first <= intervals[i].last)
    && (forall i, j :: 0 <= i < j < |intervals| ==> intervals[i].last + 1 < intervals[j].first)
  }

  /** A row holds a value or is part of a merged span. */
  ghost predicate Occupied(spans: seq<Span>, rows: set<int>, row: int) {
    row in rows || exists s :: s in spans && s.top <= row <= s.bottom
  }

  function RowsBefore(a: Rows, b: Rows): bool {
    a.first < b.first || (a.first == b.first && a.last <= b.last)
  }

  lemma RowsBeforeOrders()
    ensures TotalPreorder(RowsBefore)
  {
  }

  method CoalescedRowIntervals(spans: seq<Span>, rows: set<int>) returns (intervals: seq<Rows>)
    requires forall s :: s in spans ==> s.top <= s.bottom
    ensures Separated(intervals)
    ensures forall row :: InSome(intervals, row) <==> Occupied(spans, rows, row)
  {
    var listed := Sorted(rows);
    var unsorted := seq(|spans|, i requires 0 <= i < |spans| => Rows(spans[i].top, spans[i].bottom))
                  + seq(|listed|, i requires 0 <= i < |listed| => Rows(listed[i], listed[i]));
    var items := SortBy(unsorted, RowsBefore);
    RowsBeforeOrders();
    SortBySorts(unsorted, RowsBefore);
    ItemsOccupy(spans, rows, listed, unsorted, items);
    intervals := Coalesce(items);
  }

  method Coalesce(items: seq<Rows>) returns (intervals: seq<Rows>)
    requires SortedBy(items, RowsBefore) && forall x :: x in items ==> x.first <= x.last
    ensures Separated(intervals) && SameRows(intervals, items)
  {
    intervals := [];
    for n := 0 to |items|
      invariant Separated(intervals) && SameRows(intervals, items[..n])
      invariant intervals != [] && n < |items| ==> intervals[|intervals| - 1].first <= items[n].first
    {
      var item := items[n];
      assert item in items && items[..n + 1] == items[..n] + [item];
      ghost var before := intervals;
      if intervals != [] && item.first <= intervals[|intervals| - 1].last + 1 {
        var tail := intervals[|intervals| - 1];
        var last := if item.last > tail.last then item.last else tail.last;
        intervals := intervals[|intervals| - 1 := Rows(tail.first, last)];
      } else {
        intervals := intervals + [item];
      }
      Coalesced(before, items[..n], item);
    }
    assert items[..|items|] == items;
  }

  ghost predicate SameRows(a: seq<Rows>, b: seq<Rows>) {
    forall row :: InSome(a, row) <==> InSome(b, row)
  }

  /** Absorbing the next item, in either way, keeps the intervals separated and adds its rows only. */
  lemma Coalesced(intervals: seq<Rows>, items: seq<Rows>, item: Rows)
    requires Separated(intervals) && SameRows(intervals, items) && item.first <= item.last
    requires intervals != [] ==> intervals[|intervals| - 1].first <= item.first
    ensures intervals == [] || item.first > intervals[|intervals| - 1].last + 1 ==>
              Separated(intervals + [item]) && SameRows(intervals + [item], items + [item])
    ensures intervals != [] && item.first <= intervals[|intervals| - 1].last + 1 ==>
              (var tail := intervals[|intervals| - 1];
               var last := if item.last > tail.last then item.last else tail.last;
               var merged := intervals[|intervals| - 1 := Rows(tail.first, last)];
               Separated(merged) && SameRows(merged, items + [item]))
  {
    AppendedItem(items, item);
    AppendedItem(intervals, item);
    if intervals != [] && item.first <= intervals[|intervals| - 1].last + 1 {
      var front, tail := intervals[..|intervals| - 1], intervals[|intervals| - 1];
      var grown := Rows(tail.first, if item.last > tail.last then item.last else tail.last);
      assert intervals == front + [tail];
      assert intervals[|intervals| - 1 := grown] == front + [grown];
      AppendedItem(front, tail);
      AppendedItem(front, grown);
    }
  }

  lemma ItemsOccupy(spans: seq<Span>, rows: set<int>, listed: seq<int>, unsorted: seq<Rows>, items: seq<Rows>)
    requires forall r :: r in listed <==> r in rows
    requires |unsorted| == |spans| + |listed|
    requires forall i :: 0 <= i < |spans| ==> unsorted[i] == Rows(spans[i].top, spans[i].bottom)
    requires forall i :: 0 <= i < |listed| ==> unsorted[|spans| + i] == Rows(listed[i], listed[i])
    requires forall x :: x in items <==> x in unsorted
    requires forall s :: s in spans ==> s.top <= s.bottom
    ensures forall row :: InSome(items, row) <==> Occupied(spans, rows, row)
    ensures forall x :: x in items ==> x.first <= x.last
  {
    forall row ensures InSome(items, row) <==> Occupied(spans, rows, row) {
      if InSome(items, row) {
        var k :| 0 <= k < |items| && items[k].first <= row <= items[k].last;
        assert items[k] in unsorted;
        var i :| 0 <= i < |unsorted| && unsorted[i] == items[k];
        if i < |spans| {
          assert spans[i] in spans;
        } else {
          assert unsorted[|spans| + (i - |spans|)] == Rows(listed[i - |spans|], listed[i - |spans|]);
        }
      }
      if row in rows {
        var i :| 0 <= i < |listed| && listed[i] == row;
        assert unsorted[|spans| + i] in items;
      } else if exists s :: s in spans && s.top <= row <= s.bottom {
        var s :| s in spans && s.top <= row <= s.bottom;
        var i :| 0 <= i < |spans| && spans[i] == s;
        assert unsorted[i] in items;
      }
    }
    forall x | x in items ensures x.first <= x.last {
      var i :| 0 <= i < |unsorted| && unsorted[i] == x;
      if i < |spans| {
        assert spans[i] in spans;
      } else {
        assert unsorted[|spans| + (i - |spans|)] == Rows(listed[i - |spans|], listed[i - |spans|]);
      }
    }
  }

  lemma AppendedItem(intervals: seq<Rows>, item: Rows)
    ensures forall row :: InSome(intervals + [item], row) <==> InSome(intervals, row) || item.first <= row <= item.last
  {
    var all := intervals + [item];
    forall row ensures InSome(all, row) <==> InSome(intervals, row) || item.first <= row <= item.last {
      if InSome(intervals, row) {
        var i :| 0 <= i < |intervals| && intervals[i].first <= row <= intervals[i].last;
        assert all[i] == intervals[i];
      }
      if item.first <= row <= item.last {
        assert all[|intervals|] == item;
      }
    }
  }

  /** The interval holding a row, by binary search. */
  method MergeIntervalContaining(intervals: seq<Rows>, row: int) returns (interval: Option<Rows>)
    requires Separated(intervals)
    ensures interval.Some? <==> InSome(intervals, row)
    ensures interval.Some? ==> interval.value in intervals && interval.value.first <= row <= interval.value.last
  {
    var firsts := seq(|intervals|, i requires 0 <= i < |intervals| => intervals[i].first);
    var position := BisectRight(firsts, row);
    assert position > 0 ==> intervals[position - 1].first == firsts[position - 1] <= row;
    forall i | 0 <= i < |intervals| && intervals[i].first <= row <= intervals[i].last
      ensures i + 1 == position
    {
      assert firsts[i] == intervals[i].first;
    }
    if position >= 1 && intervals[position - 1].first <= row <= intervals[position - 1].last {
      return Some(intervals[position - 1]);
    }
    return None;
  }

  /** `start` is the least row reached from `row` by walking up occupied rows. */
  ghost predicate IsBandStart(occupied: int -> bool, row: int, start: int) {
    && start <= row
    && (forall r :: start <= r < row ==> occupied(r))
    && (start <= 1 || !occupied(start - 1))
  }

  lemma {:induction false} BandStartIsUnique(occupied: int -> bool, row: int, a: int, b: int)
    requires IsBandStart(occupied, row, a) && IsBandStart(occupied, row, b) && a >= 1 && b >= 1
    ensures a == b
  {
  }
}
