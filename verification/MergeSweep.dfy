/**
 Validation of a worksheet's merged ranges: a row sweep over the column index
 rejects a list of rectangles exactly when two of them share a cell.
 */
module MergeSweep {
  import opened MergeIndex
  import opened Outcomes
  import opened Sorting

  const MAX_ROW := 1_048_576
  const MAX_RANGES := 4_096

  /** An inclusive rectangle of cells. */
  datatype Bounds = Bounds(left: int, top: int, right: int, bottom: int)

  predicate OnWorksheet(b: Bounds) {
    1 <= b.left <= b.right <= MAX_COLUMN && 1 <= b.top <= b.bottom <= MAX_ROW
  }

  predicate Covers(b: Bounds, row: int, column: int) {
    b.top <= row <= b.bottom && b.left <= column <= b.right
  }

  ghost predicate ShareCell(a: Bounds, b: Bounds) {
    exists row, column :: Covers(a, row, column) && Covers(b, row, column)
  }

  /** The pairwise geometric test. */
  predicate Overlaps(a: Bounds, b: Bounds) {
    && a.left <= b.right && b.left <= a.right
    && a.top <= b.bottom && b.top <= a.bottom
  }

  lemma OverlapIsSharedCell(a: Bounds, b: Bounds)
    requires a.left <= a.right && a.top <= a.bottom && b.left <= b.right && b.top <= b.bottom
    ensures Overlaps(a, b) <==> ShareCell(a, b)
  {
    if Overlaps(a, b) {
      var row, column := Max(a.top, b.top), Max(a.left, b.left);
      assert Covers(a, row, column) && Covers(b, row, column);
    }
  }

  ghost predicate SomeShareCell(bounds: seq<Bounds>) {
    exists i, j :: 0 <= i < j < |bounds| && ShareCell(bounds[i], bounds[j])
  }

  ghost predicate SomeOverlap(bounds: seq<Bounds>) {
    exists i, j :: 0 <= i < j < |bounds| && Overlaps(bounds[i], bounds[j])
  }

  lemma SharedCellsAreOverlaps(bounds: seq<Bounds>)
    requires forall b :: b in bounds ==> b.left <= b.right && b.top <= b.bottom
    ensures SomeShareCell(bounds) <==> SomeOverlap(bounds)
  {
    forall i, j | 0 <= i < j < |bounds|
      ensures Overlaps(bounds[i], bounds[j]) <==> ShareCell(bounds[i], bounds[j])
    {
      OverlapIsSharedCell(bounds[i], bounds[j]);
    }
  }

  // ----- Events -----

  /** A range starting (+1) or ending (-1) at some row. */
  datatype Event = Event(delta: int, left: int, right: int)

  /** Which of the first `n` rectangles start at, or end just above, a row; in order. */
  ghost function Owners(bounds: seq<Bounds>, n: nat, row: int): seq<nat>
    requires n <= |bounds|
  {
    if n == 0 then [] else
      var b := bounds[n - 1];
      Owners(bounds, n - 1, row)
        + (if b.top == row then [n - 1] else [])
        + (if b.bottom + 1 == row then [n - 1] else [])
  }

  ghost function EventOf(b: Bounds, row: int): Event {
    Event(if b.top == row then 1 else -1, b.left, b.right)
  }

  ghost predicate EventsAre(events: seq<Event>, bounds: seq<Bounds>, n: nat, row: int)
    requires n <= |bounds|
  {
    var owners := Owners(bounds, n, row);
    |events| == |owners| &&
    forall k :: 0 <= k < |events| ==> owners[k] < |bounds| && events[k] == EventOf(bounds[owners[k]], row)
  }

  /** Each rectangle owns at most one event of a row, and events keep the rectangles' order. */
  lemma {:induction false} OwnersOrdered(bounds: seq<Bounds>, n: nat, row: int)
    requires n <= |bounds| && forall b :: b in bounds ==> b.top <= b.bottom
    ensures forall k :: 0 <= k < |Owners(bounds, n, row)| ==> Owners(bounds, n, row)[k] < n
    ensures forall k, m :: 0 <= k < m < |Owners(bounds, n, row)| ==>
      Owners(bounds, n, row)[k] < Owners(bounds, n, row)[m]
    ensures forall i: nat :: i in Owners(bounds, n, row) <==>
      i < n && (bounds[i].top == row || bounds[i].bottom + 1 == row)
  {
    if n > 0 {
      OwnersOrdered(bounds, n - 1, row);
      assert bounds[n - 1] in bounds;
    }
  }

  /** Adds an event to the list of its row. */
  function Push(events: map<int, seq<Event>>, row: int, event: Event): map<int, seq<Event>> {
    events[row := (if row in events then events[row] else []) + [event]]
  }

  ghost predicate EventsUpTo(events: map<int, seq<Event>>, bounds: seq<Bounds>, n: nat, row: int)
    requires n <= |bounds|
  {
    && (row in events <==> Owners(bounds, n, row) != [])
    && (row in events ==> EventsAre(events[row], bounds, n, row))
  }

  method BuildEvents(bounds: seq<Bounds>) returns (events: map<int, seq<Event>>)
    requires forall i :: 0 <= i < |bounds| ==> bounds[i].top <= bounds[i].bottom
    ensures forall row :: EventsUpTo(events, bounds, |bounds|, row)
  {
    events := map[];
    for n := 0 to |bounds|
      invariant forall row :: EventsUpTo(events, bounds, n, row)
    {
      var b := bounds[n];
      ghost var before := events;
      events := Push(events, b.top, Event(1, b.left, b.right));
      events := Push(events, b.bottom + 1, Event(-1, b.left, b.right));
      ghost var next := n + 1;
      forall row ensures EventsUpTo(events, bounds, next, row) {
        PushBoth(before, bounds, n, row);
      }
    }
  }

  lemma PushBoth(events: map<int, seq<Event>>, bounds: seq<Bounds>, n: nat, row: int)
    requires n < |bounds| && bounds[n].top <= bounds[n].bottom && EventsUpTo(events, bounds, n, row)
    ensures var b := bounds[n];
      EventsUpTo(Push(Push(events, b.top, Event(1, b.left, b.right)), b.bottom + 1, Event(-1, b.left, b.right)),
                 bounds, n + 1, row)
  {
    var b := bounds[n];
    var owners := Owners(bounds, n, row);
    if b.top == row || b.bottom + 1 == row {
      assert Owners(bounds, n + 1, row) == owners + [n];
    } else {
      assert Owners(bounds, n + 1, row) == owners;
    }
  }

  // ----- The sweep -----

  ghost predicate AllOn(bounds: seq<Bounds>, columns: int) {
    forall b :: b in bounds ==> OnSheet(ColumnsOf(b), columns) && b.top <= b.bottom
  }

  function ColumnsOf(b: Bounds): Columns {
    Columns(b.left, b.right)
  }

  /** `live` names the rectangles whose column ranges are active, in the index's own order. */
  ghost predicate Tracks(index: MergeRangeIndex, bounds: seq<Bounds>, live: seq<nat>)
    reads index, index.maximum, index.lazy
  {
    index.Valid() && Names(live, bounds, index.active)
  }

  ghost predicate Names(live: seq<nat>, bounds: seq<Bounds>, active: seq<Columns>) {
    && |live| == |active|
    && (forall k :: 0 <= k < |live| ==> live[k] < |bounds| && active[k] == ColumnsOf(bounds[live[k]]))
    && (forall k, m :: 0 <= k < m < |live| ==> live[k] != live[m])
  }

  function Without<T>(s: seq<T>, p: nat): seq<T>
    requires p < |s|
  {
    s[..p] + s[p + 1..]
  }

  lemma NamesWithout(live: seq<nat>, bounds: seq<Bounds>, active: seq<Columns>, p: nat)
    requires Names(live, bounds, active) && p < |live|
    ensures Names(Without(live, p), bounds, Without(active, p))
  {
  }

  lemma MembersWithout(live: seq<nat>, p: nat)
    requires p < |live| && (forall k, m :: 0 <= k < m < |live| ==> live[k] != live[m])
    ensures forall j :: j in Without(live, p) <==> j in live && j != live[p]
  {
  }

  lemma NamesWith(live: seq<nat>, bounds: seq<Bounds>, active: seq<Columns>, j: nat)
    requires Names(live, bounds, active) && j !in live && j < |bounds|
    ensures Names(live + [j], bounds, active + [ColumnsOf(bounds[j])])
  {
  }

  lemma NamesMeet(live: seq<nat>, bounds: seq<Bounds>, active: seq<Columns>, r: Columns)
    requires Names(live, bounds, active)
    ensures (exists k :: 0 <= k < |active| && Meet(active[k], r)) <==>
      exists i :: i in live && i < |bounds| && Meet(ColumnsOf(bounds[i]), r)
  {
  }

  lemma {:induction false} DepthPositive(active: seq<Columns>, column: int)
    ensures Depth(active, column) > 0 <==> exists k :: 0 <= k < |active| && active[k].left <= column <= active[k].right
  {
    if active != [] {
      var front, last := active[..|active| - 1], active[|active| - 1];
      DepthPositive(front, column);
      if last.left <= column <= last.right {
        assert active[|active| - 1] == last;
      } else if exists k :: 0 <= k < |active| && active[k].left <= column <= active[k].right {
        var k :| 0 <= k < |active| && active[k].left <= column <= active[k].right;
        assert front[k] == active[k];
      }
      if Depth(front, column) > 0 {
        var k :| 0 <= k < |front| && front[k].left <= column <= front[k].right;
        assert active[k] == front[k];
      }
    }
  }

  /** A nonzero maximum means some live range meets the queried one. */
  lemma MaximumMeets(active: seq<Columns>, r: Columns, m: int)
    requires IsDeepest(active, r, m) && r.left <= r.right
    requires forall k :: 0 <= k < |active| ==> active[k].left <= active[k].right
    ensures m != 0 <==> exists k :: 0 <= k < |active| && Meet(active[k], r)
  {
    if m != 0 {
      var c :| r.left <= c <= r.right && Depth(active, c) == m;
      DepthPositive(active, c);
      var k :| 0 <= k < |active| && active[k].left <= c <= active[k].right;
      assert Meet(active[k], r);
    }
    if exists k :: 0 <= k < |active| && Meet(active[k], r) {
      var k :| 0 <= k < |active| && Meet(active[k], r);
      var c := Max(active[k].left, r.left);
      DepthPositive(active, c);
      assert Depth(active, c) <= m;
    }
  }

  /** The rectangle that owns event `k` of a row, and what that event says. */
  lemma OwnerOf(events: seq<Event>, bounds: seq<Bounds>, row: int, k: nat, columns: int) returns (i: nat)
    requires AllOn(bounds, columns) && EventsAre(events, bounds, |bounds|, row) && k < |events|
    ensures i == Owners(bounds, |bounds|, row)[k] && i < |bounds| && i !in Owners(bounds, |bounds|, row)[..k]
    ensures Columns(events[k].left, events[k].right) == ColumnsOf(bounds[i]) && OnSheet(ColumnsOf(bounds[i]), columns)
    ensures events[k].delta == 1 || events[k].delta == -1
    ensures events[k].delta == 1 <==> bounds[i].top == row
    ensures events[k].delta == -1 <==> bounds[i].bottom + 1 == row
    ensures Owners(bounds, |bounds|, row)[..k + 1] == Owners(bounds, |bounds|, row)[..k] + [i]
  {
    i := Owners(bounds, |bounds|, row)[k];
    OwnersOrdered(bounds, |bounds|, row);
    assert bounds[i] in bounds;
  }

  method RemoveOne(index: MergeRangeIndex, event: Event, ghost bounds: seq<Bounds>, ghost live0: seq<nat>, ghost i: nat)
    returns (ghost live: seq<nat>)
    requires Tracks(index, bounds, live0) && i in live0 && i < |bounds|
    requires event.delta == -1 && Columns(event.left, event.right) == ColumnsOf(bounds[i])
    requires OnSheet(ColumnsOf(bounds[i]), index.columns)
    modifies index, index.maximum, index.lazy
    ensures Tracks(index, bounds, live)
    ensures forall j :: j in live <==> j in live0 && j != i
  {
    ghost var p :| 0 <= p < |live0| && live0[p] == i;
    NamesWithout(live0, bounds, index.active, p);
    MembersWithout(live0, p);
    index.Add(event.left, event.right, event.delta, p);
    live := Without(live0, p);
  }

  /** First pass over a row's events: ranges that ended above the row leave the index. */
  method RemoveEnded(index: MergeRangeIndex, row: int, events: seq<Event>, ghost bounds: seq<Bounds>,
                     ghost live0: seq<nat>)
    returns (ghost live: seq<nat>)
    requires AllOn(bounds, index.columns) && EventsAre(events, bounds, |bounds|, row)
    requires Tracks(index, bounds, live0)
    requires forall i: nat :: i < |bounds| && bounds[i].bottom + 1 == row ==> i in live0
    modifies index, index.maximum, index.lazy
    ensures Tracks(index, bounds, live)
    ensures forall i :: i in live <==> i in live0 && bounds[i].bottom + 1 != row
  {
    ghost var owners := Owners(bounds, |bounds|, row);
    OwnersOrdered(bounds, |bounds|, row);
    live := live0;
    for k := 0 to |events|
      invariant Tracks(index, bounds, live)
      invariant forall i :: i in live <==> i in live0 && !(bounds[i].bottom + 1 == row && i in owners[..k])
    {
      ghost var i := OwnerOf(events, bounds, row, k, index.columns);
      if events[k].delta < 0 {
        live := RemoveOne(index, events[k], bounds, live, i);
      }
    }
    assert owners[..|events|] == owners;
  }

  /** A starting range joins the index unless it meets a live one. */
  method AddOne(index: MergeRangeIndex, event: Event, ghost bounds: seq<Bounds>, ghost live0: seq<nat>, ghost j: nat)
    returns (clash: bool, ghost live: seq<nat>)
    requires Tracks(index, bounds, live0) && j !in live0 && j < |bounds| && AllOn(bounds, index.columns)
    requires event.delta == 1 && Columns(event.left, event.right) == ColumnsOf(bounds[j])
    requires OnSheet(ColumnsOf(bounds[j]), index.columns)
    modifies index, index.maximum, index.lazy
    ensures clash <==> exists i :: i in live0 && i < |bounds| && Meet(ColumnsOf(bounds[i]), ColumnsOf(bounds[j]))
    ensures !clash ==> Tracks(index, bounds, live) && live == live0 + [j]
  {
    var m := index.Maximum(event.left, event.right);
    MaximumMeets(index.active, ColumnsOf(bounds[j]), m);
    NamesMeet(live0, bounds, index.active, ColumnsOf(bounds[j]));
    if m != 0 {
      return true, live0;
    }
    NamesWith(live0, bounds, index.active, j);
    index.Add(event.left, event.right, event.delta, 0);
    clash, live := false, live0 + [j];
  }

  lemma NewcomerClear(bounds: seq<Bounds>, live: seq<nat>, row: int, j: nat)
    requires NewcomersClear(bounds, live, row) && j < |bounds|
    requires forall i :: i in live && i < |bounds| ==> !Meet(ColumnsOf(bounds[i]), ColumnsOf(bounds[j]))
    ensures NewcomersClear(bounds, live + [j], row)
  {
  }

  lemma ClashOverlaps(bounds: seq<Bounds>, i: nat, j: nat, row: int)
    requires i < |bounds| && j < |bounds| && i != j && Meet(ColumnsOf(bounds[i]), ColumnsOf(bounds[j]))
    requires bounds[i].top <= row <= bounds[i].bottom && bounds[j].top == row <= bounds[j].bottom
    ensures SomeOverlap(bounds)
  {
  }

  /** The live rectangles are those from above the row and those of the handled events that start at it. */
  ghost predicate Joined(bounds: seq<Bounds>, live: seq<nat>, live0: seq<nat>, handled: seq<nat>, row: int) {
    forall i :: i in live <==> i in live0 || (i in handled && i < |bounds| && bounds[i].top == row)
  }

  lemma JoinedNext(bounds: seq<Bounds>, live: seq<nat>, live0: seq<nat>, handled: seq<nat>, row: int, j: nat)
    requires Joined(bounds, live, live0, handled, row) && j < |bounds|
    ensures Joined(bounds, if bounds[j].top == row then live + [j] else live, live0, handled + [j], row)
  {
  }

  /** One event of the second pass: a starting range must meet no live one before it joins. */
  method StartOne(index: MergeRangeIndex, row: int, event: Event, ghost bounds: seq<Bounds>,
                  ghost live0: seq<nat>, ghost live: seq<nat>, ghost handled: seq<nat>, ghost j: nat)
    returns (clash: bool, ghost next: seq<nat>)
    requires AllOn(bounds, index.columns) && Tracks(index, bounds, live) && j < |bounds| && j !in handled
    requires Columns(event.left, event.right) == ColumnsOf(bounds[j]) && OnSheet(ColumnsOf(bounds[j]), index.columns)
    requires event.delta == 1 || event.delta == -1
    requires event.delta == 1 <==> bounds[j].top == row
    requires forall i :: i in live0 ==> i < |bounds| && bounds[i].top < row <= bounds[i].bottom
    requires Joined(bounds, live, live0, handled, row) && NewcomersClear(bounds, live, row)
    modifies index, index.maximum, index.lazy
    ensures clash ==> SomeOverlap(bounds)
    ensures !clash ==> Tracks(index, bounds, next) && Joined(bounds, next, live0, handled + [j], row)
    ensures !clash ==> NewcomersClear(bounds, next, row)
  {
    JoinedNext(bounds, live, live0, handled, row, j);
    if event.delta < 0 {
      return false, live;
    }
    assert bounds[j] in bounds;
    clash, next := AddOne(index, event, bounds, live, j);
    if clash {
      ghost var i :| i in live && i < |bounds| && Meet(ColumnsOf(bounds[i]), ColumnsOf(bounds[j]));
      assert bounds[i] in bounds;
      ClashOverlaps(bounds, i, j, row);
    } else {
      NewcomerClear(bounds, live, row, j);
    }
  }

  /** Second pass: each starting range must meet no live one before it joins. */
  method AddStarting(index: MergeRangeIndex, row: int, events: seq<Event>, ghost bounds: seq<Bounds>,
                     ghost live0: seq<nat>)
    returns (clash: bool, ghost live: seq<nat>)
    requires AllOn(bounds, index.columns) && EventsAre(events, bounds, |bounds|, row)
    requires Tracks(index, bounds, live0)
    requires forall i :: i in live0 ==> i < |bounds| && bounds[i].top < row <= bounds[i].bottom
    modifies index, index.maximum, index.lazy
    ensures clash ==> SomeOverlap(bounds)
    ensures !clash ==> Tracks(index, bounds, live)
    ensures !clash ==> forall i: nat :: i in live <==> i in live0 || (i < |bounds| && bounds[i].top == row)
    ensures !clash ==> NewcomersClear(bounds, live, row)
  {
    ghost var owners := Owners(bounds, |bounds|, row);
    OwnersOrdered(bounds, |bounds|, row);
    live := live0;
    clash := false;
    for k := 0 to |events|
      invariant Tracks(index, bounds, live)
      invariant Joined(bounds, live, live0, owners[..k], row)
      invariant NewcomersClear(bounds, live, row)
    {
      ghost var j := OwnerOf(events, bounds, row, k, index.columns);
      clash, live := StartOne(index, row, events[k], bounds, live0, live, owners[..k], j);
      if clash {
        return;
      }
    }
    assert owners[..|events|] == owners;
  }

  /** No live rectangle overlaps another one starting at `row`. */
  ghost predicate NewcomersClear(bounds: seq<Bounds>, live: seq<nat>, row: int) {
    forall i, j :: i in live && j in live && i != j && i < |bounds| && j < |bounds| && bounds[j].top == row
      ==> !Overlaps(bounds[i], bounds[j])
  }

  method Sweep(bounds: seq<Bounds>, index: MergeRangeIndex) returns (rejected: bool)
    requires index.Valid() && index.active == [] && AllOn(bounds, index.columns)
    modifies index, index.maximum, index.lazy
    ensures rejected <==> SomeOverlap(bounds)
  {
    WellOrdered(bounds, index.columns);
    var events := BuildEvents(bounds);
    var rows := Sorted(events.Keys);
    RowsCover(bounds, events, rows);
    ghost var live: seq<nat> := [];
    for n := 0 to |rows|
      invariant Tracks(index, bounds, live)
      invariant LiveAfter(bounds, live, rows[..n]) && DisjointAfter(bounds, rows[..n])
    {
      rejected, live := SweepRow(index, events[rows[n]], bounds, rows, n, live);
      if rejected {
        return;
      }
    }
    assert rows[..|rows|] == rows;
    return false;
  }

  lemma WellOrdered(bounds: seq<Bounds>, columns: int)
    requires AllOn(bounds, columns)
    ensures forall i :: 0 <= i < |bounds| ==> bounds[i].top <= bounds[i].bottom
  {
  }

  lemma RowsCover(bounds: seq<Bounds>, events: map<int, seq<Event>>, rows: seq<int>)
    requires forall i :: 0 <= i < |bounds| ==> bounds[i].top <= bounds[i].bottom
    requires forall row :: EventsUpTo(events, bounds, |bounds|, row)
    requires forall r :: r in rows <==> r in events
    requires forall i, j :: 0 <= i < j < |rows| ==> rows[i] < rows[j]
    ensures RowsOf(bounds, rows)
    ensures forall n :: 0 <= n < |rows| ==> rows[n] in events && EventsAre(events[rows[n]], bounds, |bounds|, rows[n])
  {
    assert forall b :: b in bounds ==> b.top <= b.bottom;
    forall i | 0 <= i < |bounds|
      ensures bounds[i].top in rows && bounds[i].bottom + 1 in rows
    {
      assert EventsUpTo(events, bounds, |bounds|, bounds[i].top);
      assert EventsUpTo(events, bounds, |bounds|, bounds[i].bottom + 1);
      OwnersOrdered(bounds, |bounds|, bounds[i].top);
      OwnersOrdered(bounds, |bounds|, bounds[i].bottom + 1);
    }
    forall n | 0 <= n < |rows|
      ensures rows[n] in events && EventsAre(events[rows[n]], bounds, |bounds|, rows[n])
    {
      assert rows[n] in rows && EventsUpTo(events, bounds, |bounds|, rows[n]);
    }
  }

  ghost predicate RowsOf(bounds: seq<Bounds>, rows: seq<int>) {
    && (forall i, j :: 0 <= i < j < |rows| ==> rows[i] < rows[j])
    && (forall i :: 0 <= i < |bounds| ==> bounds[i].top in rows && bounds[i].bottom + 1 in rows)
    && (forall i :: 0 <= i < |bounds| ==> bounds[i].top <= bounds[i].bottom)
  }

  /** One row of the sweep: ended ranges leave, then starting ranges join or clash. */
  method SweepRow(index: MergeRangeIndex, events: seq<Event>, ghost bounds: seq<Bounds>,
                  rows: seq<int>, n: nat, ghost live0: seq<nat>)
    returns (clash: bool, ghost live: seq<nat>)
    requires RowsOf(bounds, rows) && n < |rows| && AllOn(bounds, index.columns)
    requires EventsAre(events, bounds, |bounds|, rows[n])
    requires Tracks(index, bounds, live0)
    requires LiveAfter(bounds, live0, rows[..n]) && DisjointAfter(bounds, rows[..n])
    modifies index, index.maximum, index.lazy
    ensures clash ==> SomeOverlap(bounds)
    ensures !clash ==> Tracks(index, bounds, live)
    ensures !clash ==> LiveAfter(bounds, live, rows[..n + 1]) && DisjointAfter(bounds, rows[..n + 1])
  {
    EndingAreLive(bounds, rows, n, live0);
    ghost var remaining := RemoveEnded(index, rows[n], events, bounds, live0);
    clash, live := AddStarting(index, rows[n], events, bounds, remaining);
    if !clash {
      RowProcessed(bounds, rows, n, live0, remaining, live);
    }
  }

  /** After the rows in `done`, the live rectangles are those started and not yet ended. */
  ghost predicate LiveAfter(bounds: seq<Bounds>, live: seq<nat>, done: seq<int>) {
    forall i: nat :: i in live <==> i < |bounds| && bounds[i].top in done && bounds[i].bottom + 1 !in done
  }

  ghost predicate DisjointAfter(bounds: seq<Bounds>, done: seq<int>) {
    forall i, j :: 0 <= i < |bounds| && 0 <= j < |bounds| && i != j && bounds[i].top in done && bounds[j].top in done
      ==> !Overlaps(bounds[i], bounds[j])
  }

  /** On reaching a row, rectangles ending above it are live, and the other live ones span it. */
  lemma EndingAreLive(bounds: seq<Bounds>, rows: seq<int>, n: nat, live: seq<nat>)
    requires n < |rows| && RowsOf(bounds, rows)
    requires LiveAfter(bounds, live, rows[..n])
    ensures forall i: nat :: i < |bounds| && bounds[i].bottom + 1 == rows[n] ==> i in live
    ensures forall i :: i in live && bounds[i].bottom + 1 != rows[n] ==>
      i < |bounds| && bounds[i].top < rows[n] <= bounds[i].bottom
  {
  }

  lemma RowProcessed(bounds: seq<Bounds>, rows: seq<int>, n: nat, before: seq<nat>, remaining: seq<nat>, live: seq<nat>)
    requires n < |rows| && RowsOf(bounds, rows)
    requires LiveAfter(bounds, before, rows[..n]) && DisjointAfter(bounds, rows[..n])
    requires forall i :: i in remaining <==> i in before && bounds[i].bottom + 1 != rows[n]
    requires forall i: nat :: i in live <==> i in remaining || (i < |bounds| && bounds[i].top == rows[n])
    requires NewcomersClear(bounds, live, rows[n])
    ensures LiveAfter(bounds, live, rows[..n + 1]) && DisjointAfter(bounds, rows[..n + 1])
  {
    var row := rows[n];
    RowsBefore(rows, n);
    assert rows[..n + 1] == rows[..n] + [row];
    forall i, j | 0 <= i < |bounds| && 0 <= j < |bounds| && i != j
      && bounds[i].top in rows[..n + 1] && bounds[j].top == row
      ensures !Overlaps(bounds[i], bounds[j])
      ensures !Overlaps(bounds[j], bounds[i])
    {
      if i in live {
        assert j in live;
      } else {
        assert bounds[i].bottom + 1 <= row;
      }
    }
  }

  /** The row sweep rejects exactly the lists in which two rectangles share a cell. */
  method RejectOverlapping(bounds: seq<Bounds>) returns (rejected: bool)
    requires forall b :: b in bounds ==> OnWorksheet(b)
    ensures rejected <==> SomeShareCell(bounds)
    ensures rejected <==> SomeOverlap(bounds)
  {
    SharedCellsAreOverlaps(bounds);
    var columns := SheetColumns();
    var index := new MergeRangeIndex(columns);
    rejected := Sweep(bounds, index);
  }

  /** The sheet's column count; callers only learn that its tree fits, so no proof unrolls the tree. */
  method SheetColumns() returns (columns: int)
    ensures columns >= MAX_COLUMN && Fits(4 * columns, 1, Columns(1, columns))
  {
    SheetFits();
    columns := MAX_COLUMN;
  }

  /** In a sorted list, the rows before position `n` are the listed rows below `rows[n]`. */
  lemma RowsBefore(rows: seq<int>, n: nat)
    requires n < |rows| && forall i, j :: 0 <= i < j < |rows| ==> rows[i] < rows[j]
    ensures forall r :: r in rows[..n] <==> r in rows && r < rows[n]
  {
  }

  // ----- Validation of raw references -----

  /** One reference is canonical, names more than one cell, and stays on the worksheet. */
  ghost predicate Canonical(reference: string, parse: string -> Option<Bounds>, format: Bounds -> string) {
    parse(reference).Some? &&
    var b := parse(reference).value;
    && reference == format(b)
    && !(b.left == b.right && b.top == b.bottom)
    && OnWorksheet(b)
  }

  ghost function ParsedBounds(references: seq<string>, parse: string -> Option<Bounds>): seq<Bounds>
    requires forall r :: r in references ==> parse(r).Some?
  {
    seq(|references|, i requires 0 <= i < |references| => parse(references[i]).value)
  }

  /** Merge evidence is accepted, in its own order, exactly when it is bounded, canonical and disjoint. */
  ghost predicate Acceptable(references: seq<string>, parse: string -> Option<Bounds>, format: Bounds -> string) {
    && |references| <= MAX_RANGES
    && (forall r :: r in references ==> Canonical(r, parse, format))
    && !SomeShareCell(ParsedBounds(references, parse))
  }

  /** Equal references would share every cell, so the duplicate test never changes the verdict. */
  lemma DuplicatesShareCells(references: seq<string>, parse: string -> Option<Bounds>, format: Bounds -> string,
                             i: nat, j: nat)
    requires i < j < |references| && references[i] == references[j]
    requires forall r :: r in references ==> parse(r).Some?
    requires Canonical(references[i], parse, format)
    ensures SomeShareCell(ParsedBounds(references, parse))
  {
    var bounds := ParsedBounds(references, parse);
    assert Covers(bounds[i], bounds[i].top, bounds[i].left) && Covers(bounds[j], bounds[i].top, bounds[i].left);
    assert ShareCell(bounds[i], bounds[j]);
  }

  method ValidatedMergeRanges(references: seq<string>, parse: string -> Option<Bounds>, format: Bounds -> string)
    returns (result: Option<seq<string>>)
    ensures result.Some? <==> Acceptable(references, parse, format)
    ensures result.Some? ==> result.value == references
  {
    var bounds: seq<Bounds> := [];
    var seen: set<string> := {};
    for n := 0 to |references|
      invariant n <= MAX_RANGES && |bounds| == n
      invariant forall r :: r in references[..n] <==> r in seen
      invariant forall i :: 0 <= i < n ==>
        Canonical(references[i], parse, format) && bounds[i] == parse(references[i]).value
    {
      var reference := references[n];
      if n >= MAX_RANGES {
        return None;
      }
      var parsed := parse(reference);
      if parsed.None? {
        assert reference in references;
        return None;
      }
      var b := parsed.value;
      if reference != format(b) || (b.left == b.right && b.top == b.bottom) || !OnWorksheet(b) {
        assert reference in references && !Canonical(reference, parse, format);
        return None;
      }
      if reference in seen {
        ghost var i :| 0 <= i < n && references[i] == reference;
        if Acceptable(references, parse, format) {
          DuplicatesShareCells(references, parse, format, i, n);
        }
        return None;
      }
      seen := seen + {reference};
      bounds := bounds + [b];
    }
    assert forall r :: r in references ==> Canonical(r, parse, format);
    assert bounds == ParsedBounds(references, parse);
    var rejected := RejectOverlapping(bounds);
    return if rejected then None else Some(references);
  }
}
