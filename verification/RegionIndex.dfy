/**
 The sparse header-region index of one worksheet: span queries with a shared cache
 and a visit budget, the downward search through nested merged spans, and the upward
 ancestry walk that must agree with it.
 */
module RegionIndex {
  import opened Outcomes
  import opened Sorting
  import opened MergeIndex
  import opened MergeSweep
  import opened RowIntervals

  const REGION_CELL_LIMIT := 500_000
  const REGION_MERGE_LIMIT := 1_000
  const REGION_CANDIDATE_LIMIT := 256
  const REGION_PROBE_LIMIT := 512
  const REGION_VISIT_LIMIT := 500_000

  datatype Cell = Cell(row: int, column: int)

  /** What the header vocabulary says about a cell's text. */
  datatype Text = Text(quantity: bool, cost: bool, cumulative: bool)

  function Origin(s: Span): Cell {
    Cell(s.top, s.left)
  }

  /** A quantity cell, its cost neighbour, and the last row of their header cells. */
  datatype Leaf = Leaf(row: int, quantity: int, cost: int, headerEnd: int)

  function KeyIs(key: Span -> int, value: int): Span -> bool {
    (s: Span) => key(s) == value
  }

  function TopOf(s: Span): int {
    s.top
  }

  function BottomOf(s: Span): int {
    s.bottom
  }

  /** Spans over one column that meet the rows [start, end]. */
  function CoversColumn(column: int, start: int, end: int): Span -> bool {
    (s: Span) => s.left <= column <= s.right && s.top <= end && start <= s.bottom
  }

  predicate MeetsBand(s: Span, start: int, end: int) {
    s.top <= end && start <= s.bottom
  }

  function Lexicographic(a: seq<int>, b: seq<int>): bool {
    a == [] || (b != [] && (a[0] < b[0] || (a[0] == b[0] && Lexicographic(a[1..], b[1..]))))
  }

  function ByTop(a: Span, b: Span): bool {
    Lexicographic([a.top, a.left, a.bottom, a.right], [b.top, b.left, b.bottom, b.right])
  }

  function ByLeft(a: Span, b: Span): bool {
    Lexicographic([a.left, a.right, a.top, a.bottom], [b.left, b.right, b.top, b.bottom])
  }

  lemma {:induction false} LexicographicTotal(a: seq<int>, b: seq<int>)
    ensures Lexicographic(a, b) || Lexicographic(b, a)
  {
    if a != [] && b != [] {
      LexicographicTotal(a[1..], b[1..]);
    }
  }

  lemma {:induction false} LexicographicTransitive(a: seq<int>, b: seq<int>, c: seq<int>)
    requires Lexicographic(a, b) && Lexicographic(b, c)
    ensures Lexicographic(a, c)
  {
    if a != [] && a[0] == b[0] && b[0] == c[0] {
      LexicographicTransitive(a[1..], b[1..], c[1..]);
    }
  }

  /** Both orders compare four numbers one after the other. */
  lemma SpanOrdersMean(a: Span, b: Span)
    ensures ByTop(a, b) <==>
      || a.top < b.top
      || (a.top == b.top && (a.left < b.left
          || (a.left == b.left && (a.bottom < b.bottom || (a.bottom == b.bottom && a.right <= b.right)))))
    ensures ByLeft(a, b) <==>
      || a.left < b.left
      || (a.left == b.left && (a.right < b.right
          || (a.right == b.right && (a.top < b.top || (a.top == b.top && a.bottom <= b.bottom)))))
  {
    LexicographicStep(a.top, [a.left, a.bottom, a.right], b.top, [b.left, b.bottom, b.right]);
    LexicographicStep(a.left, [a.bottom, a.right], b.left, [b.bottom, b.right]);
    LexicographicStep(a.bottom, [a.right], b.bottom, [b.right]);
    LexicographicStep(a.left, [a.right, a.top, a.bottom], b.left, [b.right, b.top, b.bottom]);
    LexicographicStep(a.right, [a.top, a.bottom], b.right, [b.top, b.bottom]);
    LexicographicStep(a.top, [a.bottom], b.top, [b.bottom]);
    LexicographicStep(a.right, [], b.right, []);
    LexicographicStep(a.bottom, [], b.bottom, []);
  }

  lemma LexicographicStep(x: int, a: seq<int>, y: int, b: seq<int>)
    ensures Lexicographic([x] + a, [y] + b) <==> x < y || (x == y && Lexicographic(a, b))
  {
    assert ([x] + a)[1..] == a && ([y] + b)[1..] == b;
  }

  lemma SpanOrders()
    ensures TotalPreorder(ByTop) && TotalPreorder(ByLeft)
    ensures forall a, b :: ByTop(a, b) ==> a.top <= b.top
    ensures forall a, b :: ByLeft(a, b) ==> a.left <= b.left
  {
    forall a: Span, b: Span
      ensures ByTop(a, b) || ByTop(b, a)
      ensures ByLeft(a, b) || ByLeft(b, a)
    {
      LexicographicTotal([a.top, a.left, a.bottom, a.right], [b.top, b.left, b.bottom, b.right]);
      LexicographicTotal([a.left, a.right, a.top, a.bottom], [b.left, b.right, b.top, b.bottom]);
    }
    forall a: Span, b: Span, c: Span
      ensures ByTop(a, b) && ByTop(b, c) ==> ByTop(a, c)
      ensures ByLeft(a, b) && ByLeft(b, c) ==> ByLeft(a, c)
    {
      if ByTop(a, b) && ByTop(b, c) {
        LexicographicTransitive([a.top, a.left, a.bottom, a.right], [b.top, b.left, b.bottom, b.right],
                                [c.top, c.left, c.bottom, c.right]);
      }
      if ByLeft(a, b) && ByLeft(b, c) {
        LexicographicTransitive([a.left, a.right, a.top, a.bottom], [b.left, b.right, b.top, b.bottom],
                                [c.left, c.right, c.top, c.bottom]);
      }
    }
  }

  /** `parent` sits directly on top of `child` and contains its columns. */
  predicate Nested(parent: Span, child: Span) {
    parent.bottom + 1 == child.top && parent.left <= child.left && child.right <= parent.right
  }

  lemma UniqueParent(spans: seq<Span>, a: Span, b: Span, child: Span)
    requires WellFormed(spans) && a in spans && b in spans
    requires Nested(a, child) && Nested(b, child) && child.left <= child.right
    ensures a == b
  {
  }

  /** The facts of one worksheet that header discovery reads. */
  datatype Sheet = Sheet(values: map<Cell, Text>, spans: seq<Span>) {

    /** Only a merged span's origin carries a value, and cells are numbered from 1. */
    ghost predicate Readable() {
      && WellFormed(spans)
      && (forall c :: c in values ==> 1 <= c.row && 1 <= c.column)
      && (forall c, s :: c in values && s in spans && Covers(s, c.row, c.column) ==> c == Origin(s))
    }

    ghost function ValueRows(): set<int> {
      set c | c in values :: c.row
    }

    ghost predicate OccupiedRow(row: int) {
      Occupied(spans, ValueRows(), row)
    }

    predicate PairAt(row: int, quantity: int) {
      && Cell(row, quantity) in values && Cell(row, quantity + 1) in values
      && values[Cell(row, quantity)].quantity && values[Cell(row, quantity + 1)].cost
    }

    predicate Cumulative(s: Span) {
      Origin(s) in values && values[Origin(s)].cumulative
    }

    ghost predicate IsCellSpan(row: int, column: int, s: Span) {
      if exists t :: t in spans && Origin(t) == Cell(row, column) then s in spans && Origin(s) == Cell(row, column)
      else s == Bounds(column, row, column, row)
    }

    /** A metric pair that the downward search reaches from `current`. */
    ghost predicate LeafUnder(current: Span, row: int, column: int)
      requires Readable()
      decreases row - current.bottom
    {
      current.bottom < row &&
      ((current.bottom + 1 == row && current.left <= column <= current.right && PairAt(row, column))
       || exists nested :: nested in spans && Nested(current, nested) && LeafUnder(nested, row, column))
    }

    /** The upward walk from a cell or span meets a cumulative span within the band. */
    ghost predicate Recognised(bandStart: int, s: Span)
      requires Readable()
      decreases if s.top > 0 then s.top else 0
    {
      exists p :: p in spans && Nested(p, s) && bandStart <= p.top && (Cumulative(p) || Recognised(bandStart, p))
    }

    lemma {:induction false} LeafWithin(current: Span, row: int, column: int)
      requires Readable() && LeafUnder(current, row, column)
      ensures current.bottom < row && current.left <= column <= current.right && PairAt(row, column)
      decreases row - current.bottom
    {
      if !(current.bottom + 1 == row && current.left <= column <= current.right && PairAt(row, column)) {
        var nested :| nested in spans && Nested(current, nested) && LeafUnder(nested, row, column);
        LeafWithin(nested, row, column);
      }
    }

    /** Every row from a reached span down to the leaf is occupied. */
    lemma {:induction false} ChainOccupied(current: Span, row: int, column: int)
      requires Readable() && current in spans && LeafUnder(current, row, column)
      ensures forall r :: current.top <= r < row ==> OccupiedRow(r)
      decreases row - current.bottom
    {
      if !(current.bottom + 1 == row && current.left <= column <= current.right && PairAt(row, column)) {
        var nested :| nested in spans && Nested(current, nested) && LeafUnder(nested, row, column);
        ChainOccupied(nested, row, column);
      }
    }

    /** A quantity cell's own span is one column wide: its cost neighbour holds a value. */
    lemma PairIsNarrow(row: int, column: int, s: Span)
      requires Readable() && PairAt(row, column) && IsCellSpan(row, column, s)
      ensures s.left == s.right == column && s.top == row
    {
    }

    lemma {:induction false} ReachedIsRecognised(current: Span, row: int, column: int, s: Span, bandStart: int)
      requires Readable() && current in spans && LeafUnder(current, row, column) && IsCellSpan(row, column, s)
      requires bandStart <= current.top
      requires Cumulative(current) || Recognised(bandStart, current)
      ensures Recognised(bandStart, s)
      decreases row - current.bottom
    {
      LeafWithin(current, row, column);
      PairIsNarrow(row, column, s);
      if current.bottom + 1 == row {
        assert Nested(current, s);
      } else {
        var nested :| nested in spans && Nested(current, nested) && LeafUnder(nested, row, column);
        assert Recognised(bandStart, nested);
        ReachedIsRecognised(nested, row, column, s, bandStart);
      }
    }

    ghost predicate ReachedFromCumulative(row: int, column: int)
      requires Readable()
    {
      exists root :: root in spans && Cumulative(root) && LeafUnder(root, row, column)
    }

    /** Only roots wider than one column nominate layouts. */
    ghost predicate ReachedFromWide(row: int, column: int)
      requires Readable()
    {
      exists root :: root in spans && root.left < root.right && Cumulative(root) && LeafUnder(root, row, column)
    }

    lemma {:induction false} RecognisedIsReached(p: Span, row: int, column: int, bandStart: int)
      requires Readable() && p in spans && LeafUnder(p, row, column) && Recognised(bandStart, p)
      ensures ReachedFromCumulative(row, column)
      decreases if p.top > 0 then p.top else 0
    {
      var q :| q in spans && Nested(q, p) && bandStart <= q.top && (Cumulative(q) || Recognised(bandStart, q));
      assert LeafUnder(q, row, column);
      if !Cumulative(q) {
        RecognisedIsReached(q, row, column, bandStart);
      }
    }

    /** The two walks agree: a metric pair is recognised exactly when a cumulative span reaches it. */
    lemma WalksAgree(row: int, column: int, s: Span, bandStart: int)
      requires Readable() && PairAt(row, column) && IsCellSpan(row, column, s)
      requires IsBandStart(OccupiedRow, row, bandStart)
      ensures Recognised(bandStart, s) <==> ReachedFromCumulative(row, column)
    {
      PairIsNarrow(row, column, s);
      if Recognised(bandStart, s) {
        var p :| p in spans && Nested(p, s) && bandStart <= p.top && (Cumulative(p) || Recognised(bandStart, p));
        assert LeafUnder(p, row, column);
        if !Cumulative(p) {
          RecognisedIsReached(p, row, column, bandStart);
        }
      }
      if ReachedFromCumulative(row, column) {
        var root :| root in spans && Cumulative(root) && LeafUnder(root, row, column);
        ChainOccupied(root, row, column);
        LeafWithin(root, row, column);
        assert bandStart <= root.top;
        ReachedIsRecognised(root, row, column, s, bandStart);
      }
    }

    // ----- The nested spans under a root form a tree -----

    /** A descent: each span directly under, and within the columns of, the one before. */
    ghost predicate Descent(path: seq<Span>) {
      && path != []
      && (forall i :: 0 <= i < |path| ==> path[i] in spans)
      && (forall i :: 0 < i < |path| ==> Nested(path[i - 1], path[i]))
    }

    lemma {:induction false} DescentGoesDown(path: seq<Span>)
      requires Readable() && Descent(path)
      ensures path[0].bottom <= path[|path| - 1].bottom
      ensures |path| > 1 ==> path[0].bottom < path[|path| - 1].top
    {
      if |path| > 1 {
        DescentGoesDown(path[..|path| - 1]);
        assert path[|path| - 2] == path[..|path| - 1][|path| - 2];
        assert path[|path| - 1] in spans && path[|path| - 2] in spans;
      }
    }

    /** A span is reached from a root along one path only. */
    lemma {:induction false} DescentIsUnique(a: seq<Span>, b: seq<Span>)
      requires Readable() && Descent(a) && Descent(b) && a[0] == b[0] && a[|a| - 1] == b[|b| - 1]
      ensures a == b
      decreases |a|
    {
      DescentGoesDown(a);
      DescentGoesDown(b);
      assert a[0] in spans;
      if |a| > 1 && |b| > 1 {
        var a', b' := a[..|a| - 1], b[..|b| - 1];
        assert a[|a| - 1] in spans;
        UniqueParent(spans, a[|a| - 2], b[|b| - 2], a[|a| - 1]);
        DescentIsUnique(a', b');
        assert a == a' + [a[|a| - 1]] && b == b' + [b[|b| - 1]];
      }
    }
  }

  // ----- Lookup tables -----

  /** The spans with each key, in order, and the keys in order of first appearance. */
  ghost predicate Groups(spans: seq<Span>, key: Span -> int, groups: map<int, seq<Span>>) {
    && (forall k :: k in groups <==> exists s :: s in spans && key(s) == k)
    && (forall k :: k in groups ==> groups[k] == Filter(spans, KeyIs(key, k)))
  }

  ghost predicate KeysSorted(spans: seq<Span>, key: Span -> int) {
    forall i, j :: 0 <= i < j < |spans| ==> key(spans[i]) <= key(spans[j])
  }

  ghost predicate Increasing(keys: seq<int>) {
    forall i, j :: 0 <= i < j < |keys| ==> keys[i] < keys[j]
  }

  ghost predicate KeysOf(groups: map<int, seq<Span>>, order: seq<int>) {
    forall k :: k in order <==> k in groups
  }

  method GroupSpans(spans: seq<Span>, key: Span -> int) returns (groups: map<int, seq<Span>>, order: seq<int>)
    ensures Groups(spans, key, groups) && KeysOf(groups, order)
    ensures KeysSorted(spans, key) ==> Increasing(order)
  {
    groups, order := map[], [];
    for n := 0 to |spans|
      invariant Groups(spans[..n], key, groups) && KeysOf(groups, order)
      invariant KeysSorted(spans, key) ==> Increasing(order)
    {
      var s := spans[n];
      var k := key(s);
      Grouped(spans[..n], key, groups, s);
      assert spans[..n + 1] == spans[..n] + [s];
      if k in groups {
        groups := groups[k := groups[k] + [s]];
      } else {
        NewKeyIsLast(spans, n, key, groups, order);
        groups := groups[k := [s]];
        order := order + [k];
      }
    }
    assert spans[..|spans|] == spans;
  }

  /** Over spans in key order a new key is above all earlier ones. */
  lemma NewKeyIsLast(spans: seq<Span>, n: nat, key: Span -> int, groups: map<int, seq<Span>>, order: seq<int>)
    requires n < |spans| && Groups(spans[..n], key, groups) && KeysOf(groups, order)
    requires key(spans[n]) !in groups
    ensures KeysSorted(spans, key) && Increasing(order) ==> Increasing(order + [key(spans[n])])
  {
    forall k | k in order && KeysSorted(spans, key) ensures k < key(spans[n]) {
      assert k in groups;
      var t :| t in spans[..n] && key(t) == k;
    }
    assert forall i :: 0 <= i < |order| ==> order[i] in order;
  }

  /** A group holds exactly the spans with its key. */
  lemma GroupHolds(spans: seq<Span>, key: Span -> int, groups: map<int, seq<Span>>, k: int)
    requires Groups(spans, key, groups)
    ensures forall s :: s in (if k in groups then groups[k] else []) <==> s in spans && key(s) == k
  {
    FilterMembers(spans, KeyIs(key, k));
  }

  lemma GroupIsFilter(spans: seq<Span>, key: Span -> int, groups: map<int, seq<Span>>, k: int)
    requires Groups(spans, key, groups)
    ensures (if k in groups then groups[k] else []) == Filter(spans, KeyIs(key, k))
  {
    FilterMembers(spans, KeyIs(key, k));
    FirstIsMember(Filter(spans, KeyIs(key, k)));
  }

  lemma FirstIsMember<T>(s: seq<T>)
    ensures s == [] || s[0] in s
  {
  }

  lemma Grouped(spans: seq<Span>, key: Span -> int, groups: map<int, seq<Span>>, s: Span)
    requires Groups(spans, key, groups)
    ensures Groups(spans + [s], key, groups[key(s) := (if key(s) in groups then groups[key(s)] else []) + [s]])
  {
    forall k
      ensures Filter(spans + [s], KeyIs(key, k)) == Filter(spans, KeyIs(key, k)) + if key(s) == k then [s] else []
    {
      FilterAppend(spans, s, KeyIs(key, k));
    }
    if key(s) !in groups {
      FilterPrefix(spans, 0, KeyIs(key, key(s)), KeyIs(key, key(s)));
    }
  }

  /** Everything the index precomputes from one sheet. */
  datatype Tables = Tables(
    rowValues: map<int, map<int, Text>>,
    intervals: seq<Rows>,
    spansByTop: map<int, seq<Span>>,
    tops: seq<int>,
    spansByBottom: map<int, seq<Span>>,
    spanByOrigin: map<Cell, Span>,
    spansByLeft: seq<Span>,
    rows: seq<int>,
    maxColumn: int,
    lastSparseRow: int)

  ghost predicate RowValuesOf(values: map<Cell, Text>, rowValues: map<int, map<int, Text>>) {
    && (forall c :: c in values ==> c.row in rowValues && c.column in rowValues[c.row])
    && (forall r, c :: r in rowValues && c in rowValues[r] ==>
      Cell(r, c) in values && rowValues[r][c] == values[Cell(r, c)])
    && (forall r :: r in rowValues ==> rowValues[r] != map[])
  }

  ghost predicate OriginsOf(spans: seq<Span>, byOrigin: map<Cell, Span>) {
    && (forall s :: s in spans ==> Origin(s) in byOrigin)
    && (forall c :: c in byOrigin ==> byOrigin[c] in spans && Origin(byOrigin[c]) == c)
  }

  ghost predicate TablesOf(sheet: Sheet, t: Tables) {
    && RowValuesOf(sheet.values, t.rowValues)
    && Separated(t.intervals) && (forall row :: InSome(t.intervals, row) <==> sheet.OccupiedRow(row))
    && Groups(sheet.spans, TopOf, t.spansByTop)
    && KeysOf(t.spansByTop, t.tops) && Increasing(t.tops)
    && Groups(sheet.spans, BottomOf, t.spansByBottom)
    && OriginsOf(sheet.spans, t.spanByOrigin)
    && SortedBy(t.spansByLeft, ByLeft) && multiset(t.spansByLeft) == multiset(sheet.spans)
    && (forall r :: r in t.rows <==> r in t.rowValues)
    && Increasing(t.rows)
    && (forall c :: c in sheet.values ==> c.column <= t.maxColumn && c.row <= t.lastSparseRow)
    && (forall s :: s in sheet.spans ==> s.right <= t.maxColumn && s.bottom <= t.lastSparseRow)
  }

  method BuildRowValues(values: map<Cell, Text>) returns (rowValues: map<int, map<int, Text>>)
    ensures RowValuesOf(values, rowValues)
  {
    rowValues := map[];
    var rest := values.Keys;
    while rest != {}
      invariant rest <= values.Keys
      invariant RowValuesOf(map c | c in values && c !in rest :: values[c], rowValues)
      decreases rest
    {
      var c :| c in rest;
      rest := rest - {c};
      rowValues := rowValues[c.row := (if c.row in rowValues then rowValues[c.row] else map[])[c.column := values[c]]];
    }
    assert (map c | c in values && c !in rest :: values[c]) == values;
  }

  method BuildOrigins(spans: seq<Span>) returns (byOrigin: map<Cell, Span>)
    requires WellFormed(spans)
    ensures OriginsOf(spans, byOrigin)
  {
    byOrigin := map[];
    for n := 0 to |spans|
      invariant OriginsOf(spans[..n], byOrigin)
    {
      byOrigin := byOrigin[Origin(spans[n]) := spans[n]];
    }
    assert spans[..|spans|] == spans;
  }

  /** The last column and the last row that hold a value, a formula or part of a merged span; 0 when there is none. */
  ghost predicate IsExtent(cells: set<Cell>, spans: seq<Span>, maxColumn: int, lastRow: int) {
    && maxColumn >= 0 && lastRow >= 0
    && (forall c :: c in cells ==> c.column <= maxColumn && c.row <= lastRow)
    && (forall s :: s in spans ==> s.left <= maxColumn && s.right <= maxColumn && s.bottom <= lastRow)
    && (maxColumn == 0 || (exists c :: c in cells && c.column == maxColumn)
        || exists s :: s in spans && maxColumn in {s.left, s.right})
    && (lastRow == 0 || (exists c :: c in cells && c.row == lastRow) || exists s :: s in spans && lastRow == s.bottom)
  }

  method Extent(cells: set<Cell>, spans: seq<Span>) returns (maxColumn: int, lastRow: int)
    ensures IsExtent(cells, spans, maxColumn, lastRow)
  {
    maxColumn, lastRow := 0, 0;
    var rest := cells;
    while rest != {}
      invariant rest <= cells && IsExtent(cells - rest, [], maxColumn, lastRow)
      decreases rest
    {
      var c :| c in rest;
      assert cells - (rest - {c}) == (cells - rest) + {c};
      rest := rest - {c};
      maxColumn, lastRow := Max(maxColumn, c.column), Max(lastRow, c.row);
    }
    assert cells - rest == cells && spans[..0] == [];
    for n := 0 to |spans|
      invariant IsExtent(cells, spans[..n], maxColumn, lastRow)
    {
      ExtentGrows(cells, spans, n, maxColumn, lastRow);
      maxColumn := Max(maxColumn, Max(spans[n].left, spans[n].right));
      lastRow := Max(lastRow, spans[n].bottom);
    }
    assert spans[..|spans|] == spans;
  }

  lemma ExtentGrows(cells: set<Cell>, spans: seq<Span>, n: nat, maxColumn: int, lastRow: int)
    requires n < |spans| && IsExtent(cells, spans[..n], maxColumn, lastRow)
    ensures IsExtent(cells, spans[..n + 1], Max(maxColumn, Max(spans[n].left, spans[n].right)),
                     Max(lastRow, spans[n].bottom))
  {
    var longer := spans[..n + 1];
    assert longer == spans[..n] + [spans[n]];
    assert longer[n] in longer;
    assert forall s :: s in spans[..n] ==> s in longer;
  }

  /**
   Builds the index, or refuses: too many sparse cells, too many merges, or two merged
   ranges sharing a cell.
   */
  method SparseRegionIndex(values: map<Cell, Text>, formulas: set<Cell>, ranges: seq<Span>)
    returns (index: Option<(Sheet, Tables)>)
    requires forall c :: c in values ==> 1 <= c.row && 1 <= c.column
    requires forall s :: s in ranges ==> 1 <= s.top <= s.bottom && 1 <= s.left <= s.right
    requires forall c, s :: c in values && s in ranges && Covers(s, c.row, c.column) ==> c == Origin(s)
    ensures index.None? <==>
      |values.Keys + formulas| > REGION_CELL_LIMIT || |ranges| > REGION_MERGE_LIMIT || SomeOverlap(ranges)
    ensures index.Some? ==> var (sheet, tables) := index.value;
      && sheet.values == values && multiset(sheet.spans) == multiset(ranges) && SortedBy(sheet.spans, ByTop)
      && sheet.Readable() && TablesOf(sheet, tables)
      && IsExtent(values.Keys + formulas, sheet.spans, tables.maxColumn, tables.lastSparseRow)
  {
    if |values.Keys + formulas| > REGION_CELL_LIMIT {
      return None;
    }
    var spans := SortBy(ranges, ByTop);
    SpanOrders();
    SortBySorts(ranges, ByTop);
    OverlapsAreOrderFree(ranges, spans);
    OverlapsAreOrderFree(spans, ranges);
    if |spans| > REGION_MERGE_LIMIT || SomeOverlapTest(spans) {
      return None;
    }
    var sheet := Sheet(values, spans);
    var tables := BuildTables(sheet, formulas);
    index := Some((sheet, tables));
  }

  /** The pairwise test, which also rejects a repeated origin. */
  predicate SomeOverlapTest(spans: seq<Span>)
    ensures SomeOverlapTest(spans) <==> SomeOverlap(spans)
  {
    exists i, j :: 0 <= i < |spans| && i < j < |spans| && Overlaps(spans[i], spans[j])
  }

  method BuildTables(sheet: Sheet, formulas: set<Cell>) returns (t: Tables)
    requires sheet.Readable() && SortedBy(sheet.spans, ByTop)
    ensures TablesOf(sheet, t)
    ensures IsExtent(sheet.values.Keys + formulas, sheet.spans, t.maxColumn, t.lastSparseRow)
  {
    var spans := sheet.spans;
    SpanOrders();
    var rowValues := BuildRowValues(sheet.values);
    forall r | r in rowValues ensures r in sheet.ValueRows() {
      assert rowValues[r].Keys != {};
      HasElement(rowValues[r].Keys);
      ghost var c :| c in rowValues[r];
      assert Cell(r, c) in sheet.values;
    }
    assert rowValues.Keys == sheet.ValueRows();
    var intervals := CoalescedRowIntervals(spans, rowValues.Keys);
    var spansByTop, tops := GroupSpans(spans, TopOf);
    var spansByBottom, _ := GroupSpans(spans, BottomOf);
    var spanByOrigin := BuildOrigins(spans);
    var spansByLeft := SortBy(spans, ByLeft);
    SortBySorts(spans, ByLeft);
    var rows := Sorted(rowValues.Keys);
    var maxColumn, lastSparseRow := Extent(sheet.values.Keys + formulas, spans);
    t := Tables(rowValues, intervals, spansByTop, tops, spansByBottom, spanByOrigin, spansByLeft, rows,
                maxColumn, lastSparseRow);
  }

  lemma {:induction false} FilterDistinct<T>(s: seq<T>, p: T -> bool)
    requires Distinct(s)
    ensures Distinct(Filter(s, p))
  {
    if s != [] {
      FilterDistinct(s[..|s| - 1], p);
      FilterMembers(s[..|s| - 1], p);
    }
  }

  lemma {:induction false} DistinctCounts<T>(s: seq<T>, members: set<T>)
    requires Distinct(s) && forall x :: x in s <==> x in members
    ensures |s| == |members|
  {
    if s != [] {
      var front, last := s[..|s| - 1], s[|s| - 1];
      assert s == front + [last];
      assert last !in front;
      DistinctCounts(front, members - {last});
    } else {
      assert members == {};
    }
  }

  lemma SpansAreDistinct(spans: seq<Span>)
    requires WellFormed(spans)
    ensures Distinct(spans)
  {
  }

  lemma {:induction false} SameIncreasing(a: seq<int>, b: seq<int>)
    requires Increasing(a) && Increasing(b)
    requires forall x :: x in a <==> x in b
    ensures a == b
  {
    assert a == [] || a[0] in a;
    assert b == [] || b[0] in b;
    if a != [] && b != [] {
      assert a[|a| - 1] in b && b[|b| - 1] in a;
      var x := a[|a| - 1];
      assert b[|b| - 1] == x;
      var a', b' := a[..|a| - 1], b[..|b| - 1];
      assert a == a' + [x] && b == b' + [x];
      forall y ensures y in a' <==> y in b' {
        assert y in a <==> y in b;
      }
      SameIncreasing(a', b');
    }
  }

  /** A layout candidate: one metric region with its resolved work and unit columns. */
  datatype Region = Region(quantity: int, cost: int, headerEnd: int, metricSpan: Bounds, bandStart: int)

  datatype Layout = Layout(region: Region, work: int, unit: int, cumulative: bool)

  /** Work and unit columns that the header vocabulary finds for a band, around the metric columns, if any. */
  type Roles = (int, int, int, int, bool) -> Option<(int, int)>

  /** What a step of the discovery costs, in visits and in probes. */
  datatype Cost = Cost(visits: nat, probes: nat) {
    function Plus(other: Cost): Cost {
      Cost(visits + other.visits, probes + other.probes)
    }

    predicate AtMost(other: Cost) {
      visits <= other.visits && probes <= other.probes
    }
  }

  const FREE := Cost(0, 0)

  // ----- The index object -----

  class Index {
    const sheet: Sheet
    const tables: Tables
    var cache: map<(int, int, int), seq<Span>>
    var visitCount: nat

    constructor (sheet: Sheet, tables: Tables)
      requires sheet.Readable() && TablesOf(sheet, tables)
      ensures this.sheet == sheet && this.tables == tables && visitCount == 0 && cache == map[]
      ensures Valid()
    {
      this.sheet, this.tables := sheet, tables;
      cache, visitCount := map[], 0;
    }

    /** A full scan for one band of rows, in any order. */
    ghost predicate IsBandScan(r: seq<Span>, start: int, end: int) {
      Distinct(r) && forall s :: s in r <==> s in sheet.spans && MeetsBand(s, start, end)
    }

    /** A full scan for one column and band, ordered by left column. */
    ghost predicate IsColumnScan(r: seq<Span>, column: int, start: int, end: int) {
      r == Filter(tables.spansByLeft, CoversColumn(column, start, end))
    }

    /** Both kinds of query share one cache; column -1 marks the band entries. */
    ghost predicate CacheOk()
      reads `cache
    {
      forall k :: k in cache ==>
        if k.0 == -1 then IsBandScan(cache[k], k.1, k.2) else IsColumnScan(cache[k], k.0, k.1, k.2)
    }

    ghost predicate Valid()
      reads `cache
    {
      sheet.Readable() && TablesOf(sheet, tables) && CacheOk()
    }

    /**
     A query that succeeds has visited exactly `visits` things, within the budget; it fails as soon
     as the budget is exceeded. Most queries change nothing but the visit counter, which `Valid()`
     does not read.
     */
    predicate Paid(ok: bool, before: nat, visits: nat)
      reads `visitCount
    {
      && before <= visitCount <= before + visits
      && (ok ==> visitCount == before + visits && (before <= REGION_VISIT_LIMIT ==> visitCount <= REGION_VISIT_LIMIT))
      && (!ok ==> visitCount > REGION_VISIT_LIMIT)
    }

    /** Every query pays for what it visits; past the budget the layout is refused. */
    method Consume(amount: nat) returns (ok: bool)
      modifies `visitCount
      ensures visitCount == old(visitCount) + amount
      ensures ok <==> visitCount <= REGION_VISIT_LIMIT
    {
      visitCount := visitCount + amount;
      ok := visitCount <= REGION_VISIT_LIMIT;
    }

    method BandStart(row: int) returns (ok: bool, start: int)
      requires Valid() && row >= 1
      modifies `visitCount
      ensures Paid(ok, old(visitCount), BandVisits(row))
      ensures ok ==> start >= 1 && IsBandStart(sheet.OccupiedRow, row, start)
    {
      start := row;
      while start > 1
        invariant 1 <= start <= row
        invariant forall r :: start <= r < row ==> sheet.OccupiedRow(r)
        invariant start < row ==> IsBandStart(sheet.OccupiedRow, row, start)
        invariant Paid(true, old(visitCount), if start < row then 1 else 0)
        decreases start
      {
        BandVisitsAre(row, start);
        ok := Consume(1);
        if !ok {
          return false, start;
        }
        var interval := MergeIntervalContaining(tables.intervals, start - 1);
        if interval.None? {
          assert !InSome(tables.intervals, start - 1);
          BandVisitsAre(row, start);
          return true, start;
        }
        assert InSome(tables.intervals, start - 1);
        IntervalRows(interval.value);
        start := interval.value.first;
      }
      BandVisitsAre(row, start);
      ok := true;
    }

    /** An interval is left by one step to its first row; the row before it is free. */
    ghost function BandVisits(row: int): nat {
      if row <= 1 then 0 else if sheet.OccupiedRow(row - 1) && StartOf(row) > 1 then 2 else 1
    }

    lemma BandVisitsAre(row: int, start: int)
      requires 1 <= start <= row
      requires start < row ==> IsBandStart(sheet.OccupiedRow, row, start)
      ensures BandVisits(row) ==
        if start < row then (if start > 1 then 2 else 1)
        else if row <= 1 then 0
        else if !sheet.OccupiedRow(row - 1) then 1
        else if StartOf(row) > 1 then 2 else 1
    {
      StartOfIsBandStart(row);
      if start < row {
        BandStartIsUnique(sheet.OccupiedRow, row, start, StartOf(row));
      }
    }

    lemma IntervalRows(interval: Rows)
      requires sheet.Readable() && TablesOf(sheet, tables) && interval in tables.intervals
      ensures forall r :: interval.first <= r <= interval.last ==> sheet.OccupiedRow(r)
      ensures interval.first >= 1 && !sheet.OccupiedRow(interval.first - 1)
    {
      var i :| 0 <= i < |tables.intervals| && tables.intervals[i] == interval;
      forall r | interval.first <= r <= interval.last ensures sheet.OccupiedRow(r) {
        assert InSome(tables.intervals, r);
      }
      assert sheet.OccupiedRow(interval.first);
      assert !InSome(tables.intervals, interval.first - 1);
    }

    /** The spans whose left column is at or before this one. */
    ghost function StartingUpTo(column: int): nat {
      |set s | s in sheet.spans && s.left <= column|
    }

    lemma CutoffCounts(column: int, cutoff: nat)
      requires sheet.Readable() && multiset(tables.spansByLeft) == multiset(sheet.spans)
      requires cutoff <= |tables.spansByLeft|
      requires forall i :: 0 <= i < cutoff ==> tables.spansByLeft[i].left <= column
      requires forall i :: cutoff <= i < |tables.spansByLeft| ==> tables.spansByLeft[i].left > column
      ensures cutoff == StartingUpTo(column)
    {
      var byLeft, front := tables.spansByLeft, tables.spansByLeft[..cutoff];
      OverlapsAreOrderFree(byLeft, sheet.spans);
      forall s ensures s in byLeft <==> s in sheet.spans {
        assert s in byLeft <==> s in multiset(byLeft);
        assert s in sheet.spans <==> s in multiset(sheet.spans);
      }
      SpansAreDistinct(byLeft);
      assert byLeft == front + byLeft[cutoff..];
      DistinctCounts(front, set s | s in sheet.spans && s.left <= column);
    }

    /** The spans whose top row is at or above this one. */
    ghost function ToppingUpTo(end: int): nat {
      |set s | s in sheet.spans && s.top <= end|
    }

    method CoveringSpans(column: int, start: int, end: int) returns (ok: bool, result: seq<Span>)
      requires Valid() && column >= 0
      modifies this
      ensures Valid()
      ensures Paid(ok, old(visitCount), if (column, start, end) in old(cache) then 0 else StartingUpTo(column))
      ensures ok ==> IsColumnScan(result, column, start, end)
    {
      var key := (column, start, end);
      if key in cache {
        return true, cache[key];
      }
      var byLeft := tables.spansByLeft;
      var starts := seq(|byLeft|, i requires 0 <= i < |byLeft| => byLeft[i].left);
      SpanOrders();
      var cutoff := BisectRight(starts, column);
      assert forall i :: 0 <= i < |byLeft| ==> starts[i] == byLeft[i].left;
      CutoffCounts(column, cutoff);
      ok := Consume(cutoff);
      if !ok {
        return false, [];
      }
      var wanted := (s: Span) => s.right >= column && s.top <= end && s.bottom >= start;
      result := Filter(byLeft[..cutoff], wanted);
      forall i | cutoff <= i < |byLeft| ensures !CoversColumn(column, start, end)(byLeft[i]) {
        assert starts[i] > column;
      }
      forall i | 0 <= i < cutoff ensures wanted(byLeft[i]) == CoversColumn(column, start, end)(byLeft[i]) {
        assert starts[i] <= column;
      }
      FilterPrefix(byLeft, cutoff, wanted, CoversColumn(column, start, end));
      cache := cache[key := result];
    }

    method BandSpans(start: int, end: int) returns (ok: bool, result: seq<Span>)
      requires Valid()
      modifies this
      ensures Valid() && Paid(ok, old(visitCount), if (-1, start, end) in old(cache) then 0 else ToppingUpTo(end))
      ensures ok ==> IsBandScan(result, start, end)
    {
      var key := (-1, start, end);
      if key in cache {
        return true, cache[key];
      }
      assert forall i, j :: 0 <= i < j < |tables.tops| ==> tables.tops[i] <= tables.tops[j];
      var limit := BisectRight(tables.tops, end);
      var sortedTops := Sorted(tables.spansByTop.Keys);
      SameIncreasing(sortedTops, tables.tops);
      var candidates := GatherByTop(sortedTops[..limit]);
      BandCounts(end, limit, candidates);
      ok := Consume(|candidates|);
      if !ok {
        return false, [];
      }
      var wanted := (s: Span) => s.bottom >= start;
      result := Filter(candidates, wanted);
      BandFound(start, end, limit, candidates, wanted);
      cache := cache[key := result];
    }

    lemma BandCounts(end: int, limit: nat, candidates: seq<Span>)
      requires Groups(sheet.spans, TopOf, tables.spansByTop)
      requires KeysOf(tables.spansByTop, tables.tops)
      requires limit <= |tables.tops| && forall i :: 0 <= i < |tables.tops| ==> (i < limit <==> tables.tops[i] <= end)
      requires Distinct(candidates) && HaveTops(candidates, tables.tops[..limit])
      ensures |candidates| == ToppingUpTo(end)
    {
      forall s | s in sheet.spans ensures s.top <= end <==> s.top in tables.tops[..limit] {
        assert TopOf(s) == s.top && s.top in tables.tops;
      }
      DistinctCounts(candidates, set s | s in sheet.spans && s.top <= end);
    }

    lemma BandFound(start: int, end: int, limit: nat, candidates: seq<Span>, wanted: Span -> bool)
      requires Groups(sheet.spans, TopOf, tables.spansByTop)
      requires KeysOf(tables.spansByTop, tables.tops)
      requires limit <= |tables.tops| && forall i :: 0 <= i < |tables.tops| ==> (i < limit <==> tables.tops[i] <= end)
      requires Distinct(candidates) && HaveTops(candidates, tables.tops[..limit])
      requires forall s: Span :: wanted(s) == (s.bottom >= start)
      ensures IsBandScan(Filter(candidates, wanted), start, end)
    {
      FilterDistinct(candidates, wanted);
      FilterMembers(candidates, wanted);
      forall s | s in sheet.spans ensures s.top <= end <==> s.top in tables.tops[..limit] {
        assert TopOf(s) == s.top && s.top in tables.tops;
      }
    }

    method GatherByTop(tops: seq<int>) returns (candidates: seq<Span>)
      requires Valid() && Increasing(tops)
      requires forall k :: k in tops ==> k in tables.spansByTop
      ensures Distinct(candidates) && HaveTops(candidates, tops)
    {
      candidates := [];
      for n := 0 to |tops|
        invariant Distinct(candidates) && HaveTops(candidates, tops[..n])
      {
        assert tops[n] in tops;
        AddGroup(candidates, tops, n, tables.spansByTop[tops[n]]);
        candidates := candidates + tables.spansByTop[tops[n]];
      }
      assert tops[..|tops|] == tops;
    }

    ghost predicate HaveTops(candidates: seq<Span>, tops: seq<int>) {
      forall s :: s in candidates <==> s in sheet.spans && s.top in tops
    }

    lemma AddGroup(candidates: seq<Span>, tops: seq<int>, n: nat, group: seq<Span>)
      requires WellFormed(sheet.spans) && n < |tops|
      requires group == Filter(sheet.spans, KeyIs(TopOf, tops[n]))
      requires Increasing(tops)
      requires Distinct(candidates) && HaveTops(candidates, tops[..n])
      ensures Distinct(candidates + group) && HaveTops(candidates + group, tops[..n + 1])
    {
      SpansAreDistinct(sheet.spans);
      FilterMembers(sheet.spans, KeyIs(TopOf, tops[n]));
      FilterDistinct(sheet.spans, KeyIs(TopOf, tops[n]));
      assert tops[..n + 1] == tops[..n] + [tops[n]];
      forall s: Span ensures KeyIs(TopOf, tops[n])(s) <==> s.top == tops[n] {
        assert TopOf(s) == s.top;
      }
      forall i, j | 0 <= i < |candidates| && 0 <= j < |group| ensures candidates[i] != group[j] {
        assert candidates[i] in candidates && group[j] in group;
      }
    }

    /** Metric pairs of one row whose quantity column lies in [start, end]. */
    method MetricPairs(row: int, start: int, end: int) returns (ok: bool, quantities: seq<int>)
      requires Valid()
      modifies `visitCount
      ensures Paid(ok, old(visitCount), ColumnsIn(row, start, end))
      ensures ok ==> forall q :: q in quantities <==> start <= q <= end && sheet.PairAt(row, q)
      ensures ok ==> Increasing(quantities)
      ensures ok ==> quantities == PairsIn(row, start, end)
    {
      var values := if row in tables.rowValues then tables.rowValues[row] else map[];
      var within := set c | c in values && start <= c <= end;
      var columns := Sorted(within);
      assert forall c :: c in values <==> Cell(row, c) in sheet.values;
      assert within == set c | start <= c <= end && Cell(row, c) in sheet.values;
      DistinctCounts(columns, within);
      ok := Consume(|columns|);
      quantities := [];
      if !ok {
        return;
      }
      for n := 0 to |columns|
        invariant forall q :: q in quantities <==> q in columns[..n] && sheet.PairAt(row, q)
        invariant Increasing(quantities)
        invariant forall i, m :: 0 <= i < |quantities| && n <= m < |columns| ==> quantities[i] < columns[m]
      {
        var q := columns[n];
        assert q in columns;
        if q + 1 in values && values[q].quantity && values[q + 1].cost {
          quantities := quantities + [q];
        }
        assert columns[..n + 1] == columns[..n] + [q];
      }
      assert columns[..|columns|] == columns;
      PairsInAre(row, start, end);
      SameIncreasing(quantities, PairsIn(row, start, end));
    }

    /** The columns of a row in [start, end] that hold a value: the row pays for each. */
    ghost function ColumnsIn(row: int, start: int, end: int): nat {
      |set c | start <= c <= end && Cell(row, c) in sheet.values|
    }

    /** The quantity columns of a row's metric pairs, from left to right. */
    ghost function PairsIn(row: int, start: int, end: int): seq<int>
      decreases end - start + 1
    {
      if start > end then []
      else (if sheet.PairAt(row, start) then [start] else []) + PairsIn(row, start + 1, end)
    }

    lemma {:induction false} PairsInAre(row: int, start: int, end: int)
      ensures forall q :: q in PairsIn(row, start, end) <==> start <= q <= end && sheet.PairAt(row, q)
      ensures Increasing(PairsIn(row, start, end))
      decreases end - start + 1
    {
      if start <= end {
        PairsInAre(row, start + 1, end);
        Prepended(start, PairsIn(row, start + 1, end));
      }
    }

    lemma Prepended(first: int, rest: seq<int>)
      requires Increasing(rest) && forall x :: x in rest ==> first < x
      ensures Increasing([first] + rest)
    {
      assert forall i :: 0 <= i < |rest| ==> rest[i] in rest;
    }

    /** Header cells include the whole merged span of each metric cell. */
    function HeaderEnd(row: int, quantity: int, cost: int): (end: int)
      ensures end >= row
    {
      var origins := tables.spanByOrigin;
      var q := if Cell(row, quantity) in origins then origins[Cell(row, quantity)].bottom else row;
      var c := if Cell(row, cost) in origins then origins[Cell(row, cost)].bottom else row;
      Max(row, Max(q, c))
    }

    /** The header ends at the last row of the merged spans that start at its two cells, or at the cells themselves. */
    lemma HeaderEndMeans(row: int, quantity: int, cost: int)
      requires sheet.Readable() && OriginsOf(sheet.spans, tables.spanByOrigin)
      ensures var end := HeaderEnd(row, quantity, cost);
        && row <= end
        && (forall s :: s in sheet.spans && Origin(s) in {Cell(row, quantity), Cell(row, cost)} ==> s.bottom <= end)
        && (end == row
            || exists s :: s in sheet.spans && Origin(s) in {Cell(row, quantity), Cell(row, cost)} && s.bottom == end)
    {
      forall s | s in sheet.spans && Origin(s) in {Cell(row, quantity), Cell(row, cost)}
        ensures s.bottom <= HeaderEnd(row, quantity, cost)
      {
        OneSpanPerCell(sheet.spans, s, tables.spanByOrigin[Origin(s)]);
      }
    }

    /** `leaves` lists each metric pair under `current` once, and nothing else. */
    ghost predicate AreLeaves(leaves: seq<Leaf>, under: (int, int) -> bool) {
      && (forall l :: l in leaves ==> l.cost == l.quantity + 1 && l.headerEnd == HeaderEnd(l.row, l.quantity, l.cost))
      && (forall l :: l in leaves ==> under(l.row, l.quantity))
      && (forall row, q :: under(row, q) ==> Leaf(row, q, q + 1, HeaderEnd(row, q, q + 1)) in leaves)
      && Distinct(leaves)
    }

    /** The part of the search under `current` that starts in one of its nested spans. */
    ghost function UnderNested(nested: seq<Span>): (int, int) -> bool
      requires sheet.Readable()
    {
      (row: int, q: int) => exists s :: s in nested && sheet.LeafUnder(s, row, q)
    }

    /** The quantity cells directly below `current`. */
    ghost function DirectlyUnder(current: Span): (int, int) -> bool {
      (row: int, q: int) => row == current.bottom + 1 && current.left <= q <= current.right && sheet.PairAt(row, q)
    }

    ghost function Under(current: Span): (int, int) -> bool
      requires sheet.Readable()
    {
      (row: int, q: int) => sheet.LeafUnder(current, row, q)
    }

    /** The direct pairs of one row as leaves. */
    method LeavesOfRow(current: Span) returns (ok: bool, leaves: seq<Leaf>)
      requires Valid()
      modifies `visitCount
      ensures Paid(ok, old(visitCount), ColumnsIn(current.bottom + 1, current.left, current.right))
      ensures ok ==> leaves == DirectLeaves(current)
    {
      var row := current.bottom + 1;
      var quantities;
      ok, quantities := MetricPairs(row, current.left, current.right);
      if !ok {
        return false, [];
      }
      leaves := LeavesAt(row, quantities);
    }

    ghost function DirectLeaves(current: Span): seq<Leaf> {
      LeavesAt(current.bottom + 1, PairsIn(current.bottom + 1, current.left, current.right))
    }

    ghost predicate SpansBounded() {
      forall s :: s in sheet.spans ==> s.bottom <= tables.lastSparseRow
    }

    /** All leaves under a span, in the order of the search: the row below first, then each nested span. */
    ghost function LeafSeq(current: Span): seq<Leaf>
      requires WellFormed(sheet.spans) && SpansBounded() && current in sheet.spans
      decreases tables.lastSparseRow - current.bottom, 1
    {
      FilterMembers(sheet.spans, KeyIs(TopOf, current.bottom + 1));
      DirectLeaves(current) + NestedSeq(current, BelowOf(current))
    }

    /** The spans that start on the row below `current`, in sheet order. */
    ghost function BelowOf(current: Span): seq<Span> {
      Filter(sheet.spans, KeyIs(TopOf, current.bottom + 1))
    }

    ghost function NestedSeq(current: Span, below: seq<Span>): seq<Leaf>
      requires WellFormed(sheet.spans) && SpansBounded() && current in sheet.spans
      requires forall s :: s in below ==> s in sheet.spans
      decreases tables.lastSparseRow - current.bottom, 0, |below|
    {
      if below == [] then []
      else
        var last := below[|below| - 1];
        NestedSeq(current, below[..|below| - 1]) + if Nested(current, last) then LeafSeq(last) else []
    }

    /** What the search under a span visits: the row below it, then whatever each nested span does. */
    ghost function LeafVisits(current: Span): nat
      requires WellFormed(sheet.spans) && SpansBounded() && current in sheet.spans
      decreases tables.lastSparseRow - current.bottom, 1
    {
      FilterMembers(sheet.spans, KeyIs(TopOf, current.bottom + 1));
      ColumnsIn(current.bottom + 1, current.left, current.right) + NestedVisits(current, BelowOf(current))
    }

    lemma LeafVisitsAre(current: Span)
      requires WellFormed(sheet.spans) && SpansBounded() && current in sheet.spans
      ensures forall s :: s in BelowOf(current) ==> s in sheet.spans
      ensures LeafVisits(current)
           == ColumnsIn(current.bottom + 1, current.left, current.right) + NestedVisits(current, BelowOf(current))
    {
      FilterMembers(sheet.spans, KeyIs(TopOf, current.bottom + 1));
    }

    ghost function NestedVisits(current: Span, below: seq<Span>): nat
      requires WellFormed(sheet.spans) && SpansBounded() && current in sheet.spans
      requires forall s :: s in below ==> s in sheet.spans
      decreases tables.lastSparseRow - current.bottom, 0, |below|
    {
      if below == [] then 0
      else
        var last := below[|below| - 1];
        NestedVisits(current, below[..|below| - 1]) + if Nested(current, last) then LeafVisits(last) else 0
    }

    lemma {:induction false} NestedVisitsGrow(current: Span, below: seq<Span>, n: nat)
      requires WellFormed(sheet.spans) && SpansBounded() && current in sheet.spans && n <= |below|
      requires forall s :: s in below ==> s in sheet.spans
      ensures NestedVisits(current, below[..n]) <= NestedVisits(current, below)
      decreases |below|
    {
      if n < |below| {
        var front := below[..|below| - 1];
        assert front[..n] == below[..n];
        NestedVisitsGrow(current, front, n);
      } else {
        assert below[..n] == below;
      }
    }

    lemma NestedVisitsStep(current: Span, below: seq<Span>, n: nat)
      requires WellFormed(sheet.spans) && SpansBounded() && current in sheet.spans && n < |below|
      requires forall s :: s in below ==> s in sheet.spans
      ensures below[n] in sheet.spans
      ensures NestedVisits(current, below[..n + 1])
           == NestedVisits(current, below[..n]) + if Nested(current, below[n]) then LeafVisits(below[n]) else 0
      ensures NestedVisits(current, below[..n + 1]) <= NestedVisits(current, below)
    {
      assert below[..n + 1][..n] == below[..n];
      NestedVisitsGrow(current, below, n + 1);
    }

    lemma NestedSeqStep(current: Span, below: seq<Span>, n: nat, direct: seq<Leaf>)
      requires WellFormed(sheet.spans) && SpansBounded() && current in sheet.spans && n < |below|
      requires forall s :: s in below ==> s in sheet.spans
      ensures below[n] in sheet.spans
      ensures direct + NestedSeq(current, below[..n + 1])
           == (direct + NestedSeq(current, below[..n])) + if Nested(current, below[n]) then LeafSeq(below[n]) else []
    {
      assert below[..n + 1][..n] == below[..n];
      var more := if Nested(current, below[n]) then LeafSeq(below[n]) else [];
      Associates(direct, NestedSeq(current, below[..n]), more);
    }

    function LeavesAt(row: int, quantities: seq<int>): seq<Leaf> {
      seq(|quantities|, i requires 0 <= i < |quantities| =>
        Leaf(row, quantities[i], quantities[i] + 1, HeaderEnd(row, quantities[i], quantities[i] + 1)))
    }

    lemma LeavesAtAreLeaves(current: Span, quantities: seq<int>)
      requires forall q :: q in quantities <==>
        current.left <= q <= current.right && sheet.PairAt(current.bottom + 1, q)
      requires Increasing(quantities)
      ensures AreLeaves(LeavesAt(current.bottom + 1, quantities), DirectlyUnder(current))
    {
      var leaves := LeavesAt(current.bottom + 1, quantities);
      forall r, q | DirectlyUnder(current)(r, q) ensures Leaf(r, q, q + 1, HeaderEnd(r, q, q + 1)) in leaves {
        assert q in quantities;
        var i :| 0 <= i < |quantities| && quantities[i] == q;
        assert leaves[i] == Leaf(r, q, q + 1, HeaderEnd(r, q, q + 1));
      }
      forall l | l in leaves ensures l.quantity in quantities {
        var i :| 0 <= i < |leaves| && leaves[i] == l;
      }
    }

    /**
     The downward search from a merged span.  `seen` holds the spans above it, so the
     guard on it never cuts the search short.
     */
    method CumulativeLeaves(current: Span, seen: set<Span>) returns (ok: bool, leaves: seq<Leaf>)
      requires Valid() && current in sheet.spans
      requires forall s :: s in seen ==> s.bottom < current.top
      modifies `visitCount
      ensures SpansBounded() && Paid(ok, old(visitCount), LeafVisits(current))
      ensures ok ==> leaves == LeafSeq(current) && AreLeaves(leaves, Under(current))
      decreases tables.lastSparseRow - current.bottom, 1
    {
      if current in seen {
        return true, [];
      }
      LeafSeqIs(current);
      LeafVisitsAre(current);
      ok, leaves := SearchBelow(current, seen);
    }

    /** The row below a span, then the spans that start there. */
    method SearchBelow(current: Span, seen: set<Span>) returns (ok: bool, leaves: seq<Leaf>)
      requires Valid() && current in sheet.spans
      requires forall s :: s in seen ==> s.bottom < current.top
      modifies `visitCount
      ensures SpansBounded() && (forall s :: s in BelowOf(current) ==> s in sheet.spans)
      ensures var row := current.bottom + 1;
        Paid(ok, old(visitCount), ColumnsIn(row, current.left, current.right) + NestedVisits(current, BelowOf(current)))
      ensures ok ==> leaves == DirectLeaves(current) + NestedSeq(current, BelowOf(current))
      decreases tables.lastSparseRow - current.bottom, 0, 1
    {
      var below := SpansBelow(current);
      ok, leaves := LeavesOfRow(current);
      if !ok {
        return false, [];
      }
      ok, leaves := NestedLeaves(current, seen, leaves, below);
    }

    method SpansBelow(current: Span) returns (below: seq<Span>)
      requires Valid()
      ensures below == BelowOf(current) && SpansBounded()
      ensures forall s :: s in below <==> s in sheet.spans && s.top == current.bottom + 1
    {
      var row := current.bottom + 1;
      below := if row in tables.spansByTop then tables.spansByTop[row] else [];
      BelowListed(current);
    }

    /** The loop over the spans that start on the row below `current`. */
    method NestedLeaves(current: Span, seen: set<Span>, direct: seq<Leaf>, below: seq<Span>)
      returns (ok: bool, leaves: seq<Leaf>)
      requires Valid() && SpansBounded() && current in sheet.spans
      requires forall s :: s in seen ==> s.bottom < current.top
      requires forall s :: s in below ==> s in sheet.spans && s.top == current.bottom + 1
      modifies `visitCount
      ensures Paid(ok, old(visitCount), NestedVisits(current, below))
      ensures ok ==> leaves == direct + NestedSeq(current, below)
      decreases tables.lastSparseRow - current.bottom, 0, 0
    {
      ok, leaves := true, direct;
      for n := 0 to |below|
        invariant Paid(true, old(visitCount), NestedVisits(current, below[..n])) && ok
        invariant leaves == direct + NestedSeq(current, below[..n])
      {
        var nested := below[n];
        NestedSeqStep(current, below, n, direct);
        NestedVisitsStep(current, below, n);
        if nested != current && nested.top == current.bottom + 1
           && current.left <= nested.left <= nested.right <= current.right {
          var more;
          ok, more := CumulativeLeaves(nested, seen + {current});
          if !ok {
            return false, [];
          }
          leaves := leaves + more;
        }
        assert leaves == direct + NestedSeq(current, below[..n + 1]);
      }
      assert below[..|below|] == below;
    }

    /** The ordered list of leaves holds each metric pair under the span once. */
    lemma {:induction false} LeafSeqIs(current: Span)
      requires sheet.Readable() && SpansBounded() && current in sheet.spans
      ensures AreLeaves(LeafSeq(current), Under(current))
      decreases tables.lastSparseRow - current.bottom, 1
    {
      BelowIs(current);
      NestedSeqIs(current, BelowOf(current));
      SearchIsComplete(current, BelowOf(current), LeafSeq(current));
    }

    /** `leaves` are those found directly and in the spans considered so far. */
    ghost predicate FoundIn(current: Span, below: seq<Span>, leaves: seq<Leaf>)
      requires sheet.Readable()
    {
      AreLeaves(leaves, Either(DirectlyUnder(current), UnderNested(Filter(below, Within(current)))))
    }

    lemma {:induction false} NestedSeqIs(current: Span, below: seq<Span>)
      requires sheet.Readable() && SpansBounded() && current in sheet.spans
      requires Distinct(below) && forall s :: s in below ==> s in sheet.spans && s.top == current.bottom + 1
      ensures FoundIn(current, below, DirectLeaves(current) + NestedSeq(current, below))
      decreases tables.lastSparseRow - current.bottom, 0, |below|
    {
      if below == [] {
        DirectLeavesAre(current);
      } else {
        var n := |below| - 1;
        NestedSeqIs(current, below[..n]);
        assert below[..n + 1] == below;
        NestedSeqStep(current, below, n, DirectLeaves(current));
        if Nested(current, below[n]) {
          LeafSeqIs(below[n]);
        }
        var more := if Nested(current, below[n]) then LeafSeq(below[n]) else [];
        FoundMore(current, below, n, DirectLeaves(current) + NestedSeq(current, below[..n]), more);
      }
    }

    lemma FoundMore(current: Span, below: seq<Span>, n: nat, leaves: seq<Leaf>, more: seq<Leaf>)
      requires sheet.Readable() && n < |below| && Distinct(below)
      requires forall s :: s in below ==> s in sheet.spans
      requires FoundIn(current, below[..n], leaves)
      requires if Nested(current, below[n]) then AreLeaves(more, Under(below[n])) else more == []
      ensures FoundIn(current, below[..n + 1], leaves + more)
    {
      FilterStep(below, n, Within(current));
      FilterMembers(below[..n], Within(current));
      if Nested(current, below[n]) {
        JoinLeaves(current, Filter(below[..n], Within(current)), below[n], leaves, more);
      } else {
        assert leaves + more == leaves;
        assert Filter(below[..n + 1], Within(current)) == Filter(below[..n], Within(current));
      }
    }

    lemma DirectLeavesAre(current: Span)
      requires sheet.Readable()
      ensures FoundIn(current, [], DirectLeaves(current) + [])
    {
      PairsInAre(current.bottom + 1, current.left, current.right);
      LeavesAtAreLeaves(current, PairsIn(current.bottom + 1, current.left, current.right));
      assert DirectLeaves(current) + [] == DirectLeaves(current);
    }

    lemma Associates<T>(a: seq<T>, b: seq<T>, c: seq<T>)
      ensures (a + b) + c == a + (b + c)
    {
    }

    ghost function Within(current: Span): Span -> bool {
      (s: Span) => Nested(current, s)
    }

    ghost function Either(p: (int, int) -> bool, q: (int, int) -> bool): (int, int) -> bool {
      (row: int, column: int) => p(row, column) || q(row, column)
    }

    lemma BelowListed(current: Span)
      requires WellFormed(sheet.spans) && Groups(sheet.spans, TopOf, tables.spansByTop)
      ensures var row := current.bottom + 1;
        (if row in tables.spansByTop then tables.spansByTop[row] else []) == BelowOf(current)
      ensures forall s :: s in BelowOf(current) <==> s in sheet.spans && s.top == current.bottom + 1
    {
      GroupIsFilter(sheet.spans, TopOf, tables.spansByTop, current.bottom + 1);
      BelowIs(current);
    }

    lemma BelowIs(current: Span)
      requires WellFormed(sheet.spans)
      ensures Distinct(BelowOf(current))
      ensures forall s :: s in BelowOf(current) <==> s in sheet.spans && s.top == current.bottom + 1
    {
      SpansAreDistinct(sheet.spans);
      FilterMembers(sheet.spans, KeyIs(TopOf, current.bottom + 1));
      FilterDistinct(sheet.spans, KeyIs(TopOf, current.bottom + 1));
      forall s: Span ensures s in BelowOf(current) <==> s in sheet.spans && s.top == current.bottom + 1 {
        assert TopOf(s) == s.top;
      }
    }

    /** Leaves found under different siblings, or directly, never coincide. */
    lemma JoinLeaves(current: Span, taken: seq<Span>, nested: Span, leaves: seq<Leaf>, more: seq<Leaf>)
      requires sheet.Readable()
      requires nested in sheet.spans && Nested(current, nested) && nested !in taken
      requires forall s :: s in taken ==> s in sheet.spans && Nested(current, s)
      requires AreLeaves(leaves, Either(DirectlyUnder(current), UnderNested(taken)))
      requires AreLeaves(more, Under(nested))
      ensures AreLeaves(leaves + more, Either(DirectlyUnder(current), UnderNested(taken + [nested])))
    {
      forall l | l in more
        ensures !Either(DirectlyUnder(current), UnderNested(taken))(l.row, l.quantity)
      {
        assert Under(nested)(l.row, l.quantity);
        sheet.LeafWithin(nested, l.row, l.quantity);
        forall s | s in taken ensures !sheet.LeafUnder(s, l.row, l.quantity) {
          SiblingLeavesDiffer(current, s, nested, l.row, l.quantity);
        }
      }
      forall row, q
        ensures Either(DirectlyUnder(current), UnderNested(taken + [nested]))(row, q)
           <==> Either(DirectlyUnder(current), UnderNested(taken))(row, q) || Under(nested)(row, q)
      {
        if Under(nested)(row, q) {
          assert nested in taken + [nested] && sheet.LeafUnder(nested, row, q);
        }
      }
      AppendLeaves(leaves, more, Either(DirectlyUnder(current), UnderNested(taken)), Under(nested),
                   Either(DirectlyUnder(current), UnderNested(taken + [nested])));
    }

    lemma AppendLeaves(leaves: seq<Leaf>, more: seq<Leaf>, p: (int, int) -> bool, q: (int, int) -> bool,
                       both: (int, int) -> bool)
      requires AreLeaves(leaves, p) && AreLeaves(more, q)
      requires forall l :: l in more ==> !p(l.row, l.quantity)
      requires forall row, c :: both(row, c) <==> p(row, c) || q(row, c)
      ensures AreLeaves(leaves + more, both)
    {
    }

    lemma SiblingLeavesDiffer(current: Span, s: Span, nested: Span, row: int, q: int)
      requires sheet.Readable() && s in sheet.spans && nested in sheet.spans && s != nested
      requires Nested(current, s) && Nested(current, nested) && sheet.LeafUnder(nested, row, q)
      ensures !sheet.LeafUnder(s, row, q)
    {
      sheet.LeafWithin(nested, row, q);
      if sheet.LeafUnder(s, row, q) {
        sheet.LeafWithin(s, row, q);
        OneSpanPerCell(sheet.spans, s, nested);
      }
    }

    lemma SearchIsComplete(current: Span, below: seq<Span>, leaves: seq<Leaf>)
      requires sheet.Readable() && current in sheet.spans
      requires forall s :: s in below <==> s in sheet.spans && s.top == current.bottom + 1
      requires FoundIn(current, below, leaves)
      ensures AreLeaves(leaves, Under(current))
    {
      var taken := Filter(below, Within(current));
      FilterMembers(below, Within(current));
      forall row, q ensures Under(current)(row, q) <==> Either(DirectlyUnder(current), UnderNested(taken))(row, q) {
        if UnderNested(taken)(row, q) {
          var s :| s in taken && sheet.LeafUnder(s, row, q);
          assert s in sheet.spans && Nested(current, s);
          sheet.LeafWithin(s, row, q);
        }
      }
    }

    /** The merged span starting at a cell, or the cell itself. */
    function CellSpan(row: int, column: int): Span {
      if Cell(row, column) in tables.spanByOrigin then tables.spanByOrigin[Cell(row, column)]
      else Bounds(column, row, column, row)
    }

    lemma CellSpanFound(row: int, column: int)
      requires OriginsOf(sheet.spans, tables.spanByOrigin)
      ensures sheet.IsCellSpan(row, column, CellSpan(row, column))
    {
    }

    /** Whether the walk up through adjacent containing spans meets a cumulative header. */
    method CumulativeAncestor(row: int, column: int, bandStart: int) returns (found: bool)
      requires Valid() && row >= 1
      ensures found <==> sheet.Recognised(bandStart, CellSpan(row, column))
    {
      var current := CellSpan(row, column);
      var seen: set<Span> := {};
      while current !in seen
        invariant current.top >= 1 && current.left <= current.right
        invariant forall s :: s in seen ==> s.top > current.top
        invariant sheet.Recognised(bandStart, current) <==> sheet.Recognised(bandStart, CellSpan(row, column))
        decreases current.top
      {
        seen := seen + {current};
        var above := if current.top - 1 in tables.spansByBottom then tables.spansByBottom[current.top - 1] else [];
        var parents := Filter(above, ParentFilter(current, bandStart));
        ParentsFound(current, bandStart, above, parents);
        if |parents| != 1 {
          return |parents| > 0;
        }
        current := parents[0];
        if sheet.Cumulative(current) {
          return true;
        }
      }
      assert false;
      found := true;
    }

    ghost predicate IsParent(p: Span, s: Span, bandStart: int) {
      p in sheet.spans && Nested(p, s) && bandStart <= p.top
    }

    function ParentFilter(s: Span, bandStart: int): Span -> bool {
      (p: Span) => p.top >= bandStart && p.left <= s.left && s.right <= p.right
    }

    lemma ParentsListed(s: Span, bandStart: int, above: seq<Span>)
      requires Groups(sheet.spans, BottomOf, tables.spansByBottom)
      requires above == if s.top - 1 in tables.spansByBottom then tables.spansByBottom[s.top - 1] else []
      ensures forall p: Span :: p in Filter(above, ParentFilter(s, bandStart)) <==> IsParent(p, s, bandStart)
    {
      GroupHolds(sheet.spans, BottomOf, tables.spansByBottom, s.top - 1);
      FilterMembers(above, ParentFilter(s, bandStart));
      forall p: Span ensures p in Filter(above, ParentFilter(s, bandStart)) <==> IsParent(p, s, bandStart) {
        assert p in above <==> p in sheet.spans && BottomOf(p) == s.top - 1;
      }
    }

    lemma ParentsDistinct(s: Span, bandStart: int, above: seq<Span>)
      requires WellFormed(sheet.spans) && Groups(sheet.spans, BottomOf, tables.spansByBottom)
      requires above == if s.top - 1 in tables.spansByBottom then tables.spansByBottom[s.top - 1] else []
      ensures Distinct(Filter(above, ParentFilter(s, bandStart)))
    {
      SpansAreDistinct(sheet.spans);
      FilterDistinct(sheet.spans, KeyIs(BottomOf, s.top - 1));
      FilterDistinct(above, ParentFilter(s, bandStart));
    }

    lemma OneParentAtMost(s: Span, bandStart: int, parents: seq<Span>)
      requires WellFormed(sheet.spans) && s.left <= s.right && Distinct(parents)
      requires forall p: Span :: p in parents <==> IsParent(p, s, bandStart)
      ensures |parents| <= 1
      ensures |parents| == 1 ==> IsParent(parents[0], s, bandStart) && parents[0].top < s.top
    {
      if |parents| > 0 {
        assert parents[0] in parents && parents[|parents| - 1] in parents;
        UniqueParent(sheet.spans, parents[|parents| - 1], parents[0], s);
      }
    }

    lemma NoParentStops(s: Span, bandStart: int)
      requires sheet.Readable() && forall p :: !IsParent(p, s, bandStart)
      ensures !sheet.Recognised(bandStart, s)
    {
      if sheet.Recognised(bandStart, s) {
        var p :| p in sheet.spans && Nested(p, s) && bandStart <= p.top
              && (sheet.Cumulative(p) || sheet.Recognised(bandStart, p));
        assert IsParent(p, s, bandStart);
      }
    }

    lemma OnlyParentDecides(s: Span, bandStart: int, p: Span)
      requires sheet.Readable() && s.left <= s.right && IsParent(p, s, bandStart)
      ensures sheet.Recognised(bandStart, s) <==> sheet.Cumulative(p) || sheet.Recognised(bandStart, p)
    {
    }

    /** At most one span can be a parent, and it decides the walk. */
    lemma ParentsFound(s: Span, bandStart: int, above: seq<Span>, parents: seq<Span>)
      requires sheet.Readable() && Groups(sheet.spans, BottomOf, tables.spansByBottom) && s.left <= s.right
      requires above == if s.top - 1 in tables.spansByBottom then tables.spansByBottom[s.top - 1] else []
      requires parents == Filter(above, ParentFilter(s, bandStart))
      ensures |parents| <= 1
      ensures |parents| == 0 ==> !sheet.Recognised(bandStart, s)
      ensures |parents| == 1 ==> parents[0] in sheet.spans && parents[0].top < s.top
      ensures |parents| == 1 ==>
        (sheet.Recognised(bandStart, s) <==> sheet.Cumulative(parents[0]) || sheet.Recognised(bandStart, parents[0]))
    {
      ParentsListed(s, bandStart, above);
      ParentsDistinct(s, bandStart, above);
      OneParentAtMost(s, bandStart, parents);
      if |parents| == 0 {
        NoParentStops(s, bandStart);
      } else {
        OnlyParentDecides(s, bandStart, parents[0]);
      }
    }

    // ----- Layout candidates -----

    /** Work and unit columns resolved for a band, if any; the header vocabulary is given. */
    ghost predicate IsCumulativeLayout(roles: Roles, l: Layout, root: Span, row: int)
      requires sheet.Readable()
    {
      && root in sheet.spans && root.left < root.right && sheet.Cumulative(root)
      && sheet.LeafUnder(root, row, l.region.quantity)
      && l.region == CumulativeRegion(root, row, l.region.quantity)
      && roles(root.top, l.region.headerEnd, root.left, root.right, true) == Some((l.work, l.unit))
      && l.cumulative
    }

    function CumulativeRegion(root: Span, row: int, q: int): Region {
      var end := HeaderEnd(row, q, q + 1);
      Region(q, q + 1, end, Bounds(q, root.top, q + 1, end), root.top)
    }

    function DirectRegion(row: int, q: int, bandStart: int): Region {
      var end := HeaderEnd(row, q, q + 1);
      Region(q, q + 1, end, Bounds(q, row, q + 1, end), bandStart)
    }

    ghost predicate IsDirectLayout(roles: Roles, l: Layout, row: int)
      requires sheet.Readable()
    {
      && sheet.PairAt(row, l.region.quantity)
      && IsBandStart(sheet.OccupiedRow, row, l.region.bandStart) && l.region.bandStart >= 1
      && l.region == DirectRegion(row, l.region.quantity, l.region.bandStart)
      && !sheet.Recognised(l.region.bandStart, CellSpan(row, l.region.quantity))
      && !sheet.Recognised(l.region.bandStart, CellSpan(row, l.region.quantity + 1))
      && Some((l.work, l.unit)) ==
         roles(l.region.bandStart, l.region.headerEnd, l.region.quantity, l.region.cost, false)
      && !l.cumulative
    }

    ghost predicate IsLayoutOf(roles: Roles, l: Layout, root: Span, leaf: Leaf) {
      && l.region == CumulativeRegion(root, leaf.row, leaf.quantity) && l.cumulative
      && roles(root.top, l.region.headerEnd, root.left, root.right, true) == Some((l.work, l.unit))
    }

    ghost predicate FromLeaves(roles: Roles, l: Layout, root: Span, leaves: seq<Leaf>) {
      exists leaf :: leaf in leaves && IsLayoutOf(roles, l, root, leaf)
    }

    ghost predicate FromRoot(roles: Roles, l: Layout, root: Span)
      requires sheet.Readable()
    {
      exists row :: IsCumulativeLayout(roles, l, root, row)
    }

    ghost predicate FromRow(roles: Roles, l: Layout, row: int)
      requires sheet.Readable()
    {
      IsDirectLayout(roles, l, row)
    }

    lemma LeavesNominate(roles: Roles, root: Span, leaves: seq<Leaf>)
      requires sheet.Readable() && root in sheet.spans && root.left < root.right && sheet.Cumulative(root)
      requires AreLeaves(leaves, Under(root))
      ensures forall l :: FromLeaves(roles, l, root, leaves) <==> FromRoot(roles, l, root)
    {
      forall l ensures FromLeaves(roles, l, root, leaves) <==> FromRoot(roles, l, root) {
        if leaf :| leaf in leaves && IsLayoutOf(roles, l, root, leaf) {
          assert Under(root)(leaf.row, leaf.quantity);
          assert IsCumulativeLayout(roles, l, root, leaf.row);
        }
        if row :| IsCumulativeLayout(roles, l, root, row) {
          var q := l.region.quantity;
          assert Under(root)(row, q);
          assert IsLayoutOf(roles, l, root, Leaf(row, q, q + 1, HeaderEnd(row, q, q + 1)));
        }
      }
    }

    // ----- Layouts in the order of their nomination -----

    /** The layouts of a root's leaves, in leaf order, for those whose band has roles. */
    ghost function LeafLayouts(roles: Roles, root: Span, leaves: seq<Leaf>): seq<Layout> {
      if leaves == [] then []
      else
        var leaf := leaves[|leaves| - 1];
        var found := roles(root.top, leaf.headerEnd, root.left, root.right, true);
        LeafLayouts(roles, root, leaves[..|leaves| - 1]) +
        if found.None? then []
        else [Layout(CumulativeRegion(root, leaf.row, leaf.quantity), found.value.0, found.value.1, true)]
    }

    ghost predicate IsRoot(root: Span) {
      root.left < root.right && sheet.Cumulative(root)
    }

    ghost function RootLeaves(root: Span): seq<Leaf>
      requires WellFormed(sheet.spans) && SpansBounded() && root in sheet.spans
    {
      if IsRoot(root) then LeafSeq(root) else []
    }

    ghost function RootsSeq(roles: Roles, roots: seq<Span>): seq<Layout>
      requires WellFormed(sheet.spans) && SpansBounded() && forall s :: s in roots ==> s in sheet.spans
    {
      if roots == [] then []
      else
        RootsSeq(roles, roots[..|roots| - 1]) + LeafLayouts(roles, roots[|roots| - 1], RootLeaves(roots[|roots| - 1]))
    }

    /** A root is searched for its leaves, and each of them costs one probe. */
    ghost function RootCost(root: Span): Cost
      requires WellFormed(sheet.spans) && SpansBounded() && root in sheet.spans
    {
      if IsRoot(root) then Cost(LeafVisits(root), |LeafSeq(root)|) else FREE
    }

    ghost function RootsCost(roots: seq<Span>): Cost
      requires WellFormed(sheet.spans) && SpansBounded() && forall s :: s in roots ==> s in sheet.spans
    {
      if roots == [] then FREE else RootsCost(roots[..|roots| - 1]).Plus(RootCost(roots[|roots| - 1]))
    }

    /** The least row reached by walking up occupied rows. */
    ghost function StartOf(row: int): int
      decreases row
    {
      if row > 1 && sheet.OccupiedRow(row - 1) then StartOf(row - 1) else row
    }

    lemma {:induction false} StartOfIsBandStart(row: int)
      requires row >= 1
      ensures StartOf(row) >= 1 && IsBandStart(sheet.OccupiedRow, row, StartOf(row))
      decreases row
    {
      if row > 1 && sheet.OccupiedRow(row - 1) {
        StartOfIsBandStart(row - 1);
      }
    }

    /** A direct pair is probed unless one of its cells is recognised as cumulative. */
    ghost predicate DirectlyProbed(row: int, q: int)
      requires sheet.Readable()
    {
      && !sheet.Recognised(StartOf(row), CellSpan(row, q))
      && !sheet.Recognised(StartOf(row), CellSpan(row, q + 1))
    }

    ghost function PairLayouts(roles: Roles, row: int, q: int): seq<Layout>
      requires sheet.Readable()
    {
      var found := roles(StartOf(row), HeaderEnd(row, q, q + 1), q, q + 1, false);
      if !DirectlyProbed(row, q) || found.None? then []
      else [Layout(DirectRegion(row, q, StartOf(row)), found.value.0, found.value.1, false)]
    }

    ghost function PairsSeq(roles: Roles, row: int, quantities: seq<int>): seq<Layout>
      requires sheet.Readable()
    {
      if quantities == [] then []
      else
        var n := |quantities| - 1;
        PairsSeq(roles, row, quantities[..n]) + PairLayouts(roles, row, quantities[n])
    }

    /** Every pair looks for its band start; one without a cumulative ancestor costs a probe. */
    ghost function PairCost(row: int, q: int): Cost
      requires sheet.Readable()
    {
      Cost(BandVisits(row), if DirectlyProbed(row, q) then 1 else 0)
    }

    ghost function PairsCost(row: int, quantities: seq<int>): Cost
      requires sheet.Readable()
    {
      if quantities == [] then FREE
      else
        var n := |quantities| - 1;
        PairsCost(row, quantities[..n]).Plus(PairCost(row, quantities[n]))
    }

    ghost function PairsOf(row: int): seq<int> {
      PairsIn(row, 1, tables.maxColumn)
    }

    ghost function RowsSeq(roles: Roles, rows: seq<int>): seq<Layout>
      requires sheet.Readable()
    {
      if rows == [] then []
      else
        var row := rows[|rows| - 1];
        RowsSeq(roles, rows[..|rows| - 1]) + PairsSeq(roles, row, PairsOf(row))
    }

    ghost function RowCost(row: int): Cost
      requires sheet.Readable()
    {
      var pairs := PairsCost(row, PairsOf(row));
      Cost(ColumnsIn(row, 1, tables.maxColumn) + pairs.visits, pairs.probes)
    }

    ghost function RowsCost(rows: seq<int>): Cost
      requires sheet.Readable()
    {
      if rows == [] then FREE else RowsCost(rows[..|rows| - 1]).Plus(RowCost(rows[|rows| - 1]))
    }

    /** Every nomination, roots first, in the order in which they are made. */
    ghost function Nominations(roles: Roles): seq<Layout>
      requires sheet.Readable() && SpansBounded()
    {
      RootsSeq(roles, sheet.spans) + RowsSeq(roles, tables.rows)
    }

    ghost function Needed(): Cost
      requires sheet.Readable() && SpansBounded()
    {
      RootsCost(sheet.spans).Plus(RowsCost(tables.rows))
    }

    lemma {:induction false} MoreRootsCostMore(roots: seq<Span>, n: nat)
      requires WellFormed(sheet.spans) && SpansBounded() && (forall s :: s in roots ==>
        s in sheet.spans) && n <= |roots|
      ensures RootsCost(roots[..n]).AtMost(RootsCost(roots))
      decreases |roots|
    {
      if n < |roots| {
        var front := roots[..|roots| - 1];
        assert front[..n] == roots[..n];
        MoreRootsCostMore(front, n);
      } else {
        assert roots[..n] == roots;
      }
    }

    lemma RootsStep(roles: Roles, roots: seq<Span>, n: nat)
      requires WellFormed(sheet.spans) && SpansBounded() && (forall s :: s in roots ==> s in sheet.spans) && n < |roots|
      ensures roots[n] in sheet.spans
      ensures RootsSeq(roles, roots[..n + 1])
           == RootsSeq(roles, roots[..n]) + LeafLayouts(roles, roots[n], RootLeaves(roots[n]))
    {
      assert roots[..n + 1][..n] == roots[..n] && roots[..n + 1][n] == roots[n];
    }

    lemma RootsCostStep(roots: seq<Span>, n: nat)
      requires WellFormed(sheet.spans) && SpansBounded() && (forall s :: s in roots ==> s in sheet.spans) && n < |roots|
      ensures roots[n] in sheet.spans
      ensures RootsCost(roots[..n + 1]) == RootsCost(roots[..n]).Plus(RootCost(roots[n]))
      ensures RootsCost(roots[..n + 1]).AtMost(RootsCost(roots))
    {
      assert roots[..n + 1][..n] == roots[..n] && roots[..n + 1][n] == roots[n];
      MoreRootsCostMore(roots, n + 1);
    }

    lemma {:induction false} MorePairsCostMore(row: int, quantities: seq<int>, n: nat)
      requires sheet.Readable() && n <= |quantities|
      ensures PairsCost(row, quantities[..n]).AtMost(PairsCost(row, quantities))
      decreases |quantities|
    {
      if n < |quantities| {
        var front := quantities[..|quantities| - 1];
        assert front[..n] == quantities[..n];
        MorePairsCostMore(row, front, n);
      } else {
        assert quantities[..n] == quantities;
      }
    }

    lemma {:induction false} MoreRowsCostMore(rows: seq<int>, n: nat)
      requires sheet.Readable() && n <= |rows|
      ensures RowsCost(rows[..n]).AtMost(RowsCost(rows))
      decreases |rows|
    {
      if n < |rows| {
        var front := rows[..|rows| - 1];
        assert front[..n] == rows[..n];
        MoreRowsCostMore(front, n);
      } else {
        assert rows[..n] == rows;
      }
    }

    lemma PairsStep(roles: Roles, row: int, quantities: seq<int>, n: nat)
      requires sheet.Readable() && n < |quantities|
      ensures quantities[n] in quantities
      ensures PairsCost(row, quantities[..n + 1]) == PairsCost(row, quantities[..n]).Plus(PairCost(row, quantities[n]))
      ensures PairsCost(row, quantities[..n + 1]).AtMost(PairsCost(row, quantities))
      ensures PairsSeq(roles, row, quantities[..n + 1]) ==
        PairsSeq(roles, row, quantities[..n]) + PairLayouts(roles, row, quantities[n])
    {
      assert quantities[..n + 1][..n] == quantities[..n] && quantities[..n + 1][n] == quantities[n];
      MorePairsCostMore(row, quantities, n + 1);
    }

    lemma RowsStep(roles: Roles, rows: seq<int>, n: nat)
      requires sheet.Readable() && n < |rows|
      ensures rows[n] in rows
      ensures RowsSeq(roles, rows[..n + 1]) == RowsSeq(roles, rows[..n]) + PairsSeq(roles, rows[n], PairsOf(rows[n]))
    {
      assert rows[..n + 1][..n] == rows[..n] && rows[..n + 1][n] == rows[n];
    }

    lemma RowsCostStep(rows: seq<int>, n: nat)
      requires sheet.Readable() && n < |rows|
      ensures RowsCost(rows[..n + 1]) == RowsCost(rows[..n]).Plus(RowCost(rows[n]))
      ensures RowsCost(rows[..n + 1]).AtMost(RowsCost(rows))
    {
      assert rows[..n + 1][..n] == rows[..n] && rows[..n + 1][n] == rows[n];
      MoreRowsCostMore(rows, n + 1);
    }

    /** A probing step pays its exact cost within both budgets, or stops where one of them is exceeded. */
    predicate Probed(ok: bool, before: nat, probes0: nat, probes: nat, cost: Cost)
      reads `visitCount
    {
      && before <= visitCount <= before + cost.visits
      && (ok ==> visitCount == before + cost.visits && probes == probes0 + cost.probes && probes <= REGION_PROBE_LIMIT)
      && (ok && before <= REGION_VISIT_LIMIT ==> visitCount <= REGION_VISIT_LIMIT)
      && (!ok ==> visitCount > REGION_VISIT_LIMIT || probes0 + cost.probes > REGION_PROBE_LIMIT)
    }

    /** Layouts nominated from the leaves of one cumulative root. */
    method RootLayouts(root: Span, roles: Roles, probes0: nat)
      returns (ok: bool, layouts: seq<Layout>, probes: nat)
      requires Valid() && root in sheet.spans && IsRoot(root) && probes0 <= REGION_PROBE_LIMIT
      modifies `visitCount
      ensures SpansBounded() && Probed(ok, old(visitCount), probes0, probes, RootCost(root))
      ensures ok ==> layouts == LeafLayouts(roles, root, LeafSeq(root))
      ensures ok ==> forall l :: l in layouts <==> FromRoot(roles, l, root)
    {
      var leaves;
      ok, leaves := CumulativeLeaves(root, {});
      if !ok {
        return false, [], probes0;
      }
      LeavesNominate(roles, root, leaves);
      assert forall l :: l in leaves ==> l.headerEnd == HeaderEnd(l.row, l.quantity, l.quantity + 1);
      ok, layouts, probes := ProbeLeaves(root, roles, leaves, probes0);
    }

    /** Each leaf costs one probe and becomes a layout when its band has roles. */
    method ProbeLeaves(root: Span, roles: Roles, leaves: seq<Leaf>, probes0: nat)
      returns (ok: bool, layouts: seq<Layout>, probes: nat)
      requires probes0 <= REGION_PROBE_LIMIT
      requires forall l :: l in leaves ==> l.headerEnd == HeaderEnd(l.row, l.quantity, l.quantity + 1)
      ensures ok <==> probes0 + |leaves| <= REGION_PROBE_LIMIT
      ensures ok ==> probes == probes0 + |leaves| && layouts == LeafLayouts(roles, root, leaves)
      ensures ok ==> forall l :: l in layouts <==> FromLeaves(roles, l, root, leaves)
    {
      ok, layouts, probes := true, [], probes0;
      for n := 0 to |leaves|
        invariant probes == probes0 + n <= REGION_PROBE_LIMIT
        invariant layouts == LeafLayouts(roles, root, leaves[..n])
      {
        if probes >= REGION_PROBE_LIMIT {
          return false, layouts, probes;
        }
        probes := probes + 1;
        var leaf := leaves[n];
        assert leaves[..n + 1][..n] == leaves[..n];
        var found := roles(root.top, leaf.headerEnd, root.left, root.right, true);
        if found.Some? {
          var region := CumulativeRegion(root, leaf.row, leaf.quantity);
          layouts := layouts + [Layout(region, found.value.0, found.value.1, true)];
        }
      }
      assert leaves[..|leaves|] == leaves;
      LeafLayoutsAre(roles, root, leaves);
    }

    lemma {:induction false} LeafLayoutsAre(roles: Roles, root: Span, leaves: seq<Leaf>)
      requires forall l :: l in leaves ==> l.headerEnd == HeaderEnd(l.row, l.quantity, l.quantity + 1)
      ensures forall l :: l in LeafLayouts(roles, root, leaves) <==> FromLeaves(roles, l, root, leaves)
    {
      if leaves != [] {
        var front, leaf := leaves[..|leaves| - 1], leaves[|leaves| - 1];
        assert leaf in leaves && leaves == front + [leaf];
        LeafLayoutsAre(roles, root, front);
        forall l
          ensures FromLeaves(roles, l, root, leaves) <==>
            FromLeaves(roles, l, root, front) || IsLayoutOf(roles, l, root, leaf)
        {
        }
      }
    }

    /** Layouts nominated from the direct metric pairs of one row. */
    method RowLayouts(row: int, roles: Roles, probes0: nat)
      returns (ok: bool, layouts: seq<Layout>, probes: nat)
      requires Valid() && row in tables.rows && probes0 <= REGION_PROBE_LIMIT
      modifies `visitCount
      ensures Probed(ok, old(visitCount), probes0, probes, RowCost(row))
      ensures ok ==> layouts == PairsSeq(roles, row, PairsOf(row))
      ensures ok ==> forall l :: l in layouts <==> FromRow(roles, l, row)
    {
      RowHoldsValue(row);
      var quantities;
      ok, quantities := MetricPairs(row, 1, tables.maxColumn);
      if !ok {
        return false, [], probes0;
      }
      ok, layouts, probes := ProbePairs(row, quantities, roles, probes0);
      if ok {
        AllPairsListed(row, quantities);
        PairsSeqAre(roles, row, quantities);
      }
    }

    method ProbePairs(row: int, quantities: seq<int>, roles: Roles, probes0: nat)
      returns (ok: bool, layouts: seq<Layout>, probes: nat)
      requires Valid() && row >= 1 && probes0 <= REGION_PROBE_LIMIT
      requires forall q :: q in quantities ==> sheet.PairAt(row, q)
      modifies `visitCount
      ensures Probed(ok, old(visitCount), probes0, probes, PairsCost(row, quantities))
      ensures ok ==> layouts == PairsSeq(roles, row, quantities)
    {
      ok, layouts, probes := true, [], probes0;
      for n := 0 to |quantities|
        invariant Probed(true, old(visitCount), probes0, probes, PairsCost(row, quantities[..n])) && ok
        invariant layouts == PairsSeq(roles, row, quantities[..n])
      {
        PairsStep(roles, row, quantities, n);
        var more;
        ok, more, probes := ProbePair(row, quantities[n], roles, probes);
        if !ok {
          return;
        }
        layouts := layouts + more;
      }
      assert quantities[..|quantities|] == quantities;
    }

    lemma {:induction false} PairsSeqAre(roles: Roles, row: int, quantities: seq<int>)
      requires sheet.Readable() && row >= 1 && forall q :: q in quantities ==> sheet.PairAt(row, q)
      ensures forall l :: l in PairsSeq(roles, row, quantities) <==>
        FromRow(roles, l, row) && l.region.quantity in quantities
    {
      if quantities != [] {
        var front, q := quantities[..|quantities| - 1], quantities[|quantities| - 1];
        assert quantities == front + [q];
        PairsSeqAre(roles, row, front);
        StartOfIsBandStart(row);
        OneLayoutPerPair(roles, row, q, StartOf(row), !DirectlyProbed(row, q));
      }
    }

    /** Whether either cell of a metric pair has a cumulative ancestor. */
    method PairAncestor(row: int, q: int, bandStart: int) returns (found: bool)
      requires Valid() && row >= 1
      ensures found <==>
        sheet.Recognised(bandStart, CellSpan(row, q)) || sheet.Recognised(bandStart, CellSpan(row, q + 1))
    {
      found := CumulativeAncestor(row, q, bandStart);
      if !found {
        found := CumulativeAncestor(row, q + 1, bandStart);
      }
    }

    /** One direct pair: skipped under a cumulative ancestor of either cell, else probed. */
    method ProbePair(row: int, q: int, roles: Roles, probes0: nat)
      returns (ok: bool, layouts: seq<Layout>, probes: nat)
      requires Valid() && row >= 1 && sheet.PairAt(row, q) && probes0 <= REGION_PROBE_LIMIT
      modifies `visitCount
      ensures Probed(ok, old(visitCount), probes0, probes, PairCost(row, q))
      ensures ok ==> layouts == PairLayouts(roles, row, q)
      ensures ok ==> forall l :: l in layouts <==> FromRow(roles, l, row) && l.region.quantity == q
    {
      var start;
      ok, start := BandStart(row);
      if !ok {
        return false, [], probes0;
      }
      StartOfIsBandStart(row);
      BandStartIsUnique(sheet.OccupiedRow, row, start, StartOf(row));
      var ancestor := PairAncestor(row, q, start);
      OneLayoutPerPair(roles, row, q, start, ancestor);
      layouts, probes := [], probes0;
      if ancestor {
        return;
      }
      if probes >= REGION_PROBE_LIMIT {
        return false, layouts, probes;
      }
      probes := probes + 1;
      var region := DirectRegion(row, q, start);
      var found := roles(start, region.headerEnd, q, q + 1, false);
      if found.Some? {
        layouts := [Layout(region, found.value.0, found.value.1, false)];
      }
    }

    lemma RowHoldsValue(row: int)
      requires sheet.Readable() && TablesOf(sheet, tables) && row in tables.rows
      ensures row >= 1
    {
      assert tables.rowValues[row].Keys != {};
      HasElement(tables.rowValues[row].Keys);
      var c :| c in tables.rowValues[row];
      assert Cell(row, c) in sheet.values;
    }

    lemma AllPairsListed(row: int, quantities: seq<int>)
      requires sheet.Readable() && TablesOf(sheet, tables)
      requires forall q :: q in quantities <==> 1 <= q <= tables.maxColumn && sheet.PairAt(row, q)
      ensures forall q :: q in quantities <==> sheet.PairAt(row, q)
    {
    }

    /** A direct pair yields the one layout its band and roles determine, or none. */
    lemma OneLayoutPerPair(roles: Roles, row: int, q: int, start: int, ancestor: bool)
      requires sheet.Readable() && sheet.PairAt(row, q)
      requires start >= 1 && IsBandStart(sheet.OccupiedRow, row, start)
      requires ancestor <==> sheet.Recognised(start, CellSpan(row, q)) || sheet.Recognised(start, CellSpan(row, q + 1))
      ensures var found := roles(start, HeaderEnd(row, q, q + 1), q, q + 1, false);
        forall l :: FromRow(roles, l, row) && l.region.quantity == q <==>
          !ancestor && found.Some? && l == Layout(DirectRegion(row, q, start), found.value.0, found.value.1, false)
    {
      forall l | FromRow(roles, l, row) && l.region.quantity == q ensures l.region.bandStart == start {
        BandStartIsUnique(sheet.OccupiedRow, row, l.region.bandStart, start);
      }
    }

    ghost predicate Nominated(roles: Roles, l: Layout)
      requires sheet.Readable()
    {
      (exists root :: FromRoot(roles, l, root)) || (exists row :: FromRow(roles, l, row))
    }

    /**
     All layout candidates of the sheet, each once, in the order of their first nomination. The
     sheet is refused exactly when the visits, the probes or the candidates exceed their budgets.
     */
    method StructuralLayouts(roles: Roles) returns (ok: bool, layouts: seq<Layout>)
      requires Valid() && visitCount <= REGION_VISIT_LIMIT
      modifies `visitCount
      ensures Valid() && SpansBounded()
      ensures ok <==>
        && old(visitCount) + Needed().visits <= REGION_VISIT_LIMIT
        && Needed().probes <= REGION_PROBE_LIMIT
        && |FirstOccurrences(Nominations(roles))| <= REGION_CANDIDATE_LIMIT
      ensures ok ==> visitCount == old(visitCount) + Needed().visits
      ensures ok ==> layouts == FirstOccurrences(Nominations(roles)) && Distinct(layouts)
      ensures ok ==> forall l :: l in layouts <==> Nominated(roles, l)
    {
      var fromRoots, probes, fromRows;
      ok, fromRoots, probes := AllRootLayouts(roles);
      if !ok {
        return false, [];
      }
      ok, fromRows, probes := AllRowLayouts(roles, probes);
      if !ok {
        return false, [];
      }
      NominationsAre(roles);
      layouts := WithoutRepeats(fromRoots + fromRows);
      ok := |layouts| <= REGION_CANDIDATE_LIMIT;
    }

    method AllRootLayouts(roles: Roles) returns (ok: bool, layouts: seq<Layout>, probes: nat)
      requires Valid()
      modifies `visitCount
      ensures SpansBounded() && Probed(ok, old(visitCount), 0, probes, RootsCost(sheet.spans))
      ensures ok ==> layouts == RootsSeq(roles, sheet.spans)
    {
      ok, layouts, probes := true, [], 0;
      for n := 0 to |sheet.spans|
        invariant Probed(true, old(visitCount), 0, probes, RootsCost(sheet.spans[..n])) && ok
        invariant layouts == RootsSeq(roles, sheet.spans[..n])
      {
        var root := sheet.spans[n];
        assert root in sheet.spans;
        RootsStep(roles, sheet.spans, n);
        RootsCostStep(sheet.spans, n);
        if root.right > root.left && sheet.Cumulative(root) {
          var more;
          ok, more, probes := RootLayouts(root, roles, probes);
          if !ok {
            return;
          }
          layouts := layouts + more;
        }
      }
      assert sheet.spans[..|sheet.spans|] == sheet.spans;
    }

    method AllRowLayouts(roles: Roles, probes0: nat) returns (ok: bool, layouts: seq<Layout>, probes: nat)
      requires Valid() && probes0 <= REGION_PROBE_LIMIT
      modifies `visitCount
      ensures Probed(ok, old(visitCount), probes0, probes, RowsCost(tables.rows))
      ensures ok ==> layouts == RowsSeq(roles, tables.rows)
    {
      ok, layouts, probes := true, [], probes0;
      for n := 0 to |tables.rows|
        invariant Probed(true, old(visitCount), probes0, probes, RowsCost(tables.rows[..n])) && ok
        invariant layouts == RowsSeq(roles, tables.rows[..n])
      {
        RowsStep(roles, tables.rows, n);
        RowsCostStep(tables.rows, n);
        var more;
        ok, more, probes := RowLayouts(tables.rows[n], roles, probes);
        if !ok {
          return;
        }
        layouts := layouts + more;
      }
      assert tables.rows[..|tables.rows|] == tables.rows;
    }

    lemma {:induction false} RootsSeqAre(roles: Roles, roots: seq<Span>)
      requires sheet.Readable() && SpansBounded() && forall s :: s in roots ==> s in sheet.spans
      ensures forall l :: l in RootsSeq(roles, roots) <==> exists root :: root in roots && FromRoot(roles, l, root)
    {
      if roots != [] {
        var front, root := roots[..|roots| - 1], roots[|roots| - 1];
        assert root in roots && roots == front + [root];
        RootsSeqAre(roles, front);
        RootLeavesNominate(roles, root);
      }
    }

    lemma RootLeavesNominate(roles: Roles, root: Span)
      requires sheet.Readable() && SpansBounded() && root in sheet.spans
      ensures forall l :: l in LeafLayouts(roles, root, RootLeaves(root)) <==> FromRoot(roles, l, root)
    {
      if IsRoot(root) {
        LeafSeqIs(root);
        LeavesNominate(roles, root, LeafSeq(root));
        LeafLayoutsAre(roles, root, LeafSeq(root));
      }
    }

    lemma {:induction false} RowsSeqAre(roles: Roles, rows: seq<int>)
      requires sheet.Readable() && TablesOf(sheet, tables) && forall r :: r in rows ==> r in tables.rows
      ensures forall l :: l in RowsSeq(roles, rows) <==> exists row :: row in rows && FromRow(roles, l, row)
    {
      if rows != [] {
        var front, row := rows[..|rows| - 1], rows[|rows| - 1];
        assert row in rows && rows == front + [row];
        RowsSeqAre(roles, front);
        RowHoldsValue(row);
        PairsInAre(row, 1, tables.maxColumn);
        AllPairsListed(row, PairsOf(row));
        PairsSeqAre(roles, row, PairsOf(row));
      }
    }

    lemma NominationsAre(roles: Roles)
      requires sheet.Readable() && TablesOf(sheet, tables)
      ensures forall l :: l in Nominations(roles) <==> Nominated(roles, l)
    {
      RootsSeqAre(roles, sheet.spans);
      RowsSeqAre(roles, tables.rows);
      forall l, row | FromRow(roles, l, row) ensures row in tables.rows {
        assert Cell(row, l.region.quantity) in sheet.values;
      }
      forall l, root | FromRoot(roles, l, root) ensures root in sheet.spans {
      }
    }

    /** No quantity cell is nominated both under a cumulative root and as a direct pair. */
    lemma NominatedOnce(roles: Roles, a: Layout, b: Layout, root: Span, rowA: int, rowB: int)
      requires sheet.Readable() && OriginsOf(sheet.spans, tables.spanByOrigin)
      requires IsCumulativeLayout(roles, a, root, rowA) && IsDirectLayout(roles, b, rowB)
      ensures rowA != rowB || a.region.quantity != b.region.quantity
    {
      if rowA == rowB && a.region.quantity == b.region.quantity {
        CellSpanFound(rowB, b.region.quantity);
        sheet.WalksAgree(rowB, b.region.quantity, CellSpan(rowB, b.region.quantity), b.region.bandStart);
      }
    }

    /**
     Where a nominated layout lies: on the columns of a metric pair, from its cumulative root or its
     own row down to the end of the header, in a band that starts at that root or above that row.
     */
    lemma NominatedShape(roles: Roles, l: Layout)
      requires sheet.Readable() && Nominated(roles, l)
      ensures exists row ::
        && sheet.PairAt(row, l.region.quantity)
        && l.region.headerEnd == HeaderEnd(row, l.region.quantity, l.region.quantity + 1)
        && l.region.cost == l.region.metricSpan.right == l.region.quantity + 1
        && l.region.metricSpan.left == l.region.quantity && l.region.metricSpan.bottom == l.region.headerEnd
        && if l.cumulative
           then l.region.bandStart == l.region.metricSpan.top < row
           else l.region.metricSpan.top == row && IsBandStart(sheet.OccupiedRow, row, l.region.bandStart)
    {
      if root, row :| IsCumulativeLayout(roles, l, root, row) {
        sheet.LeafWithin(root, row, l.region.quantity);
      } else {
        var row :| FromRow(roles, l, row);
        assert sheet.PairAt(row, l.region.quantity);
      }
    }

    /** No root and no row nominates the pair. */
    ghost predicate PassedOver(roles: Roles, row: int, q: int)
      requires sheet.Readable()
    {
      forall l: Layout :: l.region.quantity == q ==>
        !FromRow(roles, l, row) && forall root :: !IsCumulativeLayout(roles, l, root, row)
    }

    ghost predicate AlwaysNamed(roles: Roles) {
      forall top, bottom, left, right, cumulative :: roles(top, bottom, left, right, cumulative).Some?
    }

    /** A cell of the pair counts as cumulative, yet every cumulative root above it is a single column. */
    ghost predicate Stranded(row: int, q: int, bandStart: int)
      requires sheet.Readable()
    {
      && (sheet.Recognised(bandStart, CellSpan(row, q)) || sheet.Recognised(bandStart, CellSpan(row, q + 1)))
      && !sheet.ReachedFromWide(row, q)
    }

    /**
     Some pairs are nominated by neither search, whatever the roles.  When every band has roles,
     these are exactly the stranded ones.
     */
    lemma PassedOverExactly(roles: Roles, row: int, q: int, bandStart: int)
      requires sheet.Readable() && sheet.PairAt(row, q)
      requires bandStart >= 1 && IsBandStart(sheet.OccupiedRow, row, bandStart)
      ensures Stranded(row, q, bandStart) ==> PassedOver(roles, row, q)
      ensures AlwaysNamed(roles) && PassedOver(roles, row, q) ==> Stranded(row, q, bandStart)
    {
      if Stranded(row, q, bandStart) {
        forall l: Layout | l.region.quantity == q && FromRow(roles, l, row) ensures false {
          BandStartIsUnique(sheet.OccupiedRow, row, l.region.bandStart, bandStart);
        }
      } else if AlwaysNamed(roles) {
        NotPassedOver(roles, row, q, bandStart);
      }
    }

    lemma NotPassedOver(roles: Roles, row: int, q: int, bandStart: int)
      requires sheet.Readable() && sheet.PairAt(row, q) && AlwaysNamed(roles)
      requires bandStart >= 1 && IsBandStart(sheet.OccupiedRow, row, bandStart)
      requires !Stranded(row, q, bandStart)
      ensures !PassedOver(roles, row, q)
    {
      var end := HeaderEnd(row, q, q + 1);
      if sheet.ReachedFromWide(row, q) {
        var root :| root in sheet.spans && root.left < root.right && sheet.Cumulative(root)
          && sheet.LeafUnder(root, row, q);
        var found := roles(root.top, end, root.left, root.right, true).value;
        assert IsCumulativeLayout(roles, Layout(CumulativeRegion(root, row, q), found.0, found.1, true), root, row);
      } else {
        var found := roles(bandStart, end, q, q + 1, false).value;
        assert FromRow(roles, Layout(DirectRegion(row, q, bandStart), found.0, found.1, false), row);
      }
    }
  }

  ghost function FirstOccurrences<T>(s: seq<T>): seq<T> {
    if s == [] then []
    else
      var front := FirstOccurrences(s[..|s| - 1]);
      if s[|s| - 1] in s[..|s| - 1] then front else front + [s[|s| - 1]]
  }

  /** The first occurrence of each entry, in order. */
  method WithoutRepeats<T(==)>(s: seq<T>) returns (r: seq<T>)
    ensures r == FirstOccurrences(s)
    ensures Distinct(r) && forall x :: x in r <==> x in s
  {
    r := [];
    for n := 0 to |s|
      invariant r == FirstOccurrences(s[..n])
      invariant Distinct(r) && forall x :: x in r <==> x in s[..n]
    {
      assert s[..n + 1][..n] == s[..n];
      if s[n] !in r {
        r := r + [s[n]];
      }
    }
    assert s[..|s|] == s;
  }

  // ----- Detail intervals -----

  predicate ColumnsMeet(a: Bounds, b: Bounds) {
    a.left <= b.right && b.left <= a.right
  }

  predicate OnColumn(b: Bounds, column: int) {
    b.left <= column <= b.right
  }

  lemma ColumnsMeetMeans(a: Bounds, b: Bounds)
    requires a.left <= a.right && b.left <= b.right
    ensures ColumnsMeet(a, b) <==> exists c :: OnColumn(a, c) && OnColumn(b, c)
  {
    if ColumnsMeet(a, b) {
      assert OnColumn(a, Max(a.left, b.left)) && OnColumn(b, Max(a.left, b.left));
    }
  }

  /** Where the metric spans of other layouts below this region's header start. */
  function StartsBelow(region: Region, layouts: seq<Layout>): seq<int> {
    if layouts == [] then []
    else
      var item := layouts[|layouts| - 1].region;
      StartsBelow(region, layouts[..|layouts| - 1]) +
      if item != region && item.metricSpan.top > region.headerEnd && ColumnsMeet(region.metricSpan, item.metricSpan)
      then [item.metricSpan.top] else []
  }

  function Least(s: seq<int>): int
    requires s != []
  {
    if |s| == 1 then s[0] else var m := Least(s[..|s| - 1]); if m <= s[|s| - 1] then m else s[|s| - 1]
  }

  /** The last detail row of a region. */
  function DetailEnd(region: Region, layouts: seq<Layout>, lastSparseRow: int): int {
    var starts := StartsBelow(region, layouts);
    if starts != [] then Least(starts) - 1 else Max(lastSparseRow, region.headerEnd)
  }

  ghost predicate BlocksBelow(region: Region, other: Region) {
    other != region && other.metricSpan.top > region.headerEnd && ColumnsMeet(region.metricSpan, other.metricSpan)
  }

  lemma {:induction false} StartsAre(region: Region, layouts: seq<Layout>)
    ensures forall l :: l in layouts && BlocksBelow(region, l.region) ==>
      l.region.metricSpan.top in StartsBelow(region, layouts)
    ensures forall t :: t in StartsBelow(region, layouts) ==>
              exists l :: l in layouts && BlocksBelow(region, l.region) && l.region.metricSpan.top == t
  {
    if layouts != [] {
      StartsAre(region, layouts[..|layouts| - 1]);
      assert layouts == layouts[..|layouts| - 1] + [layouts[|layouts| - 1]];
    }
  }

  lemma {:induction false} LeastIs(s: seq<int>)
    requires s != []
    ensures Least(s) in s && forall x :: x in s ==> Least(s) <= x
  {
    if |s| > 1 {
      LeastIs(s[..|s| - 1]);
      assert s == s[..|s| - 1] + [s[|s| - 1]];
    }
  }

  predicate InDetail(region: Region, layouts: seq<Layout>, lastSparseRow: int, row: int) {
    region.headerEnd < row <= DetailEnd(region, layouts, lastSparseRow)
  }

  /** The detail rows of a region end just above the nearest layout below it that shares its columns. */
  lemma DetailStopsAbove(region: Region, layouts: seq<Layout>, lastSparseRow: int, other: Layout)
    requires other in layouts && BlocksBelow(region, other.region)
    ensures DetailEnd(region, layouts, lastSparseRow) < other.region.metricSpan.top
  {
    StartsAre(region, layouts);
    LeastIs(StartsBelow(region, layouts));
  }

  /**
   The detail rows are those below the header and above every layout further down that shares its
   columns; when there is none, the last row in use ends them.
   */
  lemma DetailRows(region: Region, layouts: seq<Layout>, lastSparseRow: int, row: int)
    ensures InDetail(region, layouts, lastSparseRow, row) <==>
      && region.headerEnd < row
      && (forall l :: l in layouts && BlocksBelow(region, l.region) ==> row < l.region.metricSpan.top)
      && ((exists l :: l in layouts && BlocksBelow(region, l.region)) || row <= lastSparseRow)
  {
    StartsAre(region, layouts);
    var starts := StartsBelow(region, layouts);
    if starts != [] {
      LeastIs(starts);
      var l :| l in layouts && BlocksBelow(region, l.region) && l.region.metricSpan.top == Least(starts);
    }
  }

  /**
   Two layouts over common metric columns whose metric header rows do not overlap have
   disjoint detail rows, and neither detail interval holds a metric header row of the other.
   */
  lemma DetailsDisjoint(a: Layout, b: Layout, layouts: seq<Layout>, lastSparseRow: int)
    requires a in layouts && b in layouts && ColumnsMeet(a.region.metricSpan, b.region.metricSpan)
    requires a.region.metricSpan.top <= a.region.headerEnd && b.region.metricSpan.top <= b.region.headerEnd
    requires a.region.headerEnd < b.region.metricSpan.top || b.region.headerEnd < a.region.metricSpan.top
    ensures forall row ::
      !(InDetail(a.region, layouts, lastSparseRow, row) && InDetail(b.region, layouts, lastSparseRow, row))
    ensures forall row :: b.region.metricSpan.top <= row <= b.region.headerEnd ==>
      !InDetail(a.region, layouts, lastSparseRow, row)
    ensures forall row :: a.region.metricSpan.top <= row <= a.region.headerEnd ==>
      !InDetail(b.region, layouts, lastSparseRow, row)
  {
    if a.region.headerEnd < b.region.metricSpan.top {
      DetailStopsAbove(a.region, layouts, lastSparseRow, b);
    } else {
      DetailStopsAbove(b.region, layouts, lastSparseRow, a);
    }
  }

  /** Some row of the header band of `b` is a detail row of `a`. */
  ghost predicate EntersBand(a: Region, b: Region, layouts: seq<Layout>, lastSparseRow: int) {
    exists row :: b.bandStart <= row <= b.headerEnd && InDetail(a, layouts, lastSparseRow, row)
  }

  /**
   The rest of a header band is not protected: the detail of a layout above reaches into
   the band of `b` exactly when no layout it shares columns with starts at or above that band.
   */
  lemma BandReached(a: Layout, b: Layout, layouts: seq<Layout>, lastSparseRow: int)
    requires b in layouts && BlocksBelow(a.region, b.region)
    requires a.region.headerEnd < b.region.bandStart <= b.region.metricSpan.top <= b.region.headerEnd
    ensures EntersBand(a.region, b.region, layouts, lastSparseRow) <==>
      !(exists c :: c in layouts && BlocksBelow(a.region, c.region) && c.region.metricSpan.top <= b.region.bandStart)
  {
    StartsAre(a.region, layouts);
    LeastIs(StartsBelow(a.region, layouts));
    var end := DetailEnd(a.region, layouts, lastSparseRow);
    assert b.region.metricSpan.top in StartsBelow(a.region, layouts);
    assert end == Least(StartsBelow(a.region, layouts)) - 1;
    forall c | c in layouts && BlocksBelow(a.region, c.region) ensures end < c.region.metricSpan.top {
      DetailStopsAbove(a.region, layouts, lastSparseRow, c);
    }
    if end >= b.region.bandStart {
      assert InDetail(a.region, layouts, lastSparseRow, b.region.bandStart);
    }
  }
}
