/**
 Two small worksheets at which header discovery falls short: a metric pair that no search
 nominates, and detail rows that reach into the header band of the next table.
 */
module RegionExamples {
  import opened Outcomes
  import opened MergeSweep
  import opened RowIntervals
  import opened RegionIndex

  const QUANTITY := Text(true, false, false)
  const COST := Text(false, true, false)
  const CUMULATIVE := Text(false, false, true)
  const PLAIN := Text(false, false, false)

  /** The index of a worksheet with at most one merged span. */
  method IndexOf(values: map<Cell, Text>, spans: seq<Span>) returns (index: Index)
    requires |values| <= 10 && |spans| <= 1
    requires Sheet(values, spans).Readable()
    ensures fresh(index) && index.Valid() && index.visitCount == 0 && index.sheet == Sheet(values, spans)
  {
    assert values.Keys + {} == values.Keys && |values.Keys| == |values|;
    var built := SparseRegionIndex(values, {}, spans);
    var (sheet, tables) := built.value;
    SameSpan(sheet.spans, spans);
    index := new Index(sheet, tables);
  }

  lemma SameSpan(a: seq<Span>, b: seq<Span>)
    requires multiset(a) == multiset(b) && |b| <= 1
    ensures a == b
  {
    assert |a| == |multiset(a)| && |b| == |multiset(b)|;
    if |a| == 1 {
      assert a[0] in multiset(a) && multiset(b) == multiset{b[0]};
    }
  }

  // ----- A cumulative header one column wide -----

  /** A cumulative header over rows 1 and 2 of the first column, and below it a metric pair. */
  function NarrowSheet(): Sheet {
    Sheet(map[Cell(1, 1) := CUMULATIVE, Cell(3, 1) := QUANTITY, Cell(3, 2) := COST], [Bounds(1, 1, 1, 2)])
  }

  lemma NarrowSheetReads()
    ensures NarrowSheet().Readable() && NarrowSheet().PairAt(3, 1) && |NarrowSheet().values| == 3
    ensures IsBandStart(NarrowSheet().OccupiedRow, 3, 1)
  {
    var sheet := NarrowSheet();
    assert |sheet.values.Keys| == |sheet.values|;
    assert sheet.values.Keys == {Cell(1, 1), Cell(3, 1), Cell(3, 2)};
    assert sheet.spans[0] in sheet.spans;
  }

  /** The pair is recognised as cumulative, yet its header is too narrow to be a root. */
  lemma NarrowHeaderStrands()
    requires NarrowSheet().Readable()
    ensures NarrowSheet().Recognised(1, Bounds(1, 3, 1, 3)) && !NarrowSheet().ReachedFromWide(3, 1)
  {
    var header := NarrowSheet().spans[0];
    assert header in NarrowSheet().spans && Nested(header, Bounds(1, 3, 1, 3));
  }

  lemma NarrowHeaderPassesOver(index: Index, roles: Roles)
    requires index.sheet == NarrowSheet() && NarrowSheet().Readable()
    requires OriginsOf(index.sheet.spans, index.tables.spanByOrigin)
    ensures index.sheet.PairAt(3, 1) && index.PassedOver(roles, 3, 1)
  {
    NarrowSheetReads();
    NarrowHeaderStrands();
    index.CellSpanFound(3, 1);
    assert index.CellSpan(3, 1) == Bounds(1, 3, 1, 3);
    index.PassedOverExactly(roles, 3, 1, 1);
  }

  /** No roles make the discovery nominate the pair of this worksheet. */
  method NarrowHeader(roles: Roles) returns (index: Index)
    ensures fresh(index) && index.Valid() && index.sheet == NarrowSheet()
    ensures index.sheet.PairAt(3, 1) && index.PassedOver(roles, 3, 1)
  {
    NarrowSheetReads();
    index := IndexOf(NarrowSheet().values, NarrowSheet().spans);
    NarrowHeaderPassesOver(index, roles);
  }

  // ----- A header band that starts above its metric row -----

  /** Two tables over the same columns; the band of the second starts on row 3, above its metric row. */
  function BandSheet(): Sheet {
    Sheet(map[Cell(1, 1) := QUANTITY, Cell(1, 2) := COST, Cell(3, 3) := PLAIN,
              Cell(4, 1) := QUANTITY, Cell(4, 2) := COST], [])
  }

  lemma BandSheetReads()
    ensures BandSheet().Readable() && |BandSheet().values| == 5
    ensures forall row, q :: BandSheet().PairAt(row, q) <==> q == 1 && (row == 1 || row == 4)
    ensures IsBandStart(BandSheet().OccupiedRow, 1, 1) && IsBandStart(BandSheet().OccupiedRow, 4, 3)
  {
    var sheet := BandSheet();
    assert |sheet.values.Keys| == |sheet.values|;
    assert sheet.values.Keys == {Cell(1, 1), Cell(1, 2), Cell(3, 3), Cell(4, 1), Cell(4, 2)};
    assert Cell(3, 3) in sheet.values && Cell(1, 1) in sheet.values && Cell(4, 1) in sheet.values;
  }

  /** Work and unit columns that are found in every band. */
  function Named(): Roles {
    (top, bottom, left, right, cumulative) => Some((5, 6))
  }

  function FirstTable(): Layout {
    Layout(Region(1, 2, 1, Bounds(1, 1, 2, 1), 1), 5, 6, false)
  }

  function SecondTable(): Layout {
    Layout(Region(1, 2, 4, Bounds(1, 4, 2, 4), 3), 5, 6, false)
  }

  lemma BandSheetRow(index: Index, l: Layout, row: int)
    requires index.sheet == BandSheet() && BandSheet().Readable()
    requires OriginsOf(index.sheet.spans, index.tables.spanByOrigin)
    requires index.FromRow(Named(), l, row)
    ensures l == FirstTable() || l == SecondTable()
  {
    BandSheetReads();
    BandStartIsUnique(index.sheet.OccupiedRow, row, l.region.bandStart, if row == 1 then 1 else 3);
    index.CellSpanFound(row, 1);
    index.CellSpanFound(row, 2);
  }

  lemma BandSheetTables(index: Index)
    requires index.sheet == BandSheet() && BandSheet().Readable()
    requires OriginsOf(index.sheet.spans, index.tables.spanByOrigin)
    ensures index.FromRow(Named(), FirstTable(), 1) && index.FromRow(Named(), SecondTable(), 4)
  {
    BandSheetReads();
    assert index.HeaderEnd(1, 1, 2) == 1 && index.HeaderEnd(4, 1, 2) == 4;
  }

  lemma BandSheetLayouts(index: Index)
    requires index.sheet == BandSheet() && BandSheet().Readable()
    requires OriginsOf(index.sheet.spans, index.tables.spanByOrigin)
    ensures forall l :: index.Nominated(Named(), l) <==> l == FirstTable() || l == SecondTable()
  {
    BandSheetTables(index);
    forall l, row | index.FromRow(Named(), l, row) ensures l == FirstTable() || l == SecondTable() {
      BandSheetRow(index, l, row);
    }
    assert index.sheet.spans == [];
  }

  /** With exactly the nominated layouts, row 3 is detail of the first table and header band of the second. */
  lemma DetailEntersBand(index: Index, layouts: seq<Layout>)
    requires index.sheet == BandSheet() && BandSheet().Readable()
    requires OriginsOf(index.sheet.spans, index.tables.spanByOrigin)
    requires forall l :: l in layouts <==> index.Nominated(Named(), l)
    ensures FirstTable() in layouts && SecondTable() in layouts
    ensures BlocksBelow(FirstTable().region, SecondTable().region)
    ensures SecondTable().region.bandStart <= 3 <= SecondTable().region.headerEnd
    ensures InDetail(FirstTable().region, layouts, index.tables.lastSparseRow, 3)
  {
    BandSheetLayouts(index);
    BandReached(FirstTable(), SecondTable(), layouts, index.tables.lastSparseRow);
    DetailStopsAbove(FirstTable().region, layouts, index.tables.lastSparseRow, SecondTable());
  }

  /** Whatever layouts discovery returns for this worksheet, they overlap in that way. */
  method BandEntered() returns (index: Index, ok: bool, layouts: seq<Layout>)
    ensures fresh(index) && index.Valid() && index.sheet == BandSheet()
    ensures ok ==> FirstTable() in layouts && SecondTable() in layouts
    ensures ok ==> InDetail(FirstTable().region, layouts, index.tables.lastSparseRow, 3)
    ensures SecondTable().region.bandStart <= 3 <= SecondTable().region.headerEnd
  {
    BandSheetReads();
    index := IndexOf(BandSheet().values, BandSheet().spans);
    ok, layouts := index.StructuralLayouts(Named());
    if ok {
      DetailEntersBand(index, layouts);
    }
  }
}
