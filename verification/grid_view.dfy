/**
 The grid view: three collection views (panes) over one grid, the data-source
 answers each pane gives, the layout each pane is built with, and the
 scroll handler that keeps the panes aligned. The view's pane switch on object
 identity is modelled as the enumeration `Pane`.
 */
module GridView {
  import opened Options
  import opened DataGrid
  import opened GridLayout
  import opened GridSizing

  /** The row-header pane (`rowsView`), the column-header pane (`columnsView`) and
      the content pane (`contentView`). */
  datatype Pane = RowHeader | ColumnHeader | Content

  /** The state of the view the data source and the layouts read. */
  datatype View = View(grid: Grid, missing: string, sizing: Sizing)

  /** The view's initializer, apart from building and styling its subviews. */
  function MakeView(g: Grid, measure: string -> real, missing: string): (v: View)
    ensures v.grid == g && v.missing == missing && Shaped(v)
    ensures forall r :: 0 <= r < |g.rowNames| ==> v.sizing.rowHeights[r] == RowHeight
    ensures v.sizing.columnHeaderHeight == RowHeight
    ensures forall c :: 0 <= c < |g.columnNames| ==>
      v.sizing.columnWidths[c] == ColumnWidth(g, c, measure, missing)
    ensures v.sizing.rowHeaderWidth == RowHeaderWidth(g, measure)
  {
    View(g, missing, ComputeSizing(g, measure, missing))
  }

  /** The layout each pane is built with: the row header has the content's rows and
      one column as wide as the row header; the column header has one row as high
      as the column header and the content's columns. */
  function PaneLayout(v: View, pane: Pane): (l: Layout)
    ensures pane != ColumnHeader ==> l.rowHeights == v.sizing.rowHeights
    ensures pane != RowHeader ==> l.columnWidths == v.sizing.columnWidths
    ensures pane == RowHeader ==> l.columnWidths == [v.sizing.rowHeaderWidth]
    ensures pane == ColumnHeader ==> l.rowHeights == [v.sizing.columnHeaderHeight]
  {
    match pane
    case RowHeader => MakeLayout(v.sizing.rowHeights, [v.sizing.rowHeaderWidth])
    case ColumnHeader => MakeLayout([v.sizing.columnHeaderHeight], v.sizing.columnWidths)
    case Content => MakeLayout(v.sizing.rowHeights, v.sizing.columnWidths)
  }

  /** `numberOfSections(in:)`: one section per grid row, except in the column header. */
  function NumberOfSections(v: View, pane: Pane): (n: nat)
    ensures pane == ColumnHeader ==> n == 1
    ensures pane != ColumnHeader ==> n == |v.grid.rowNames|
  {
    match pane
    case Content | RowHeader => Rows(v.grid).Count()
    case ColumnHeader => 1
  }

  /** `collectionView(_:numberOfItemsInSection:)`: one item per grid column, except in
      the row header. Every section has the same number of items. */
  function NumberOfItems(v: View, pane: Pane, section: int): (n: nat)
    ensures pane == RowHeader ==> n == 1
    ensures pane != RowHeader ==> n == |v.grid.columnNames|
  {
    match pane
    case ColumnHeader | Content => Columns(v.grid).Count()
    case RowHeader => 1
  }

  /** The sizing has one row height per row and one column width per column. */
  predicate Shaped(v: View) {
    |v.sizing.rowHeights| == |v.grid.rowNames| && |v.sizing.columnWidths| == |v.grid.columnNames|
  }

  /** The view's initializer sizes it to the shape of its grid. */
  lemma MakeViewShaped(g: Grid, measure: string -> real, missing: string)
    ensures Shaped(MakeView(g, measure, missing))
  {
  }

  /** The data source announces exactly the cells each pane's layout has frames for.
      `MakeViewShaped` gives the requirement for every view the initializer builds. */
  lemma CountsMatchLayouts(v: View, pane: Pane, ip: IndexPath)
    requires Shaped(v)
    ensures NumberOfSections(v, pane) == |PaneLayout(v, pane).rowHeights|
    ensures NumberOfItems(v, pane, ip.section) == |PaneLayout(v, pane).columnWidths|
    ensures InGrid(PaneLayout(v, pane), ip) <==>
      0 <= ip.section < NumberOfSections(v, pane) && 0 <= ip.item < NumberOfItems(v, pane, ip.section)
  {
  }

  /** When no size of the view is negative, the offsets of every pane's layout never
      decrease, so its frames do not overlap. `SizesNonNegative` gives the
      requirement for every measurement that never reports a negative width. */
  lemma PaneOffsetsMonotone(v: View, pane: Pane, i: int, j: int)
    requires NonNegativeSizing(v.sizing)
    ensures 0 <= i <= j < |PaneLayout(v, pane).xPositions| ==>
      PaneLayout(v, pane).xPositions[i] <= PaneLayout(v, pane).xPositions[j]
    ensures 0 <= i <= j < |PaneLayout(v, pane).yPositions| ==>
      PaneLayout(v, pane).yPositions[i] <= PaneLayout(v, pane).yPositions[j]
  {
    var l := PaneLayout(v, pane);
    assert NonNegative(l.rowHeights) && NonNegative(l.columnWidths);
    if 0 <= i <= j < |l.xPositions| {
      PrefixTableMonotone(l.xPositions, l.columnWidths, i, j);
    }
    if 0 <= i <= j < |l.yPositions| {
      PrefixTableMonotone(l.yPositions, l.rowHeights, i, j);
    }
  }

  /** The index paths for which `CellText` can read its text: the header panes
      index the name arrays without a guard. */
  predicate HasText(v: View, pane: Pane, ip: IndexPath) {
    match pane
    case RowHeader => 0 <= ip.GridRow() < |v.grid.rowNames|
    case ColumnHeader => 0 <= ip.GridColumn() < |v.grid.columnNames|
    case Content => true
  }

  /** The text `collectionView(_:cellForItemAt:)` puts in a cell's label. */
  function CellText(v: View, pane: Pane, ip: IndexPath): (s: string)
    requires HasText(v, pane, ip)
    ensures pane == RowHeader ==> s == v.grid.rowNames[ip.GridRow()]
    ensures pane == ColumnHeader ==> s == v.grid.columnNames[ip.GridColumn()]
    ensures pane == Content && Get(v.grid, ip.GridRow(), ip.GridColumn()).None? ==> s == v.missing
    ensures pane == Content && Get(v.grid, ip.GridRow(), ip.GridColumn()).Some? ==>
      s == Get(v.grid, ip.GridRow(), ip.GridColumn()).value
  {
    match pane
    case RowHeader => v.grid.rowNames[ip.GridRow()]
    case ColumnHeader => v.grid.columnNames[ip.GridColumn()]
    case Content => Get(v.grid, ip.GridRow(), ip.GridColumn()).GetOr(v.missing)
  }

  /** Every content cell's text, measured, rounded and padded, fits the width of its frame. */
  lemma ContentTextFits(g: Grid, measure: string -> real, missing: string, ip: IndexPath)
    requires 0 <= ip.GridRow() < |g.rowNames| && 0 <= ip.GridColumn() < |g.columnNames|
    ensures var v := MakeView(g, measure, missing);
      && InGrid(PaneLayout(v, Content), ip)
      && TextWidth(measure, CellText(v, Content, ip)) <= Frame(PaneLayout(v, Content), ip).size.width
  {
  }

  /** The row header is sized from the column names, not from the row names it
      shows: a row name that asks for more width than every column name does not
      fit the row-header frame that shows it. */
  lemma RowNameCanOverflowRowHeader(v: View, measure: string -> real, row: int)
    requires v.sizing.rowHeaderWidth == RowHeaderWidth(v.grid, measure)
    requires Shaped(v)
    requires 0 <= row < |v.grid.rowNames|
    requires forall c :: 0 <= c < |v.grid.columnNames| ==>
      TextWidth(measure, v.grid.columnNames[c]) < TextWidth(measure, v.grid.rowNames[row])
    requires TextWidth(measure, v.grid.rowNames[row]) > 0.0
    ensures InGrid(PaneLayout(v, RowHeader), GridIndexPath(row, 0))
    ensures TextWidth(measure, CellText(v, RowHeader, GridIndexPath(row, 0)))
            > Frame(PaneLayout(v, RowHeader), GridIndexPath(row, 0)).size.width
  {
    RowHeaderNarrowerThan(v.grid, measure, TextWidth(measure, v.grid.rowNames[row]));
    var l := PaneLayout(v, RowHeader);
    var ip := GridIndexPath(row, 0);
    assert l.columnWidths == [v.sizing.rowHeaderWidth];
    assert InGrid(l, ip);
    assert Frame(l, ip).size.width == v.sizing.rowHeaderWidth;
    assert HasText(v, RowHeader, ip);
    assert CellText(v, RowHeader, ip) == v.grid.rowNames[row];
  }

  /** A point in the coordinates of a pane's content: its scroll offset. */
  datatype ScrollState = ScrollState(content: Point, rowHeader: Point, columnHeader: Point) {

    function OffsetOf(pane: Pane): Point {
      match pane
      case Content => content
      case RowHeader => rowHeader
      case ColumnHeader => columnHeader
    }

    /** The state after the scroll view itself moved `pane` to `offset`. */
    function WithOffset(pane: Pane, offset: Point): (t: ScrollState)
      ensures t.OffsetOf(pane) == offset
      ensures forall p :: p != pane ==> t.OffsetOf(p) == OffsetOf(p)
    {
      match pane
      case Content => this.(content := offset)
      case RowHeader => this.(rowHeader := offset)
      case ColumnHeader => this.(columnHeader := offset)
    }
  }

  /** The panes are aligned: the row header shows the content's vertical position and
      the column header its horizontal position. */
  predicate Synced(s: ScrollState) {
    s.rowHeader.y == s.content.y && s.columnHeader.x == s.content.x
  }

  /** `scrollViewDidScroll(_:)`: copies the coordinate the scrolled pane shares with
      another pane into that pane. The content drives both headers; each header
      drives only the content. */
  function DidScroll(s: ScrollState, pane: Pane): (t: ScrollState)
    ensures t.OffsetOf(pane) == s.OffsetOf(pane)
    ensures pane == Content ==>
      && t.rowHeader == Point(s.rowHeader.x, s.content.y)
      && t.columnHeader == Point(s.content.x, s.columnHeader.y)
    ensures pane == ColumnHeader ==> t.content == Point(s.columnHeader.x, s.content.y) && t.rowHeader == s.rowHeader
    ensures pane == RowHeader ==> t.content == Point(s.content.x, s.rowHeader.y) && t.columnHeader == s.columnHeader
  {
    var offset := s.OffsetOf(pane);
    match pane
    case Content => s.(rowHeader := s.rowHeader.(y := offset.y), columnHeader := s.columnHeader.(x := offset.x))
    case ColumnHeader => s.(content := s.content.(x := offset.x))
    case RowHeader => s.(content := s.content.(y := offset.y))
  }

  /** The user scrolls `pane` to `offset`, and the view reacts once. */
  function UserScroll(s: ScrollState, pane: Pane, offset: Point): (t: ScrollState)
    ensures t.OffsetOf(pane) == offset
  {
    DidScroll(s.WithOffset(pane, offset), pane)
  }

  /** Scrolling the content aligns the panes, whatever they showed before. */
  lemma ContentScrollSyncs(s: ScrollState, offset: Point)
    ensures Synced(UserScroll(s, Content, offset))
  {
  }

  /** Aligned panes stay aligned whichever pane the user scrolls. */
  lemma UserScrollPreservesSync(s: ScrollState, pane: Pane, offset: Point)
    requires Synced(s)
    ensures Synced(UserScroll(s, pane, offset))
  {
  }

  /** The panes are aligned exactly when the handler changes nothing for any pane,
      so once aligned, the notifications the handler's own writes raise are no-ops. */
  lemma SyncedIffQuiescent(s: ScrollState)
    ensures Synced(s) <==> forall p :: DidScroll(s, p) == s
  {
    if !Synced(s) {
      if s.rowHeader.y != s.content.y {
        assert DidScroll(s, RowHeader) != s;
      } else {
        assert DidScroll(s, ColumnHeader) != s;
      }
    }
  }

  /** The handler of one header pane changes nothing exactly when that header already
      shows the content's coordinate along the axis they share. */
  lemma HeaderHandlerQuiet(s: ScrollState)
    ensures DidScroll(s, RowHeader) == s <==> s.rowHeader.y == s.content.y
    ensures DidScroll(s, ColumnHeader) == s <==> s.columnHeader.x == s.content.x
  {
    if s.rowHeader.y != s.content.y {
      assert DidScroll(s, RowHeader).content.y != s.content.y;
    }
    if s.columnHeader.x != s.content.x {
      assert DidScroll(s, ColumnHeader).content.x != s.content.x;
    }
  }

  /** The content's handler writes the row header's y and then the column header's x.
      Each write raises that header's handler, and it runs at a state where it changes
      nothing; after both writes the state is the handler's result. */
  lemma ContentHandlerWritesAreQuiet(s: ScrollState)
    ensures var s1 := s.(rowHeader := s.rowHeader.(y := s.content.y));
      var s2 := s1.(columnHeader := s1.columnHeader.(x := s1.content.x));
      && DidScroll(s1, RowHeader) == s1
      && DidScroll(s2, ColumnHeader) == s2
      && s2 == DidScroll(s, Content)
  {
    var s1 := s.(rowHeader := s.rowHeader.(y := s.content.y));
    var s2 := s1.(columnHeader := s1.columnHeader.(x := s1.content.x));
    HeaderHandlerQuiet(s1);
    HeaderHandlerQuiet(s2);
  }

  /** A header's handler writes one coordinate of the content, raising the content's
      handler; when the other header already showed the content's other coordinate,
      that handler changes nothing. */
  lemma HeaderHandlerWriteIsQuiet(s: ScrollState, pane: Pane)
    requires pane == ColumnHeader ==> s.rowHeader.y == s.content.y
    requires pane == RowHeader ==> s.columnHeader.x == s.content.x
    requires pane != Content
    ensures DidScroll(DidScroll(s, pane), Content) == DidScroll(s, pane)
  {
    var t := DidScroll(s, pane);
    assert Synced(t);
    SyncedIffQuiescent(t);
  }

  /** With aligned panes, every row has the same offset from its pane's visible top
      in the row header as in the content, and every column the same offset from its
      pane's visible left edge in the column header as in the content. That the rows
      (columns) then line up on screen also needs the subview frames, which put the row
      header at the content's y and the column header at the content's x; those frames
      are not part of this model. */
  lemma PanesLineUp(g: Grid, measure: string -> real, missing: string, s: ScrollState, r: int, c: int)
    requires Synced(s)
    requires 0 <= r < |g.rowNames| && 0 <= c < |g.columnNames|
    ensures var v := MakeView(g, measure, missing);
      && Frame(PaneLayout(v, RowHeader), GridIndexPath(r, 0)).origin.y - s.rowHeader.y
         == Frame(PaneLayout(v, Content), GridIndexPath(r, c)).origin.y - s.content.y
      && Frame(PaneLayout(v, ColumnHeader), GridIndexPath(0, c)).origin.x - s.columnHeader.x
         == Frame(PaneLayout(v, Content), GridIndexPath(r, c)).origin.x - s.content.x
  {
  }
}
