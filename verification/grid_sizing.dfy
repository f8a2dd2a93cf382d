/**
 The sizing arithmetic of the grid view's initializer: every row (and the column
 header) is 50 high; a column is as wide as its widest measured value plus
 padding; the row header is as wide as the widest measured column name plus
 padding. Text measurement is a parameter, `measure`, standing for the width of
 a string's bounding rectangle in the view's font.
 */
module GridSizing {
  import opened Options
  import opened DataGrid
  import opened GridLayout

  const RowHeight: real := 50.0
  const Padding: real := 10.0

  /** The least integer not below `x`. */
  function Ceiling(x: real): (r: int)
    ensures x <= r as real < x + 1.0
  {
    -((-x).Floor)
  }

  /** `x.rounded(.awayFromZero)`: the nearest integer at least as far from zero as `x`. */
  function RoundAwayFromZero(x: real): (r: real)
    ensures r == r.Floor as real
    ensures x >= 0.0 ==> x <= r < x + 1.0
    ensures x < 0.0 ==> x - 1.0 < r <= x
  {
    if x >= 0.0 then Ceiling(x) as real else -(Ceiling(-x) as real)
  }

  /** The width one string asks for: its measured width, rounded away from zero, plus padding. */
  function TextWidth(measure: string -> real, s: string): real {
    RoundAwayFromZero(measure(s)) + Padding
  }

  /** `xs.max() ?? 0`. */
  function MaxOrZero(xs: seq<real>): (m: real)
    ensures xs == [] ==> m == 0.0
    ensures xs != [] ==> m in xs
    ensures forall i :: 0 <= i < |xs| ==> xs[i] <= m
  {
    if xs == [] then 0.0
    else
      var rest := MaxOrZero(xs[1..]);
      if xs[1..] == [] || rest < xs[0] then xs[0] else rest
  }

  /** The widths asked for by a column's values, absent ones shown as `missing`. */
  function ValueWidths(g: Grid, column: int, measure: string -> real, missing: string): (ws: seq<real>)
    ensures |ws| == |g.rowNames|
    ensures forall r :: 0 <= r < |ws| ==> ws[r] == TextWidth(measure, Get(g, r, column).GetOr(missing))
  {
    var values := Column(g, column);
    seq(|values|, i requires 0 <= i < |values| => TextWidth(measure, values[i].GetOr(missing)))
  }

  /** The width of one column: the widest of its values, or 0 without rows. */
  function ColumnWidth(g: Grid, column: int, measure: string -> real, missing: string): (w: real)
    ensures |g.rowNames| == 0 ==> w == 0.0
    ensures forall r :: 0 <= r < |g.rowNames| ==> TextWidth(measure, Get(g, r, column).GetOr(missing)) <= w
    ensures |g.rowNames| > 0 ==>
      exists r :: 0 <= r < |g.rowNames| && w == TextWidth(measure, Get(g, r, column).GetOr(missing))
  {
    var ws := ValueWidths(g, column, measure, missing);
    var w := MaxOrZero(ws);
    assert |g.rowNames| > 0 ==> exists r :: 0 <= r < |ws| && w == ws[r];
    w
  }

  /** The widths asked for by the column names. */
  function NameWidths(names: seq<string>, measure: string -> real): (ws: seq<real>)
    ensures |ws| == |names|
    ensures forall i :: 0 <= i < |names| ==> ws[i] == TextWidth(measure, names[i])
  {
    seq(|names|, i requires 0 <= i < |names| => TextWidth(measure, names[i]))
  }

  /** The width of the row-header pane. As in the initializer, it is taken over the
      COLUMN names, not over the row names the pane displays. */
  function RowHeaderWidth(g: Grid, measure: string -> real): (w: real)
    ensures |g.columnNames| == 0 ==> w == 0.0
    ensures forall c :: 0 <= c < |g.columnNames| ==> TextWidth(measure, g.columnNames[c]) <= w
    ensures |g.columnNames| > 0 ==>
      exists c :: 0 <= c < |g.columnNames| && w == TextWidth(measure, g.columnNames[c])
  {
    var ws := NameWidths(g.columnNames, measure);
    var w := MaxOrZero(ws);
    assert |g.columnNames| > 0 ==> exists c :: 0 <= c < |ws| && w == ws[c];
    w
  }

  /** The row header is narrower than any positive width that every column name asks
      less than. */
  lemma RowHeaderNarrowerThan(g: Grid, measure: string -> real, bound: real)
    requires bound > 0.0
    requires forall c :: 0 <= c < |g.columnNames| ==> TextWidth(measure, g.columnNames[c]) < bound
    ensures RowHeaderWidth(g, measure) < bound
  {
    var w := RowHeaderWidth(g, measure);
    if |g.columnNames| > 0 {
      var c :| 0 <= c < |g.columnNames| && w == TextWidth(measure, g.columnNames[c]);
    }
  }

  /** One height per row, all of them `RowHeight`. */
  function RowHeights(g: Grid): (hs: seq<real>)
    ensures |hs| == Rows(g).Count()
    ensures forall r :: 0 <= r < |hs| ==> hs[r] == RowHeight
  {
    seq(Rows(g).Count(), _ => RowHeight)
  }

  /** One width per column, each the widest of that column's values. */
  function ColumnWidths(g: Grid, measure: string -> real, missing: string): (ws: seq<real>)
    ensures |ws| == Columns(g).Count()
    ensures forall c :: 0 <= c < |ws| ==> ws[c] == ColumnWidth(g, c, measure, missing)
  {
    seq(Columns(g).Count(), c => ColumnWidth(g, c, measure, missing))
  }

  /** Everything the initializer derives from the grid before it builds the panes. */
  datatype Sizing = Sizing(rowHeights: seq<real>, columnWidths: seq<real>, columnHeaderHeight: real, rowHeaderWidth: real)

  /** The sizing pass of the grid view's initializer. */
  function ComputeSizing(g: Grid, measure: string -> real, missing: string): (s: Sizing)
    ensures |s.rowHeights| == |g.rowNames|
    ensures forall r :: 0 <= r < |s.rowHeights| ==> s.rowHeights[r] == RowHeight
    ensures s.columnHeaderHeight == RowHeight
    ensures |s.columnWidths| == |g.columnNames|
    ensures forall c :: 0 <= c < |s.columnWidths| ==> s.columnWidths[c] == ColumnWidth(g, c, measure, missing)
    ensures s.rowHeaderWidth == RowHeaderWidth(g, measure)
  {
    Sizing(RowHeights(g), ColumnWidths(g, measure, missing), RowHeight, RowHeaderWidth(g, measure))
  }

  /** A measurement that never reports a negative width. */
  ghost predicate NonNegativeMeasure(measure: string -> real) {
    forall s :: measure(s) >= 0.0
  }

  /** With a non-negative measurement, a column is never narrower than 0, and a
      column of a grid with rows is at least as wide as the padding. */
  lemma ColumnAtLeastPadding(g: Grid, column: int, measure: string -> real, missing: string)
    requires NonNegativeMeasure(measure)
    ensures ColumnWidth(g, column, measure, missing) >= 0.0
    ensures |g.rowNames| > 0 ==> ColumnWidth(g, column, measure, missing) >= Padding
  {
    if |g.rowNames| > 0 {
      var v := Get(g, 0, column).GetOr(missing);
      assert measure(v) >= 0.0;
      assert TextWidth(measure, v) <= ColumnWidth(g, column, measure, missing);
    }
  }

  /** No size of the sizing is negative. */
  predicate NonNegativeSizing(s: Sizing) {
    && NonNegative(s.rowHeights) && NonNegative(s.columnWidths)
    && s.rowHeaderWidth >= 0.0 && s.columnHeaderHeight >= 0.0
  }

  /** With a non-negative measurement, every size the sizing pass produces is non-negative. */
  lemma SizesNonNegative(g: Grid, measure: string -> real, missing: string)
    requires NonNegativeMeasure(measure)
    ensures NonNegativeSizing(ComputeSizing(g, measure, missing))
  {
    var s := ComputeSizing(g, measure, missing);
    forall c | 0 <= c < |s.columnWidths|
      ensures s.columnWidths[c] >= 0.0
    {
      ColumnAtLeastPadding(g, c, measure, missing);
    }
    if |g.columnNames| > 0 {
      assert measure(g.columnNames[0]) >= 0.0;
      assert TextWidth(measure, g.columnNames[0]) <= s.rowHeaderWidth;
    }
  }
}
