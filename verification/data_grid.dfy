/**
 The grid store: named rows, named columns and a dense, rectangular matrix of
 optional strings. Out-of-range reads degrade to `None`; writes are only defined
 inside the grid, because the store indexes its arrays without a guard.
 */
module DataGrid {
  import opened Options

  /** Swift's `Range<Int>`: the half-open interval `lowerBound ..< upperBound`. */
  datatype Range = Range(lowerBound: int, upperBound: int) {

    predicate Contains(i: int) {
      lowerBound <= i < upperBound
    }

    function Count(): int {
      upperBound - lowerBound
    }
  }

  /** The stored fields of the grid, before its shape invariant is imposed. */
  datatype RawGrid = RawGrid(rowNames: seq<string>, columnNames: seq<string>, data: seq<seq<Option<string>>>)

  /** One inner sequence per row name, each as long as there are column names. */
  predicate Rectangular(g: RawGrid) {
    && |g.data| == |g.rowNames|
    && forall r :: 0 <= r < |g.data| ==> |g.data[r]| == |g.columnNames|
  }

  /** A grid always satisfies its shape invariant: its matrix is private and only
      `Init` and `Set` produce grids. */
  type Grid = g: RawGrid | Rectangular(g) witness RawGrid([], [], [])

  /** The valid row indices, exactly `0 ..< |rowNames|`. */
  function Rows(g: Grid): (rows: Range)
    ensures rows.lowerBound == 0 && rows.Count() == |g.rowNames|
    ensures forall r :: rows.Contains(r) <==> 0 <= r < |g.rowNames|
  {
    Range(0, |g.rowNames|)
  }

  /** The valid column indices, exactly `0 ..< |columnNames|`. */
  function Columns(g: Grid): (columns: Range)
    ensures columns.lowerBound == 0 && columns.Count() == |g.columnNames|
    ensures forall c :: columns.Contains(c) <==> 0 <= c < |g.columnNames|
  {
    Range(0, |g.columnNames|)
  }

  /** A grid with the given names whose every cell holds `value`. */
  function Init(rowNames: seq<string>, columnNames: seq<string>, value: Option<string>): (g: Grid)
    ensures g.rowNames == rowNames && g.columnNames == columnNames
    ensures forall r, c :: 0 <= r < |rowNames| && 0 <= c < |columnNames| ==> Get(g, r, c) == value
  {
    RawGrid(rowNames, columnNames, seq(|rowNames|, _ => seq(|columnNames|, _ => value)))
  }

  /** `Init` with the initializer's default fill value, `nil`. */
  function InitEmpty(rowNames: seq<string>, columnNames: seq<string>): (g: Grid)
    ensures g.rowNames == rowNames && g.columnNames == columnNames
    ensures forall r, c :: Get(g, r, c) == None
  {
    Init(rowNames, columnNames, None)
  }

  /** Whether `(row, column)` addresses a cell of the grid. */
  predicate Contains(g: Grid, row: int, column: int)
    ensures Contains(g, row, column) <==> 0 <= row < |g.rowNames| && 0 <= column < |g.columnNames|
  {
    Rows(g).Contains(row) && Columns(g).Contains(column)
  }

  /** The bounds-checked read: never fails, `None` outside the grid. */
  function Get(g: Grid, row: int, column: int): (v: Option<string>)
    ensures !(0 <= row < |g.rowNames| && 0 <= column < |g.columnNames|) ==> v == None
  {
    if Contains(g, row, column) then g.data[row][column] else None
  }

  /** The unguarded write; only cells inside the grid can be written. */
  function Set(g: Grid, row: int, column: int, value: Option<string>): (h: Grid)
    requires Contains(g, row, column)
    ensures h.rowNames == g.rowNames && h.columnNames == g.columnNames
    ensures Get(h, row, column) == value
    ensures forall r, c :: (r != row || c != column) ==> Get(h, r, c) == Get(g, r, c)
  {
    g.(data := g.data[row := g.data[row][column := value]])
  }

  /** Two grids with the same names that agree on every read are the same grid. */
  lemma {:induction false} Extensionality(g: Grid, h: Grid)
    requires g.rowNames == h.rowNames && g.columnNames == h.columnNames
    requires forall r, c :: Get(g, r, c) == Get(h, r, c)
    ensures g == h
  {
    forall r | 0 <= r < |g.data|
      ensures g.data[r] == h.data[r]
    {
      forall c | 0 <= c < |g.data[r]|
        ensures g.data[r][c] == h.data[r][c]
      {
        assert Get(g, r, c) == Get(h, r, c);
      }
    }
  }

  /** Writing a cell twice keeps only the second value. */
  lemma SetSet(g: Grid, row: int, column: int, v: Option<string>, w: Option<string>)
    requires Contains(g, row, column)
    ensures Set(Set(g, row, column, v), row, column, w) == Set(g, row, column, w)
  {
    Extensionality(Set(Set(g, row, column, v), row, column, w), Set(g, row, column, w));
  }

  /** Writing back the value just read leaves the grid as it was. */
  lemma SetGet(g: Grid, row: int, column: int)
    requires Contains(g, row, column)
    ensures Set(g, row, column, Get(g, row, column)) == g
  {
    Extensionality(Set(g, row, column, Get(g, row, column)), g);
  }

  /** Writes to two different cells commute. */
  lemma SetCommutes(g: Grid, r1: int, c1: int, v1: Option<string>, r2: int, c2: int, v2: Option<string>)
    requires Contains(g, r1, c1) && Contains(g, r2, c2)
    requires r1 != r2 || c1 != c2
    ensures Set(Set(g, r1, c1, v1), r2, c2, v2) == Set(Set(g, r2, c2, v2), r1, c1, v1)
  {
    Extensionality(Set(Set(g, r1, c1, v1), r2, c2, v2), Set(Set(g, r2, c2, v2), r1, c1, v1));
  }

  /** A write `grid[row: row, column: column] = value`. */
  datatype Write = Write(row: int, column: int, value: Option<string>)

  predicate WritesInside(g: Grid, writes: seq<Write>) {
    forall i :: 0 <= i < |writes| ==> Contains(g, writes[i].row, writes[i].column)
  }

  /** Performs the writes in order. */
  function ApplyWrites(g: Grid, writes: seq<Write>): (h: Grid)
    requires WritesInside(g, writes)
    ensures h.rowNames == g.rowNames && h.columnNames == g.columnNames
    decreases |writes|
  {
    if writes == [] then g
    else ApplyWrites(Set(g, writes[0].row, writes[0].column, writes[0].value), writes[1..])
  }

  /** The value of the last write to `(row, column)`, or `initial` when there is none. */
  function LastWritten(writes: seq<Write>, row: int, column: int, initial: Option<string>): Option<string>
    decreases |writes|
  {
    if writes == [] then initial
    else
      var w := writes[|writes| - 1];
      if w.row == row && w.column == column then w.value
      else LastWritten(writes[..|writes| - 1], row, column, initial)
  }

  lemma {:induction false} ApplyWritesSnoc(g: Grid, writes: seq<Write>, w: Write)
    requires WritesInside(g, writes + [w])
    ensures WritesInside(g, writes)
    ensures Contains(ApplyWrites(g, writes), w.row, w.column)
    ensures ApplyWrites(g, writes + [w]) == Set(ApplyWrites(g, writes), w.row, w.column, w.value)
    decreases |writes|
  {
    assert WritesInside(g, writes) by {
      forall i | 0 <= i < |writes|
        ensures Contains(g, writes[i].row, writes[i].column)
      {
        assert (writes + [w])[i] == writes[i];
      }
    }
    assert (writes + [w])[|writes|] == w;
    if writes == [] {
      assert [w][1..] == [];
    } else {
      var h := Set(g, writes[0].row, writes[0].column, writes[0].value);
      assert (writes + [w])[1..] == writes[1..] + [w];
      assert WritesInside(h, writes[1..] + [w]) by {
        forall i | 0 <= i < |writes[1..] + [w]|
          ensures Contains(h, (writes[1..] + [w])[i].row, (writes[1..] + [w])[i].column)
        {
          assert (writes[1..] + [w])[i] == (writes + [w])[i + 1];
        }
      }
      ApplyWritesSnoc(h, writes[1..], w);
    }
  }

  /** Every in-range read returns the last value written there, or the initial fill. */
  lemma {:induction false} ReadReturnsLastWrite(
    rowNames: seq<string>, columnNames: seq<string>, initial: Option<string>, writes: seq<Write>, row: int, column: int)
    requires WritesInside(Init(rowNames, columnNames, initial), writes)
    requires 0 <= row < |rowNames| && 0 <= column < |columnNames|
    ensures Get(ApplyWrites(Init(rowNames, columnNames, initial), writes), row, column)
            == LastWritten(writes, row, column, initial)
    decreases |writes|
  {
    var g := Init(rowNames, columnNames, initial);
    if writes != [] {
      var front, w := writes[..|writes| - 1], writes[|writes| - 1];
      assert writes == front + [w];
      ApplyWritesSnoc(g, front, w);
      ReadReturnsLastWrite(rowNames, columnNames, initial, front, row, column);
    }
  }

  /** One step of the column generator: its state is the next row index; it stops
      at the first index that is not a row. */
  function ColumnNext(g: Grid, column: int, rowIndex: int): (step: Option<(Option<string>, int)>)
    ensures step.Some? <==> 0 <= rowIndex < |g.rowNames|
    ensures step.Some? ==> step.value.1 == rowIndex + 1
  {
    if Rows(g).Contains(rowIndex) then Some((Get(g, rowIndex, column), rowIndex + 1)) else None
  }

  /** What the generator yields from state `rowIndex` on. */
  function ColumnFrom(g: Grid, column: int, rowIndex: nat): (s: seq<Option<string>>)
    ensures |s| == if rowIndex <= |g.rowNames| then |g.rowNames| - rowIndex else 0
    ensures forall i :: 0 <= i < |s| ==> s[i] == Get(g, rowIndex + i, column)
    decreases |g.rowNames| - rowIndex
  {
    match ColumnNext(g, column, rowIndex)
    case None => []
    case Some((v, next)) => [v] + ColumnFrom(g, column, next)
  }

  /** The values of one column, one per row, in row order. */
  function Column(g: Grid, column: int): (s: seq<Option<string>>)
    ensures |s| == |g.rowNames|
    ensures forall r :: 0 <= r < |s| ==> s[r] == Get(g, r, column)
    ensures !(0 <= column < |g.columnNames|) ==> forall r :: 0 <= r < |s| ==> s[r] == None
  {
    ColumnFrom(g, column, 0)
  }
}
