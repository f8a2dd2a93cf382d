/**
 The geometry of one collection view: row heights and column widths become
 cumulative offset tables, from which every cell's frame, the content size and
 the set of cells whose origin lies in a rectangle are read. `CGFloat` is
 modelled as `real`.
 */
module GridLayout {

  datatype Point = Point(x: real, y: real)

  datatype Size = Size(width: real, height: real)

  /** `CGRect`; its edges are those of the standardized rectangle, so a negative
      width or height extends it to the left or upwards. */
  datatype Rect = Rect(origin: Point, size: Size) {

    function MinX(): real {
      if size.width < 0.0 then origin.x + size.width else origin.x
    }

    function MaxX(): real {
      if size.width < 0.0 then origin.x else origin.x + size.width
    }

    function MinY(): real {
      if size.height < 0.0 then origin.y + size.height else origin.y
    }

    function MaxY(): real {
      if size.height < 0.0 then origin.y else origin.y + size.height
    }

    /** Half-open containment: the far edges are outside. */
    predicate Contains(p: Point) {
      MinX() <= p.x < MaxX() && MinY() <= p.y < MaxY()
    }
  }

  /** `CGRect.standardized`: the same rectangle with a non-negative width and height.
      A rectangle contains exactly the points its standardized form contains, which
      are those from its origin up to, but not including, its far edges. */
  function Standardize(r: Rect): (s: Rect)
    ensures s.size.width >= 0.0 && s.size.height >= 0.0
    ensures s.MinX() == r.MinX() && s.MaxX() == r.MaxX()
    ensures s.MinY() == r.MinY() && s.MaxY() == r.MaxY()
    ensures forall p: Point :: r.Contains(p) <==> s.Contains(p)
    ensures forall p: Point :: s.Contains(p) <==>
      && s.origin.x <= p.x < s.origin.x + s.size.width
      && s.origin.y <= p.y < s.origin.y + s.size.height
  {
    Rect(Point(r.MinX(), r.MinY()), Size(r.MaxX() - r.MinX(), r.MaxY() - r.MinY()))
  }

  /** `IndexPath`, of which the grid uses the section as row and the item as column. */
  datatype IndexPath = IndexPath(section: int, item: int) {

    function GridRow(): int {
      section
    }

    function GridColumn(): int {
      item
    }
  }

  /** `IndexPath(gridRow:gridColumn:)`. */
  function GridIndexPath(gridRow: int, gridColumn: int): (ip: IndexPath)
    ensures ip.section == gridRow && ip.item == gridColumn
    ensures ip.GridRow() == gridRow && ip.GridColumn() == gridColumn
  {
    IndexPath(item := gridColumn, section := gridRow)
  }

  /** Every index path is the grid index path of its own row and column. */
  lemma GridIndexPathOnto(ip: IndexPath)
    ensures GridIndexPath(ip.GridRow(), ip.GridColumn()) == ip
  {
  }

  /** `p` is the offset table of `sizes`: it starts at 0 and steps by each size in turn. */
  predicate PrefixTable(p: seq<real>, sizes: seq<real>) {
    && |p| == |sizes| + 1
    && p[0] == 0.0
    && forall i :: 0 <= i < |sizes| ==> p[i + 1] - p[i] == sizes[i]
  }

  /** `sizes.reduce(into: acc) { $0.append($0.last! + $1) }`. */
  function Accumulate(acc: seq<real>, sizes: seq<real>): (r: seq<real>)
    requires |acc| > 0
    ensures |r| == |acc| + |sizes|
    ensures r[..|acc|] == acc
    ensures forall i :: 0 <= i < |sizes| ==> r[|acc| + i] == r[|acc| + i - 1] + sizes[i]
    decreases |sizes|
  {
    if sizes == [] then acc
    else
      var acc' := acc + [acc[|acc| - 1] + sizes[0]];
      var r := Accumulate(acc', sizes[1..]);
      assert r[..|acc|] == r[..|acc'|][..|acc|];
      assert r[|acc|] == r[..|acc'|][|acc|];
      r
  }

  /** The offsets of the boundaries between consecutive rows (or columns). */
  function Offsets(sizes: seq<real>): (p: seq<real>)
    ensures PrefixTable(p, sizes)
  {
    Accumulate([0.0], sizes)
  }

  /** The sum of a sequence, taken from the right. */
  function Sum(s: seq<real>): real {
    if s == [] then 0.0 else Sum(s[..|s| - 1]) + s[|s| - 1]
  }

  /** Entry `i` of an offset table is the sum of the first `i` sizes. */
  lemma {:induction false} PrefixTableIsSums(p: seq<real>, sizes: seq<real>, i: int)
    requires PrefixTable(p, sizes)
    requires 0 <= i <= |sizes|
    ensures p[i] == Sum(sizes[..i])
  {
    if i > 0 {
      PrefixTableIsSums(p, sizes, i - 1);
      assert sizes[..i][..i - 1] == sizes[..i - 1];
    }
  }

  /** A size list has exactly one offset table. */
  lemma PrefixTableUnique(p: seq<real>, q: seq<real>, sizes: seq<real>)
    requires PrefixTable(p, sizes) && PrefixTable(q, sizes)
    ensures p == q
  {
    forall i | 0 <= i < |p|
      ensures p[i] == q[i]
    {
      PrefixTableIsSums(p, sizes, i);
      PrefixTableIsSums(q, sizes, i);
    }
  }

  /** With no negative size, the offsets never decrease. */
  lemma {:induction false} PrefixTableMonotone(p: seq<real>, sizes: seq<real>, i: int, j: int)
    requires PrefixTable(p, sizes)
    requires forall k :: 0 <= k < |sizes| ==> sizes[k] >= 0.0
    requires 0 <= i <= j < |p|
    ensures p[i] <= p[j]
    decreases j - i
  {
    if i < j {
      PrefixTableMonotone(p, sizes, i, j - 1);
      assert p[j] - p[j - 1] == sizes[j - 1];
    }
  }

  /** The stored fields of `GridViewLayout`. */
  datatype RawLayout = RawLayout(rowHeights: seq<real>, columnWidths: seq<real>, xPositions: seq<real>, yPositions: seq<real>)

  /** The position tables are always the offset tables of the sizes: they are `let`s
      computed once by the initializer. */
  type Layout = l: RawLayout
    | PrefixTable(l.xPositions, l.columnWidths) && PrefixTable(l.yPositions, l.rowHeights)
    witness RawLayout([], [], [0.0], [0.0])

  /** `GridViewLayout(rowHeights:columnWidths:)`. */
  function MakeLayout(rowHeights: seq<real>, columnWidths: seq<real>): (l: Layout)
    ensures l.rowHeights == rowHeights && l.columnWidths == columnWidths
    ensures forall c :: 0 <= c <= |columnWidths| ==> l.xPositions[c] == Sum(columnWidths[..c])
    ensures forall r :: 0 <= r <= |rowHeights| ==> l.yPositions[r] == Sum(rowHeights[..r])
  {
    var l := RawLayout(rowHeights, columnWidths, Offsets(columnWidths), Offsets(rowHeights));
    assert forall c :: 0 <= c <= |columnWidths| ==> l.xPositions[c] == Sum(columnWidths[..c]) by {
      forall c | 0 <= c <= |columnWidths| {
        PrefixTableIsSums(l.xPositions, columnWidths, c);
      }
    }
    assert forall r :: 0 <= r <= |rowHeights| ==> l.yPositions[r] == Sum(rowHeights[..r]) by {
      forall r | 0 <= r <= |rowHeights| {
        PrefixTableIsSums(l.yPositions, rowHeights, r);
      }
    }
    l
  }

  predicate InGrid(l: Layout, ip: IndexPath) {
    0 <= ip.GridRow() < |l.rowHeights| && 0 <= ip.GridColumn() < |l.columnWidths|
  }

  /** The origin of a cell: the offsets of its column and row. */
  function CellOrigin(l: Layout, ip: IndexPath): Point
    requires InGrid(l, ip)
  {
    Point(l.xPositions[ip.GridColumn()], l.yPositions[ip.GridRow()])
  }

  /** `layoutAttributesForItem(at:)`: the frame of a cell. The tables are indexed
      without a guard, so the index path must lie in the grid. */
  function Frame(l: Layout, ip: IndexPath): (f: Rect)
    requires InGrid(l, ip)
    ensures f.origin == CellOrigin(l, ip)
    ensures f.size == Size(l.columnWidths[ip.GridColumn()], l.rowHeights[ip.GridRow()])
    ensures f.origin.x + f.size.width == l.xPositions[ip.GridColumn() + 1]
    ensures f.origin.y + f.size.height == l.yPositions[ip.GridRow() + 1]
  {
    Rect(CellOrigin(l, ip), Size(l.columnWidths[ip.GridColumn()], l.rowHeights[ip.GridRow()]))
  }

  predicate NonNegative(sizes: seq<real>) {
    forall k :: 0 <= k < |sizes| ==> sizes[k] >= 0.0
  }

  /** With no negative size, no point lies in the frames of two different cells:
      the frames tile the content without overlapping. */
  lemma FramesDisjoint(l: Layout, a: IndexPath, b: IndexPath, p: Point)
    requires NonNegative(l.rowHeights) && NonNegative(l.columnWidths)
    requires InGrid(l, a) && InGrid(l, b)
    requires Frame(l, a).Contains(p) && Frame(l, b).Contains(p)
    ensures a == b
  {
    var ca, cb := a.GridColumn(), b.GridColumn();
    if ca < cb {
      PrefixTableMonotone(l.xPositions, l.columnWidths, ca + 1, cb);
    } else if cb < ca {
      PrefixTableMonotone(l.xPositions, l.columnWidths, cb + 1, ca);
    }
    var ra, rb := a.GridRow(), b.GridRow();
    if ra < rb {
      PrefixTableMonotone(l.yPositions, l.rowHeights, ra + 1, rb);
    } else if rb < ra {
      PrefixTableMonotone(l.yPositions, l.rowHeights, rb + 1, ra);
    }
  }

  /** `collectionViewContentSize`: the last entries of the position tables, that is,
      the total width and the total height. */
  function ContentSize(l: Layout): (s: Size)
    ensures s == Size(Sum(l.columnWidths), Sum(l.rowHeights))
    ensures l.columnWidths == [] && l.rowHeights == [] ==> s == Size(0.0, 0.0)
  {
    PrefixTableIsSums(l.xPositions, l.columnWidths, |l.columnWidths|);
    PrefixTableIsSums(l.yPositions, l.rowHeights, |l.rowHeights|);
    assert l.columnWidths[..|l.columnWidths|] == l.columnWidths;
    assert l.rowHeights[..|l.rowHeights|] == l.rowHeights;
    Size(l.xPositions[|l.xPositions| - 1], l.yPositions[|l.yPositions| - 1])
  }

  /** `UICollectionViewLayoutAttributes`: which cell, and where. */
  datatype Attributes = Attributes(indexPath: IndexPath, frame: Rect)

  /** A cell reported for `rect`: one of the grid whose origin point lies in `rect`. */
  predicate Visible(l: Layout, rect: Rect, ip: IndexPath) {
    InGrid(l, ip) && rect.Contains(CellOrigin(l, ip))
  }

  /** Row-major order: by row, then by column. */
  predicate RowMajorBefore(a: IndexPath, b: IndexPath) {
    a.GridRow() < b.GridRow() || (a.GridRow() == b.GridRow() && a.GridColumn() < b.GridColumn())
  }

  function IndexPaths(attrs: seq<Attributes>): (ips: seq<IndexPath>)
    ensures |ips| == |attrs|
    ensures forall k :: 0 <= k < |attrs| ==> ips[k] == attrs[k].indexPath
  {
    seq(|attrs|, k requires 0 <= k < |attrs| => attrs[k].indexPath)
  }

  /** The inner loop of `layoutAttributesForElements(in:)`: the cells of row `y`
      whose origin lies in `rect`, from left to right. */
  method ElementsInRow(l: Layout, rect: Rect, y: int) returns (attrs: seq<Attributes>)
    requires 0 <= y < |l.rowHeights|
    ensures forall k :: 0 <= k < |attrs| ==>
      && attrs[k].indexPath.GridRow() == y
      && Visible(l, rect, attrs[k].indexPath) && attrs[k].frame == Frame(l, attrs[k].indexPath)
    ensures forall c :: Visible(l, rect, IndexPath(y, c)) ==> IndexPath(y, c) in IndexPaths(attrs)
    ensures forall i, j :: 0 <= i < j < |attrs| ==> attrs[i].indexPath.GridColumn() < attrs[j].indexPath.GridColumn()
  {
    attrs := [];
    var columns := |l.xPositions| - 1;
    var x := 0;
    while x < columns
      invariant 0 <= x <= columns
      invariant forall k :: 0 <= k < |attrs| ==>
        && attrs[k].indexPath.GridRow() == y && attrs[k].indexPath.GridColumn() < x
        && Visible(l, rect, attrs[k].indexPath) && attrs[k].frame == Frame(l, attrs[k].indexPath)
      invariant forall c :: Visible(l, rect, IndexPath(y, c)) && c < x ==> IndexPath(y, c) in IndexPaths(attrs)
      invariant forall i, j :: 0 <= i < j < |attrs| ==> attrs[i].indexPath.GridColumn() < attrs[j].indexPath.GridColumn()
    {
      var testPoint := Point(l.xPositions[x], l.yPositions[y]);
      if rect.Contains(testPoint) {
        var ip := GridIndexPath(y, x);
        var item := Attributes(ip, Frame(l, ip));
        assert IndexPaths(attrs + [item]) == IndexPaths(attrs) + [ip];
        attrs := attrs + [item];
      }
      x := x + 1;
    }
  }

  /** Every attribute is reported for `rect`, with the frame of its cell. */
  predicate AllVisible(l: Layout, rect: Rect, attrs: seq<Attributes>) {
    forall k :: 0 <= k < |attrs| ==>
      Visible(l, rect, attrs[k].indexPath) && attrs[k].frame == Frame(l, attrs[k].indexPath)
  }

  predicate SortedRowMajor(attrs: seq<Attributes>) {
    forall i, j :: 0 <= i < j < |attrs| ==> RowMajorBefore(attrs[i].indexPath, attrs[j].indexPath)
  }

  /** Every cell of a row below `y` that is reported for `rect` is among `attrs`. */
  ghost predicate CoversRowsBelow(l: Layout, rect: Rect, attrs: seq<Attributes>, y: int) {
    forall r, c :: Visible(l, rect, IndexPath(r, c)) && r < y ==> IndexPath(r, c) in IndexPaths(attrs)
  }

  predicate RowsBelow(attrs: seq<Attributes>, y: int) {
    forall k :: 0 <= k < |attrs| ==> attrs[k].indexPath.GridRow() < y
  }

  /** Appending the scan of row `y` to the scan of the rows above it gives the scan
      of the rows up to and including `y`. */
  lemma AppendRow(l: Layout, rect: Rect, attrs: seq<Attributes>, row: seq<Attributes>, y: int)
    requires AllVisible(l, rect, attrs) && RowsBelow(attrs, y)
    requires CoversRowsBelow(l, rect, attrs, y) && SortedRowMajor(attrs)
    requires forall k :: 0 <= k < |row| ==>
      && row[k].indexPath.GridRow() == y
      && Visible(l, rect, row[k].indexPath) && row[k].frame == Frame(l, row[k].indexPath)
    requires forall c :: Visible(l, rect, IndexPath(y, c)) ==> IndexPath(y, c) in IndexPaths(row)
    requires forall i, j :: 0 <= i < j < |row| ==> row[i].indexPath.GridColumn() < row[j].indexPath.GridColumn()
    ensures AllVisible(l, rect, attrs + row) && RowsBelow(attrs + row, y + 1)
    ensures CoversRowsBelow(l, rect, attrs + row, y + 1) && SortedRowMajor(attrs + row)
  {
    var all := attrs + row;
    assert IndexPaths(all) == IndexPaths(attrs) + IndexPaths(row);
    forall k | 0 <= k < |all|
      ensures Visible(l, rect, all[k].indexPath) && all[k].frame == Frame(l, all[k].indexPath)
      ensures all[k].indexPath.GridRow() < y + 1
    {
      if k >= |attrs| {
        assert all[k] == row[k - |attrs|];
      }
    }
    forall i, j | 0 <= i < j < |all|
      ensures RowMajorBefore(all[i].indexPath, all[j].indexPath)
    {
      if j < |attrs| {
      } else if i < |attrs| {
        assert all[j] == row[j - |attrs|];
      } else {
        assert all[i] == row[i - |attrs|] && all[j] == row[j - |attrs|];
      }
    }
    forall r, c | Visible(l, rect, IndexPath(r, c)) && r < y + 1
      ensures IndexPath(r, c) in IndexPaths(all)
    {
      if r < y {
        assert IndexPath(r, c) in IndexPaths(attrs);
      } else {
        assert IndexPath(r, c) in IndexPaths(row);
      }
    }
  }

  /** `layoutAttributesForElements(in:)`: scans rows, and within a row columns,
      reporting each cell whose origin lies in `rect`. */
  method ElementsIn(l: Layout, rect: Rect) returns (attrs: seq<Attributes>)
    ensures forall k :: 0 <= k < |attrs| ==>
      Visible(l, rect, attrs[k].indexPath) && attrs[k].frame == Frame(l, attrs[k].indexPath)
    ensures forall r, c :: Visible(l, rect, IndexPath(r, c)) ==> IndexPath(r, c) in IndexPaths(attrs)
    ensures forall i, j :: 0 <= i < j < |attrs| ==> RowMajorBefore(attrs[i].indexPath, attrs[j].indexPath)
  {
    attrs := [];
    var rows := |l.yPositions| - 1;
    var y := 0;
    while y < rows
      invariant 0 <= y <= rows
      invariant AllVisible(l, rect, attrs) && RowsBelow(attrs, y)
      invariant CoversRowsBelow(l, rect, attrs, y) && SortedRowMajor(attrs)
    {
      var row := ElementsInRow(l, rect, y);
      AppendRow(l, rect, attrs, row, y);
      attrs := attrs + row;
      y := y + 1;
    }
    assert forall r, c :: Visible(l, rect, IndexPath(r, c)) ==> r < y;
  }
}
