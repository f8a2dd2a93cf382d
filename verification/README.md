# DataGridView, modelled in Dafny

A model of the core of DataGridView, a table widget that shows a grid of
optional strings as three panes: a row header, a column header and a scrolling
content pane, kept aligned as the user scrolls any of them. The model covers:

- `DataGrid` (module `DataGrid`, `data_grid.dfy`): named rows and columns over a
  rectangular `[[String?]]` matrix; the bounds-checked read, the unguarded
  write, the membership test and the lazy column sequence.
- `GridViewLayout` (module `GridLayout`, `grid_layout.dfy`): the prefix-sum
  position tables, a cell's frame, the content size, and the query for the
  cells whose origin point lies in a rectangle; also `IndexPath`'s grid
  row/column mapping and `CGRect`'s half-open `contains`.
- The sizing arithmetic of `RFGridView.init` (module `GridSizing`,
  `grid_sizing.dfy`): rows 50 high, each column as wide as its widest measured
  value plus 10 of padding (0 without rows), and the row header as wide as the
  widest measured COLUMN name plus padding.
- The rest of `RFGridView` (module `GridView`, `grid_view.dfy`): which layout
  each pane is built with, the data-source counts, the text of a cell, and the
  scroll handler `scrollViewDidScroll` as a transition on three offsets.

`CGFloat` is modelled as `real`, so sums are exact. Text measurement
(`NSAttributedString.boundingRect` in the view's font) is the parameter
`measure: string -> real`; the away-from-zero rounding the view applies to its
result is modelled explicitly (`GridSizing.RoundAwayFromZero`). The grid's
shape invariant and the layout's table invariant are subset types
(`DataGrid.Grid`, `GridLayout.Layout`), because both are established once by an
initializer and the fields involved cannot be changed from outside.

The model follows the code exactly in these places, where a tidier design might differ:
- Reading a frame (`layoutAttributesForItem`), writing a cell, and reading a
  header's name in `cellForItemAt` index arrays without a guard, so each carries
  a precondition instead of an out-of-range error (`GridLayout.Frame`,
  `DataGrid.Set`, `GridView.HasText`).
- The grid's initializer builds its matrix from the name lists, so there is no
  inconsistent-shape error to raise.
- Scroll offsets are never clamped by the handler; it copies coordinates only.
- The switches on the identity of the collection view become the enumeration
  `GridView.Pane`, which has no fourth case. So both kinds of default disappear:
  the data source's fatal `default` and the scroll handler's `default: break`.

## Model

| member | source | states |
|---|---|---|
| DataGrid.Rows | Sources/DataGridView/DataGrid.swift:33-35 | the row range starts at 0, has one index per row name, and contains exactly the indices `0 <= r < rowCount` |
| DataGrid.Columns | Sources/DataGridView/DataGrid.swift:29-31 | the column range starts at 0, has one index per column name, and contains exactly `0 <= c < columnCount` |
| DataGrid.Init | Sources/DataGridView/DataGrid.swift:37-45 | the new grid keeps both name lists, is rectangular (by its type) and every in-range read returns the fill value |
| DataGrid.InitEmpty | Sources/DataGridView/DataGrid.swift:37-45 | with the default fill value `nil`, every read of the new grid, in range or not, returns `None` |
| DataGrid.Contains | Sources/DataGridView/DataGrid.swift:47-49 | a cell is contained exactly when `0 <= row < rowCount` and `0 <= column < columnCount` |
| DataGrid.Get | Sources/DataGridView/DataGrid.swift:51-57 | a read outside the grid returns `None` and has no precondition, so it never fails |
| DataGrid.Set | Sources/DataGridView/DataGrid.swift:58-60 | a write needs an in-range cell; afterwards that cell reads back the written value, every other cell reads as before, the name lists are unchanged and the grid is still rectangular |
| DataGrid.SetSet | Sources/DataGridView/DataGrid.swift:58-60 | writing a cell twice equals writing only the second value |
| DataGrid.SetGet | Sources/DataGridView/DataGrid.swift:51-60 | writing back the value just read leaves the grid unchanged |
| DataGrid.SetCommutes | Sources/DataGridView/DataGrid.swift:58-60 | writes to two different cells commute |
| DataGrid.ApplyWrites | Sources/DataGridView/DataGrid.swift:58-60 | a sequence of in-range writes keeps both name lists |
| DataGrid.ReadReturnsLastWrite | Sources/DataGridView/DataGrid.swift:37-60 | after any sequence of in-range writes on a fresh grid, each in-range read returns the last value written to that cell, or the fill value if none was |
| DataGrid.ColumnNext | Sources/DataGridView/DataGrid.swift:65-73 | the generator yields exactly while its state is a row index, and each step advances the state by one |
| DataGrid.ColumnFrom | Sources/DataGridView/DataGrid.swift:63-75 | from state `k` the generator yields `rowCount - k` values, the i-th being the read of row `k + i` |
| DataGrid.Column | Sources/DataGridView/DataGrid.swift:63-75 | a column has one value per row, value `r` is the read of `(r, column)`, and every value is `None` for an out-of-range column |
| GridLayout.GridIndexPath | Sources/DataGridView/DataGridView.swift:104-110 | the grid row is stored as the section and the grid column as the item, and both read back unchanged |
| GridLayout.GridIndexPathOnto | Sources/DataGridView/DataGridView.swift:104-110 | every index path is the grid index path of its own row and column, so the mapping is a bijection |
| GridLayout.Accumulate | Sources/DataGridView/DataGridView.swift:36-41 | the reduce keeps its seed as a prefix, appends one entry per size, and each appended entry is the previous entry plus that size |
| GridLayout.Offsets | Sources/DataGridView/DataGridView.swift:36-41 | the table has one more entry than there are sizes, starts at 0, and consecutive entries differ by the corresponding size |
| GridLayout.PrefixTableIsSums | Sources/DataGridView/DataGridView.swift:36-41 | entry `i` of an offset table is the sum of the first `i` sizes |
| GridLayout.PrefixTableUnique | Sources/DataGridView/DataGridView.swift:36-41 | a list of sizes has exactly one offset table |
| GridLayout.PrefixTableMonotone | Sources/DataGridView/DataGridView.swift:36-41 | with no negative size, the offsets never decrease |
| GridLayout.MakeLayout | Sources/DataGridView/DataGridView.swift:32-43 | the layout keeps the sizes, and each x (y) position is the sum of the widths (heights) before it |
| GridLayout.Standardize | Sources/DataGridView/DataGridView.swift:54 | the standardized rectangle has a non-negative size and the same edges, and `CGRect.contains` holds for a point exactly when it lies from the standardized origin up to, but not including, the far edges |
| GridLayout.Frame | Sources/DataGridView/DataGridView.swift:63-70 | a cell's frame starts at its column's and row's offsets, has its column's width and row's height, and so ends at the next column's and next row's offsets |
| GridLayout.FramesDisjoint | Sources/DataGridView/DataGridView.swift:63-70 | with no negative size, no point lies in the frames of two different cells |
| GridLayout.ContentSize | Sources/DataGridView/DataGridView.swift:72-74 | the content size is (sum of the widths, sum of the heights), and (0, 0) for empty size lists |
| GridLayout.ElementsInRow | Sources/DataGridView/DataGridView.swift:52-58 | the scan of one row reports, with their frames, exactly that row's cells whose origin point lies in the rectangle, in strictly increasing column order |
| GridLayout.ElementsIn | Sources/DataGridView/DataGridView.swift:49-61 | the result holds, with its frame, exactly the cells whose origin point lies in the rectangle (half-open test), in strictly increasing row-major order, hence without duplicates |
| GridSizing.RoundAwayFromZero | Sources/DataGridView/DataGridView.swift:162 | the result is an integer, the nearest one at or beyond `x` in the direction away from zero |
| GridSizing.MaxOrZero | Sources/DataGridView/DataGridView.swift:164 | the result is 0 for no values, otherwise one of the values and at least every value |
| GridSizing.ValueWidths | Sources/DataGridView/DataGridView.swift:153-163 | one width per row: the rounded measure of the value, or of the placeholder when absent, plus padding |
| GridSizing.ColumnWidth | Sources/DataGridView/DataGridView.swift:153-165 | a column's width is 0 without rows, otherwise the width asked for by one of its values and at least the width asked for by each |
| GridSizing.NameWidths | Sources/DataGridView/DataGridView.swift:166-173 | one width per name: its rounded measure plus padding |
| GridSizing.RowHeaderWidth | Sources/DataGridView/DataGridView.swift:166-174 | the row-header width is 0 without columns, otherwise the width asked for by one column name and at least the width asked for by each |
| GridSizing.RowHeights | Sources/DataGridView/DataGridView.swift:148-152 | there is one row height per row and each is 50 |
| GridSizing.ColumnWidths | Sources/DataGridView/DataGridView.swift:153-165 | there is one width per column, each that column's `ColumnWidth` |
| GridSizing.ComputeSizing | Sources/DataGridView/DataGridView.swift:145-174 | the sizing has one height of 50 per row, a column-header height of 50, one width per column as above, and the row-header width taken over the column names |
| GridSizing.ColumnAtLeastPadding | Sources/DataGridView/DataGridView.swift:150-165 | with a measurement that is never negative, a column is never narrower than 0 and, when the grid has rows, at least as wide as the padding |
| GridSizing.SizesNonNegative | Sources/DataGridView/DataGridView.swift:148-174 | with a measurement that is never negative, every row height, column width and the row-header width are non-negative |
| GridView.MakeView | Sources/DataGridView/DataGridView.swift:145-174 | the view keeps the grid and the placeholder it was given; it has one row height of 50 per row and a column-header height of 50; column `c` is `ColumnWidth` wide (the widest padded value of that column); the row header is `RowHeaderWidth` wide (the widest padded column name) |
| GridView.MakeViewShaped | Sources/DataGridView/DataGridView.swift:145-174 | every view the initializer builds has one row height per row and one column width per column |
| GridView.PaneOffsetsMonotone | Sources/DataGridView/DataGridView.swift:176-198 | when no size of the view is negative (which `SizesNonNegative` guarantees for a measurement that is never negative), the x and y positions of every pane's layout never decrease |
| GridView.PaneLayout | Sources/DataGridView/DataGridView.swift:176-198 | the row header shares the content's row heights and has one column of the row-header width; the column header shares the content's column widths and has one row of the column-header height |
| GridView.NumberOfSections | Sources/DataGridView/DataGridView.swift:227-236 | the content and row-header panes have one section per row, the column header one section |
| GridView.NumberOfItems | Sources/DataGridView/DataGridView.swift:238-247 | the content and column-header panes have one item per column in every section, the row header one item |
| GridView.CountsMatchLayouts | Sources/DataGridView/DataGridView.swift:227-247 | for a view sized to its grid's shape, in every pane the announced sections and items are exactly the rows and columns of the pane's layout, so every announced index path has a frame and no other does |
| GridView.CellText | Sources/DataGridView/DataGridView.swift:249-262 | header cells show the row or column name (which must exist); a content cell shows the value stored at its row and column when there is one, and the placeholder when the value is absent |
| GridView.ContentTextFits | Sources/DataGridView/DataGridView.swift:153-165 | the padded, rounded measure of every content cell's text is at most the width of that cell's frame |
| GridSizing.RowHeaderNarrowerThan | Sources/DataGridView/DataGridView.swift:166-174 | when every column name asks for less than some positive width, the row header is narrower than that width |
| GridView.RowNameCanOverflowRowHeader | Sources/DataGridView/DataGridView.swift:166-180 | in a view whose row-header width is taken over the column names, a row name that asks for more width than every column name is shown in a row-header frame narrower than its text needs |
| GridView.DidScroll | Sources/DataGridView/DataGridView.swift:276-291 | scrolling the content sets the row header's y and the column header's x to the content's; scrolling the column header sets only the content's x; scrolling the row header sets only the content's y; nothing else changes |
| GridView.UserScroll | Sources/DataGridView/DataGridView.swift:276-291 | after the user scrolls a pane and the handler runs, that pane is at the offset the user chose |
| GridView.ContentScrollSyncs | Sources/DataGridView/DataGridView.swift:276-291 | after the content is scrolled, the panes are aligned whatever they showed before |
| GridView.UserScrollPreservesSync | Sources/DataGridView/DataGridView.swift:276-291 | aligned panes stay aligned whichever pane is scrolled |
| GridView.SyncedIffQuiescent | Sources/DataGridView/DataGridView.swift:276-291 | the panes are aligned exactly when the handler changes nothing for every pane, so from aligned panes every notification is a no-op |
| GridView.HeaderHandlerQuiet | Sources/DataGridView/DataGridView.swift:276-291 | the row header's handler changes nothing exactly when the row header's y equals the content's, and the column header's handler exactly when the x coordinates agree |
| GridView.ContentHandlerWritesAreQuiet | Sources/DataGridView/DataGridView.swift:276-282 | the content handler's two header writes each raise a header handler that changes nothing, from any state, and together they give the handler's result |
| GridView.HeaderHandlerWriteIsQuiet | Sources/DataGridView/DataGridView.swift:283-290 | a header handler's write to the content raises a content handler that changes nothing whenever the other header was already aligned with the content |
| GridView.PanesLineUp | Sources/DataGridView/DataGridView.swift:176-198 | with aligned panes, row `r` lies at the same offset from the visible top of the row header as of the content, and column `c` at the same offset from the visible left edge of the column header as of the content |

## Left out

- UIKit view plumbing (`RFGridCell`, the subview frames of `layoutSubviews`, building and registering the collection views, colours and borders, the `UIViewRepresentable` wrapper): they compute nothing the model states.
- Text measurement: `NSAttributedString.boundingRect` is a call into the platform; it is the parameter `measure`, and the font is folded into it.
- Floating point: `CGFloat` is modelled as exact `real`; rounding of sums is not modelled.
- Cell dequeueing and label styling in `cellForItemAt`: only the text put in the label is modelled (`GridView.CellText`).
- UIKit's own scroll behaviour: clamping of offsets, and the delivery of the re-entrant `scrollViewDidScroll` calls the handler's writes raise. Each user scroll is modelled as one handler call. The re-entrant calls are covered per write: after a content scroll, each header handler runs at a state where it changes nothing, whatever the previous state (`GridView.ContentHandlerWritesAreQuiet`); after a header scroll, the content handler changes nothing when the other header was already aligned (`GridView.HeaderHandlerWriteIsQuiet`). From unaligned panes a header scroll is not quiet: the content handler then moves the other header.
- `DataGrid.test`: it fills the grid with random numbers.
- Laziness of `column(at:)`: the source's sequence is produced on demand, but `DataGrid` is a struct and the generator's closure captures a copy of it, so the sequence always reads the grid as it was when `column(at:)` was called. Computing it eagerly from that grid value (`DataGrid.Column`) gives the same values; only the on-demand evaluation is left out.
- Default arguments: the grid initializer's `repeating value: String? = nil` becomes the separate function `DataGrid.InitEmpty`. The view initializer's defaults (DataGridView.swift:145), `missing: String = "NA"` and `font: UIFont = .boldSystemFont(ofSize: 17)`, are not modelled: `GridView.MakeView` always takes the placeholder as an argument, and the font only affects text measurement, which is the parameter `measure`.
