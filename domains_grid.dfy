/** The layout arithmetic of the virtualised domain grid
    (src/components/custom/DomainsGrid.tsx): how many columns fit a width,
    how wide each is, how many rows and how tall the grid is, and which
    domain each cell shows. Widths and heights are whole pixels. */
module DomainsGrid {
  import opened Wrappers
  import opened JsMath

  const CardHeight := 192
  const CardGap := 20
  const MinCardWidth := 280

  /** The width used for the layout: a width not measured yet (0) counts as
      1000 pixels. */
  function LayoutWidth(containerWidth: int): (w: int)
    ensures containerWidth != 0 ==> w == containerWidth
    ensures containerWidth == 0 ==> w == 1000
  {
    if containerWidth == 0 then 1000 else containerWidth
  }

  /** `getGridDimensions`: as many columns as whole 300-pixel slots (card
      plus gap) fit, but at least one; the width left after the gaps on
      both sides of every column is shared out evenly, rounded down. */
  function GridDimensions(width: int): (d: (int, int))
    ensures d.0 >= 1
    ensures width < 2 * (MinCardWidth + CardGap) ==> d.0 == 1
    ensures width >= MinCardWidth + CardGap ==>
      d.0 * (MinCardWidth + CardGap) <= width < (d.0 + 1) * (MinCardWidth + CardGap)
    ensures d.1 * d.0 <= width - CardGap * (d.0 + 1) < d.1 * d.0 + d.0
  {
    var columnCount := Max(1, FloorDiv(width, MinCardWidth + CardGap));
    (columnCount, FloorDiv(width - CardGap * (columnCount + 1), columnCount))
  }

  /** While the width is unmeasured (0) the dimensions fall back to a
      1000-pixel width: 3 columns of 306 pixels. The grid is not rendered
      until a width is measured. */
  lemma UnmeasuredLayout()
    ensures GridDimensions(LayoutWidth(0)) == (3, 306)
  {
  }

  /** The columns fit: their widths plus all the gaps never exceed the width. */
  lemma ColumnsFit(width: int)
    ensures var (c, w) := GridDimensions(width);
      c * w + CardGap * (c + 1) <= width
  {
  }

  /** Whenever two or more columns are laid out, each is at least 270
      pixels wide: the extra gap costs each of the c columns 20/c pixels,
      at most 10, of the 280 minimum (`NarrowColumns` attains 270). */
  lemma ColumnWidthBounds(width: int)
    requires width >= 2 * (MinCardWidth + CardGap)
    ensures var (c, w) := GridDimensions(width);
      c >= 2 && w >= MinCardWidth - CardGap / 2
  {
    var (c, w) := GridDimensions(width);
    assert c * 300 <= width;
    assert (w + 1) * c > width - 20 * (c + 1) >= 280 * c - 20;
    if w < 270 {
      MulMonotone(w + 1, 270, c);
    }
  }

  /** At exactly two slots' width the cards are 270 pixels wide, under the
      280-pixel minimum. */
  lemma NarrowColumns()
    ensures GridDimensions(600) == (2, 270)
  {
  }

  /** `Math.ceil(domains.length / columnCount)`: enough rows for every
      domain and no empty last row. */
  function RowCount(n: nat, columnCount: int): (rows: nat)
    requires columnCount >= 1
    ensures rows * columnCount >= n
    ensures n > 0 ==> (rows - 1) * columnCount < n
    ensures n == 0 ==> rows == 0
  {
    CeilDiv(n, columnCount)
  }

  /** The height of the grid: the rows' height, capped by the space left in
      the viewport (the window height less 400 pixels, or 600 pixels when
      there is no window). */
  function GridHeight(windowHeight: Option<int>, rowCount: nat): (h: int)
    ensures h <= rowCount * (CardHeight + CardGap)
    ensures windowHeight.Some? ==> h <= windowHeight.value - 400
    ensures windowHeight.None? ==> h <= 600
    ensures h == rowCount * (CardHeight + CardGap) || h == (if windowHeight.Some? then windowHeight.value - 400 else 600)
  {
    Min(if windowHeight.Some? then windowHeight.value - 400 else 600, rowCount * (CardHeight + CardGap))
  }

  /** The domain a cell renders: index `row * columnCount + column`, or
      nothing past the end of the list. */
  function CellDomain(row: nat, column: nat, columnCount: int, n: nat): (r: Option<nat>)
    requires columnCount >= 1
    ensures r.Some? <==> row * columnCount + column < n
    ensures r.Some? ==> r.value == row * columnCount + column
  {
    var index := row * columnCount + column;
    if index >= n then None else Some(index)
  }

  /** Every domain is shown by a cell of the grid: row i / c, column i % c. */
  lemma EveryDomainShown(i: nat, columnCount: int, n: nat)
    requires columnCount >= 1 && i < n
    ensures var row, column := FloorDiv(i, columnCount), i - FloorDiv(i, columnCount) * columnCount;
      && 0 <= column < columnCount
      && 0 <= row < RowCount(n, columnCount)
      && CellDomain(row, column, columnCount, n) == Some(i)
  {
    var c := columnCount;
    var row := FloorDiv(i, c);
    var rows := RowCount(n, c);
    if row >= rows {
      MulMonotone(rows, row, c);
    }
  }

  /** No two in-range cells show the same domain. */
  lemma CellsShowDistinctDomains(r1: nat, c1: nat, r2: nat, c2: nat, columnCount: int, n: nat)
    requires columnCount >= 1 && c1 < columnCount && c2 < columnCount
    requires CellDomain(r1, c1, columnCount, n).Some?
    requires CellDomain(r1, c1, columnCount, n) == CellDomain(r2, c2, columnCount, n)
    ensures r1 == r2 && c1 == c2
  {
    if r1 < r2 {
      MulMonotone(r1 + 1, r2, columnCount);
    } else if r2 < r1 {
      MulMonotone(r2 + 1, r1, columnCount);
    }
  }
}
