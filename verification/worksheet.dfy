/** The worksheet the builder fills, as a value: a grid of cells with their
    formatting tags, the merged ranges, row heights, column widths, the
    builder's row cursor and the worksheet's own `max_row` / `max_column`.
    Each function here is one write of core/excel_builder.py. */
module Worksheet {
  import opened Text
  import opened ExcelDocument

  /** A cell's value and formatting: bold, font size, alignment, thin border,
      grey header fill. */
  datatype Cell = Cell(value: string, bold: bool, size: nat, align: Align, bordered: bool, filled: bool)

  /** A merged range, inclusive at both ends. */
  datatype Range = Range(minRow: nat, maxRow: nat, minCol: nat, maxCol: nat)

  datatype Sheet = Sheet(
    cells: map<(nat, nat), Cell>,
    merged: seq<Range>,
    heights: map<nat, real>,
    widths: map<nat, nat>,
    cursor: nat,
    maxRow: nat,
    maxCol: nat)

  /** A new worksheet: no cells, and `current_row`, `max_row`, `max_column`
      all 1. */
  const Blank := Sheet(map[], [], map[], map[], 1, 1, 1)

  /** Every cell, merge and height lies on a row above the cursor and inside
      the worksheet's dimensions. */
  ghost predicate Wellformed(sh: Sheet) {
    && 1 <= sh.cursor && 1 <= sh.maxRow && 1 <= sh.maxCol
    && (forall p | p in sh.cells :: 1 <= p.0 < sh.cursor && p.0 <= sh.maxRow && 1 <= p.1 <= sh.maxCol)
    && (forall k | 0 <= k < |sh.merged| ::
          1 <= sh.merged[k].minRow <= sh.merged[k].maxRow < sh.cursor && sh.merged[k].maxRow <= sh.maxRow
          && 1 <= sh.merged[k].minCol <= sh.merged[k].maxCol <= sh.maxCol)
    && (forall r | r in sh.heights :: r < sh.cursor)
  }

  lemma BlankWellformed()
    ensures Wellformed(Blank)
  {
  }

  // ---------------------------------------------------------------------------
  // Merged text rows (core/excel_builder.py:39-56)
  // ---------------------------------------------------------------------------

  function CharsPerLine(maxCols: int): (n: nat)
    ensures n >= 30
  {
    Max(maxCols * 15, 30)
  }

  /** Python's `//` on a length and a positive width. */
  function FullLines(len: nat, width: nat): nat
    requires width > 0
  {
    len / width
  }

  /** Newlines, plus one line per full `chars_per_line` characters, plus one. */
  function EstimatedLines(text: string, maxCols: int): nat {
    Count('\n', text) + FullLines(|text|, CharsPerLine(maxCols)) + 1
  }

  function MergedHeight(text: string, maxCols: int, size: nat): real {
    EstimatedLines(text, maxCols) as real * (size as real * 1.5)
  }

  /** `write_merged_text`: nothing for an empty text; otherwise the text at
      column 1 of the cursor row, that row merged over `maxCols` columns, its
      height estimated, and the cursor one row down. */
  function PutText(sh: Sheet, text: string, maxCols: nat, bold: bool, size: nat, align: Align): Sheet {
    if text == [] then sh
    else
      var r := sh.cursor;
      sh.(cells := sh.cells[(r, 1) := Cell(text, bold, size, align, false, false)],
          merged := sh.merged + [Range(r, r, 1, maxCols)],
          heights := sh.heights[r := MergedHeight(text, maxCols, size)],
          cursor := r + 1,
          maxRow := Max(sh.maxRow, r),
          maxCol := Max(sh.maxCol, maxCols))
  }

  // ---------------------------------------------------------------------------
  // Header rows (core/excel_builder.py:119-126)
  // ---------------------------------------------------------------------------

  function HeaderCell(h: Header): Cell {
    Cell(h.columnName.GetOr([]), h.isBold.GetOr(true), 11, Center, true, true)
  }

  /** The header cells of `hs` placed at columns 1.. of row `r`. */
  function PlaceHeaders(cells: map<(nat, nat), Cell>, r: nat, hs: seq<Header>): map<(nat, nat), Cell>
    decreases |hs|
  {
    if hs == [] then cells else PlaceHeaders(cells, r, hs[..|hs| - 1])[(r, |hs|) := HeaderCell(hs[|hs| - 1])]
  }

  /** The row a non-empty list of cells reaches. */
  function RowReach(maxRow: nat, r: nat, n: nat): nat {
    if n > 0 then Max(maxRow, r) else maxRow
  }

  /** A header row: the cursor advances even when there are no headers. */
  function PutHeaders(sh: Sheet, hs: seq<Header>): Sheet {
    sh.(cells := PlaceHeaders(sh.cells, sh.cursor, hs),
        cursor := sh.cursor + 1,
        maxRow := RowReach(sh.maxRow, sh.cursor, |hs|),
        maxCol := Max(sh.maxCol, |hs|))
  }

  // ---------------------------------------------------------------------------
  // Data rows (core/excel_builder.py:128-142)
  // ---------------------------------------------------------------------------

  function DataCell(v: string): Cell {
    Cell(v, false, 11, Center, true, false)
  }

  function PlaceValues(cells: map<(nat, nat), Cell>, r: nat, vs: seq<string>): map<(nat, nat), Cell>
    decreases |vs|
  {
    if vs == [] then cells else PlaceValues(cells, r, vs[..|vs| - 1])[(r, |vs|) := DataCell(vs[|vs| - 1])]
  }

  /** The line estimate of one data cell. */
  function CellLines(v: string): nat {
    Count('\n', v) + FullLines(|v|, 30) + 1
  }

  /** `max_lines_in_row`: 1, raised to each cell's estimate. */
  function RowLines(vs: seq<string>): nat
    decreases |vs|
  {
    if vs == [] then 1 else Max(RowLines(vs[..|vs| - 1]), CellLines(vs[|vs| - 1]))
  }

  /** A data row: the values at columns 1.. whatever the header count, the
      height 16 points per estimated line, and the cursor one row down. */
  function PutValues(sh: Sheet, vs: seq<string>): Sheet {
    sh.(cells := PlaceValues(sh.cells, sh.cursor, vs),
        heights := sh.heights[sh.cursor := (16 * RowLines(vs)) as real],
        cursor := sh.cursor + 1,
        maxRow := RowReach(sh.maxRow, sh.cursor, |vs|),
        maxCol := Max(sh.maxCol, |vs|))
  }

  // ---------------------------------------------------------------------------
  // A whole layout
  // ---------------------------------------------------------------------------

  function PutStep(sh: Sheet, s: Step, maxCols: nat): Sheet {
    match s
    case TextRow(text, bold, size, align) => PutText(sh, text, maxCols, bold, size, align)
    case Spacer => sh.(cursor := sh.cursor + 1)
    case HeaderRow(hs) => PutHeaders(sh, hs)
    case DataRow(vs) => PutValues(sh, vs)
  }

  function PutAll(sh: Sheet, steps: seq<Step>, maxCols: nat): Sheet
    decreases |steps|
  {
    if steps == [] then sh else PutStep(PutAll(sh, steps[..|steps| - 1], maxCols), steps[|steps| - 1], maxCols)
  }

  // ---------------------------------------------------------------------------
  // Column widths (core/excel_builder.py:58-86)
  // ---------------------------------------------------------------------------

  /** The cells of row `r` from column `lo` to column `hi`. */
  function RowSpan(r: int, lo: int, hi: int): set<(int, int)>
    decreases hi - lo
  {
    if hi < lo then {} else RowSpan(r, lo, hi - 1) + {(r, hi)}
  }

  /** The cells of range `g` on its rows up to `hi`. */
  function BlockSpan(g: Range, hi: int): set<(int, int)>
    decreases hi - g.minRow
  {
    if hi < g.minRow then {} else BlockSpan(g, hi - 1) + RowSpan(hi, g.minCol, g.maxCol)
  }

  /** `merged_cells_map`: every cell of every merged range. */
  function CoveredCells(ranges: seq<Range>): set<(int, int)>
    decreases |ranges|
  {
    if ranges == [] then {}
    else CoveredCells(ranges[..|ranges| - 1]) + BlockSpan(ranges[|ranges| - 1], ranges[|ranges| - 1].maxRow)
  }

  /** The longest line of a cell value, split at newlines. */
  function LongestLine(v: string): nat {
    LongestOf(Split(v, '\n'))
  }

  function LongestOf(lines: seq<string>): nat
    decreases |lines|
  {
    if lines == [] then 0 else Max(LongestOf(lines[..|lines| - 1]), |lines[|lines| - 1]|)
  }

  /** What cell `(r, c)` adds to its column's width: nothing when it is merged,
      missing or empty. */
  function CellLength(cells: map<(nat, nat), Cell>, covered: set<(int, int)>, r: nat, c: nat): nat {
    if (r, c) in covered || (r, c) !in cells || cells[(r, c)].value == [] then 0
    else LongestLine(cells[(r, c)].value)
  }

  /** `max_length` of column `c` over rows 1 to `n`. */
  function ColumnLongest(cells: map<(nat, nat), Cell>, covered: set<(int, int)>, c: nat, n: nat): nat
    decreases n
  {
    if n == 0 then 0 else Max(ColumnLongest(cells, covered, c, n - 1), CellLength(cells, covered, n, c))
  }

  function Min(a: int, b: int): int {
    if a <= b then a else b
  }

  /** Four characters of padding, at least 12 and at most 45. */
  function ClampWidth(longest: nat): nat {
    Max(12, Min(longest + 4, 45))
  }

  function ColumnWidth(sh: Sheet, c: nat): nat {
    ClampWidth(ColumnLongest(sh.cells, CoveredCells(sh.merged), c, sh.maxRow))
  }

  /** The widths after fitting columns 1 to `n` in turn. */
  function FitColumns(sh: Sheet, n: nat): map<nat, nat>
    decreases n
  {
    if n == 0 then sh.widths else FitColumns(sh, n - 1)[n := ColumnWidth(sh, n)]
  }

  /** `_autofit_columns`: a width for every column up to `max_column`. */
  function Autofit(sh: Sheet): Sheet {
    sh.(widths := FitColumns(sh, sh.maxCol))
  }
}
