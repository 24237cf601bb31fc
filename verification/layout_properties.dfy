/** What the spreadsheet builder (core/excel_builder.py) guarantees about the
    worksheet it fills: row heights, column widths, the cells merged ranges
    hide, and the footer shapes it accepts. */
module LayoutProperties {
  import opened Wrappers
  import opened Text
  import opened ExcelDocument
  import opened Worksheet
  import opened ExcelBuilder

  // ---------------------------------------------------------------------------
  // Row heights
  // ---------------------------------------------------------------------------

  /** A merged row is at least one line of 1.5 times the font size high, and
      a short single-line text gets exactly one line. */
  lemma MergedHeightAtLeastOneLine(text: string, maxCols: int, size: nat)
    ensures MergedHeight(text, maxCols, size) >= size as real * 1.5
    ensures '\n' !in text && |text| < CharsPerLine(maxCols) ==> MergedHeight(text, maxCols, size) == size as real * 1.5
  {
    var n := EstimatedLines(text, maxCols);
    AtLeastOneLine(n, size as real * 1.5);
    if '\n' !in text && |text| < CharsPerLine(maxCols) {
      CountAbsent('\n', text);
      NoFullLine(|text|, CharsPerLine(maxCols));
      assert n == 1;
    }
  }

  lemma AtLeastOneLine(n: nat, line: real)
    requires n >= 1 && line >= 0.0
    ensures n as real * line >= line
    ensures n == 1 ==> n as real * line == line
  {
  }

  lemma NoFullLine(len: nat, width: nat)
    requires len < width
    ensures FullLines(len, width) == 0
  {
  }

  /** `max_lines_in_row` is at least 1, at least each cell's estimate, and is
      1 or the estimate of one of the cells. */
  lemma {:induction false} RowLinesIsMaximum(vs: seq<string>)
    ensures RowLines(vs) >= 1
    ensures forall j | 0 <= j < |vs| :: CellLines(vs[j]) <= RowLines(vs)
    ensures RowLines(vs) == 1 || exists j | 0 <= j < |vs| :: CellLines(vs[j]) == RowLines(vs)
    decreases |vs|
  {
    if vs != [] {
      var init := vs[..|vs| - 1];
      RowLinesIsMaximum(init);
      forall j | 0 <= j < |vs| ensures CellLines(vs[j]) <= RowLines(vs) {
        if j < |init| {
          assert vs[j] == init[j];
        }
      }
      if RowLines(vs) != 1 && RowLines(vs) == RowLines(init) {
        var j :| 0 <= j < |init| && CellLines(init[j]) == RowLines(init);
        assert vs[j] == init[j];
      }
    }
  }

  /** A data row is at least 16 points high, and 16 points for each line of
      its tallest cell. */
  lemma DataRowHeight(sh: Sheet, vs: seq<string>)
    ensures PutValues(sh, vs).heights[sh.cursor] >= 16.0
    ensures forall j | 0 <= j < |vs| :: PutValues(sh, vs).heights[sh.cursor] >= (16 * CellLines(vs[j])) as real
  {
    RowLinesIsMaximum(vs);
  }

  // ---------------------------------------------------------------------------
  // Column widths
  // ---------------------------------------------------------------------------

  /** The width is between 12 and 45, and is the longest line plus 4 in
      between. */
  lemma ClampWidthBounds(longest: nat)
    ensures 12 <= ClampWidth(longest) <= 45
    ensures 8 <= longest <= 41 ==> ClampWidth(longest) == longest + 4
    ensures longest < 8 ==> ClampWidth(longest) == 12
    ensures longest > 41 ==> ClampWidth(longest) == 45
  {
  }

  /** Fitting columns 1 to `n` sets exactly those widths. */
  lemma {:induction false} FitColumnsSets(sh: Sheet, n: nat)
    ensures forall c | 1 <= c <= n :: c in FitColumns(sh, n) && FitColumns(sh, n)[c] == ColumnWidth(sh, c)
    ensures forall c | c in sh.widths && !(1 <= c <= n) :: c in FitColumns(sh, n) && FitColumns(sh, n)[c] == sh.widths[c]
    ensures forall c | c in FitColumns(sh, n) :: c in sh.widths || 1 <= c <= n
    decreases n
  {
    if n > 0 {
      FitColumnsSets(sh, n - 1);
    }
  }

  /** After autofit every column up to `max_column` has a width between 12
      and 45 and the widths of other columns are kept. */
  lemma AutofitWidths(sh: Sheet)
    ensures forall c | 1 <= c <= sh.maxCol :: c in Autofit(sh).widths && 12 <= Autofit(sh).widths[c] <= 45
    ensures forall c | 1 <= c <= sh.maxCol :: Autofit(sh).widths[c] == ColumnWidth(sh, c)
    ensures forall c | c in sh.widths && !(1 <= c <= sh.maxCol) :: c in Autofit(sh).widths && Autofit(sh).widths[c] == sh.widths[c]
  {
    FitColumnsSets(sh, sh.maxCol);
    forall c | 1 <= c <= sh.maxCol ensures 12 <= ColumnWidth(sh, c) <= 45 {
      ClampWidthBounds(ColumnLongest(sh.cells, CoveredCells(sh.merged), c, sh.maxRow));
    }
  }

  /** A column's longest line is at least the longest line of each of its
      non-empty cells outside the merged ranges, and is 0 or one of them. */
  lemma {:induction false} ColumnLongestIsMaximum(cells: map<(nat, nat), Cell>, covered: set<(int, int)>, c: nat, n: nat)
    ensures forall r | 1 <= r <= n :: CellLength(cells, covered, r, c) <= ColumnLongest(cells, covered, c, n)
    ensures ColumnLongest(cells, covered, c, n) == 0
         || exists r | 1 <= r <= n :: CellLength(cells, covered, r, c) == ColumnLongest(cells, covered, c, n)
    decreases n
  {
    if n > 0 {
      ColumnLongestIsMaximum(cells, covered, c, n - 1);
    }
  }

  /** What a merged cell holds never changes a column's width. */
  lemma {:induction false} MergedCellsIgnored(cells: map<(nat, nat), Cell>, cells': map<(nat, nat), Cell>,
                                             covered: set<(int, int)>, c: nat, n: nat)
    requires forall r: nat | 1 <= r <= n && (r, c) !in covered ::
      ((r, c) in cells <==> (r, c) in cells') && ((r, c) in cells ==> cells[(r, c)] == cells'[(r, c)])
    ensures ColumnLongest(cells, covered, c, n) == ColumnLongest(cells', covered, c, n)
    decreases n
  {
    if n > 0 {
      MergedCellsIgnored(cells, cells', covered, c, n - 1);
      assert CellLength(cells, covered, n, c) == CellLength(cells', covered, n, c);
    }
  }

  predicate InRange(g: Range, r: int, c: int) {
    g.minRow <= r <= g.maxRow && g.minCol <= c <= g.maxCol
  }

  lemma {:induction false} RowSpanHas(r: int, lo: int, hi: int, r': int, c: int)
    ensures (r', c) in RowSpan(r, lo, hi) <==> r' == r && lo <= c <= hi
    decreases hi - lo
  {
    if hi >= lo {
      RowSpanHas(r, lo, hi - 1, r', c);
    }
  }

  lemma {:induction false} BlockSpanHas(g: Range, hi: int, r: int, c: int)
    ensures (r, c) in BlockSpan(g, hi) <==> g.minRow <= r <= hi && g.minCol <= c <= g.maxCol
    decreases hi - g.minRow
  {
    if hi >= g.minRow {
      BlockSpanHas(g, hi - 1, r, c);
      RowSpanHas(hi, g.minCol, g.maxCol, r, c);
    }
  }

  /** `merged_cells_map` holds exactly the cells of the merged ranges. */
  lemma {:induction false} CoveredCellsAreMerged(ranges: seq<Range>, r: int, c: int)
    ensures (r, c) in CoveredCells(ranges) <==> exists k | 0 <= k < |ranges| :: InRange(ranges[k], r, c)
    decreases |ranges|
  {
    if ranges != [] {
      var init := ranges[..|ranges| - 1];
      var last := ranges[|ranges| - 1];
      CoveredCellsAreMerged(init, r, c);
      BlockSpanHas(last, last.maxRow, r, c);
      if (r, c) in CoveredCells(init) {
        var k :| 0 <= k < |init| && InRange(init[k], r, c);
        assert ranges[k] == init[k];
      }
      if k :| 0 <= k < |ranges| && InRange(ranges[k], r, c) {
        if k < |init| {
          assert ranges[k] == init[k];
        }
      }
    }
  }

  // ---------------------------------------------------------------------------
  // Lines of a cell
  // ---------------------------------------------------------------------------

  /** The longest line is as long as one of the lines, and no line is
      longer. */
  lemma {:induction false} LongestOfIsMaximum(lines: seq<string>)
    ensures forall j | 0 <= j < |lines| :: |lines[j]| <= LongestOf(lines)
    ensures lines != [] ==> exists j | 0 <= j < |lines| :: |lines[j]| == LongestOf(lines)
    decreases |lines|
  {
    if lines != [] {
      var init := lines[..|lines| - 1];
      LongestOfIsMaximum(init);
      forall j | 0 <= j < |lines| ensures |lines[j]| <= LongestOf(lines) {
        if j < |init| {
          assert lines[j] == init[j];
        }
      }
      if init != [] && LongestOf(lines) == LongestOf(init) {
        var j :| 0 <= j < |init| && |init[j]| == LongestOf(init);
        assert lines[j] == init[j];
      }
    }
  }

  /** A value without newlines is one line: its width is its length. */
  lemma SingleLineWidth(v: string)
    requires '\n' !in v
    ensures LongestLine(v) == |v|
  {
    SplitWithoutSeparator(v, '\n');
    assert Split(v, '\n') == [v];
    assert [v][..0] == [];
  }

  // ---------------------------------------------------------------------------
  // Footer shapes
  // ---------------------------------------------------------------------------

  /** A footer list becomes one not-bold size-11 row whose lines are the list
      items; a bare string becomes a not-bold size-11 row of that string. */
  lemma FooterListAndString(d: Document)
    ensures d.footer.Some? && d.footer.value.FooterList? ==>
      && FooterRow(d) == TextRow(Join("\n", d.footer.value.items), false, 11, Left)
      && ((d.footer.value.items != [] && (forall j | 0 <= j < |d.footer.value.items| :: '\n' !in d.footer.value.items[j]))
          ==> Split(FooterRow(d).text, '\n') == d.footer.value.items)
    ensures d.footer.Some? && d.footer.value.FooterText? ==> FooterRow(d) == TextRow(d.footer.value.text, false, 11, Left)
  {
    if d.footer.Some? && d.footer.value.FooterList? {
      var items := d.footer.value.items;
      if items != [] && (forall j | 0 <= j < |items| :: '\n' !in items[j]) {
        SplitJoin(items, '\n');
      }
    }
  }

  /** A footer object keeps its own fields, not bold and size 11 by default;
      a missing footer or `{}` occupies no row. */
  lemma FooterObjectDefaults(d: Document)
    ensures d.footer.Some? && d.footer.value.FooterObject? ==>
      var b := d.footer.value.block;
      FooterRow(d) == TextRow(b.text.GetOr([]), b.isBold.GetOr(false), b.fontSize.GetOr(11), Left)
    ensures d.footer.None? || d.footer == Some(FooterObject(TextBlock(None, None, None))) ==> RowsOf(FooterRow(d)) == 0
  {
  }

  // ---------------------------------------------------------------------------
  // Where each step lands
  // ---------------------------------------------------------------------------

  /** The rows a list of steps occupies. */
  function Rows(steps: seq<Step>): nat
    decreases |steps|
  {
    if steps == [] then 0 else Rows(steps[..|steps| - 1]) + RowsOf(steps[|steps| - 1])
  }

  lemma {:induction false} RowsAppend(a: seq<Step>, b: seq<Step>)
    ensures Rows(a + b) == Rows(a) + Rows(b)
    decreases |b|
  {
    if b == [] {
      assert a + b == a;
    } else {
      RowsAppend(a, b[..|b| - 1]);
      assert (a + b)[..|a + b| - 1] == a + b[..|b| - 1];
    }
  }

  /** The cell a step writes at column `c` of its row, if any. */
  function StepCell(s: Step, c: nat): Option<Cell> {
    match s
    case TextRow(text, bold, size, align) =>
      if text != [] && c == 1 then Some(Cell(text, bold, size, align, false, false)) else None
    case Spacer => None
    case HeaderRow(hs) => if 1 <= c <= |hs| then Some(HeaderCell(hs[c - 1])) else None
    case DataRow(vs) => if 1 <= c <= |vs| then Some(DataCell(vs[c - 1])) else None
  }

  /** The height a step gives its row, if any: headers and spacers keep the
      default height. */
  function StepHeight(s: Step, maxCols: nat): Option<real> {
    match s
    case TextRow(text, _, size, _) => if text != [] then Some(MergedHeight(text, maxCols, size)) else None
    case Spacer => None
    case HeaderRow(_) => None
    case DataRow(vs) => Some((16 * RowLines(vs)) as real)
  }

  lemma {:induction false} PlaceHeadersAt(cells: map<(nat, nat), Cell>, r: nat, hs: seq<Header>, p: (nat, nat))
    ensures p in PlaceHeaders(cells, r, hs) <==> p in cells || (p.0 == r && 1 <= p.1 <= |hs|)
    ensures p.0 == r && 1 <= p.1 <= |hs| ==> PlaceHeaders(cells, r, hs)[p] == HeaderCell(hs[p.1 - 1])
    ensures !(p.0 == r && 1 <= p.1 <= |hs|) && p in cells ==> PlaceHeaders(cells, r, hs)[p] == cells[p]
    decreases |hs|
  {
    if hs != [] {
      var init := hs[..|hs| - 1];
      PlaceHeadersAt(cells, r, init, p);
      if p.0 == r && 1 <= p.1 < |hs| {
        assert hs[p.1 - 1] == init[p.1 - 1];
      }
    }
  }

  lemma {:induction false} PlaceValuesAt(cells: map<(nat, nat), Cell>, r: nat, vs: seq<string>, p: (nat, nat))
    ensures p in PlaceValues(cells, r, vs) <==> p in cells || (p.0 == r && 1 <= p.1 <= |vs|)
    ensures p.0 == r && 1 <= p.1 <= |vs| ==> PlaceValues(cells, r, vs)[p] == DataCell(vs[p.1 - 1])
    ensures !(p.0 == r && 1 <= p.1 <= |vs|) && p in cells ==> PlaceValues(cells, r, vs)[p] == cells[p]
    decreases |vs|
  {
    if vs != [] {
      var init := vs[..|vs| - 1];
      PlaceValuesAt(cells, r, init, p);
      if p.0 == r && 1 <= p.1 < |vs| {
        assert vs[p.1 - 1] == init[p.1 - 1];
      }
    }
  }

  /** One step at one cell: rows other than the cursor's keep their cell, and
      the cursor's row gets the step's cell. */
  lemma StepCellAt(sh: Sheet, s: Step, maxCols: nat, p: (nat, nat))
    requires Wellformed(sh)
    ensures p.0 != sh.cursor ==>
      && (p in PutStep(sh, s, maxCols).cells <==> p in sh.cells)
      && (p in sh.cells ==> PutStep(sh, s, maxCols).cells[p] == sh.cells[p])
    ensures p.0 == sh.cursor ==>
      && (p in PutStep(sh, s, maxCols).cells <==> StepCell(s, p.1).Some?)
      && (StepCell(s, p.1).Some? ==> PutStep(sh, s, maxCols).cells[p] == StepCell(s, p.1).value)
  {
    assert p.0 == sh.cursor ==> p !in sh.cells;
    match s
    case HeaderRow(hs) => PlaceHeadersAt(sh.cells, sh.cursor, hs, p);
    case DataRow(vs) => PlaceValuesAt(sh.cells, sh.cursor, vs, p);
    case _ =>
  }

  /** One step keeps the worksheet well formed and advances the cursor by the
      rows it occupies. */
  lemma StepWellformed(sh: Sheet, s: Step, maxCols: nat)
    requires Wellformed(sh) && maxCols >= 1
    ensures Wellformed(PutStep(sh, s, maxCols))
    ensures PutStep(sh, s, maxCols).cursor == sh.cursor + RowsOf(s)
  {
    var sh' := PutStep(sh, s, maxCols);
    forall p | p in sh'.cells ensures 1 <= p.0 < sh'.cursor && p.0 <= sh'.maxRow && 1 <= p.1 <= sh'.maxCol {
      StepCellAt(sh, s, maxCols, p);
    }
    StepMergedInside(sh, s, maxCols);
  }

  /** The merged ranges after a step lie above the new cursor and inside the
      new dimensions. */
  lemma StepMergedInside(sh: Sheet, s: Step, maxCols: nat)
    requires Wellformed(sh) && maxCols >= 1
    ensures var sh' := PutStep(sh, s, maxCols);
      forall k | 0 <= k < |sh'.merged| ::
        1 <= sh'.merged[k].minRow <= sh'.merged[k].maxRow < sh'.cursor && sh'.merged[k].maxRow <= sh'.maxRow
        && 1 <= sh'.merged[k].minCol <= sh'.merged[k].maxCol <= sh'.maxCol
  {
    var sh' := PutStep(sh, s, maxCols);
    if s.TextRow? && s.text != [] {
      assert sh'.merged == sh.merged + [Range(sh.cursor, sh.cursor, 1, maxCols)];
    } else {
      assert sh'.merged == sh.merged;
    }
  }

  /** Only a non-empty text row adds a merged range, and it spans its own row
      from column 1 to the document's width. */
  lemma StepMerges(sh: Sheet, s: Step, maxCols: nat)
    ensures sh.merged <= PutStep(sh, s, maxCols).merged
    ensures forall k | |sh.merged| <= k < |PutStep(sh, s, maxCols).merged| ::
      PutStep(sh, s, maxCols).merged[k] == Range(sh.cursor, sh.cursor, 1, maxCols) && s.TextRow? && s.text != []
    ensures s.TextRow? && s.text != [] ==> Range(sh.cursor, sh.cursor, 1, maxCols) in PutStep(sh, s, maxCols).merged
  {
    if s.TextRow? && s.text != [] {
      assert PutStep(sh, s, maxCols).merged[|sh.merged|] == Range(sh.cursor, sh.cursor, 1, maxCols);
    }
  }

  /** A step sets at most the height of the cursor's row. */
  lemma StepHeights(sh: Sheet, s: Step, maxCols: nat)
    requires Wellformed(sh)
    ensures forall r: nat | r != sh.cursor :: (r in PutStep(sh, s, maxCols).heights <==> r in sh.heights)
    ensures forall r: nat | r != sh.cursor && r in sh.heights :: PutStep(sh, s, maxCols).heights[r] == sh.heights[r]
    ensures sh.cursor in PutStep(sh, s, maxCols).heights <==> StepHeight(s, maxCols).Some?
    ensures StepHeight(s, maxCols).Some? ==> PutStep(sh, s, maxCols).heights[sh.cursor] == StepHeight(s, maxCols).value
  {
    assert sh.cursor !in sh.heights;
  }

  /** Steps keep the worksheet well formed; the cursor moves down by the rows
      they occupy. */
  lemma {:induction false} AllWellformed(sh: Sheet, steps: seq<Step>, maxCols: nat)
    requires Wellformed(sh) && maxCols >= 1
    ensures Wellformed(PutAll(sh, steps, maxCols))
    ensures PutAll(sh, steps, maxCols).cursor == sh.cursor + Rows(steps)
    decreases |steps|
  {
    if steps != [] {
      AllWellformed(sh, steps[..|steps| - 1], maxCols);
      StepWellformed(PutAll(sh, steps[..|steps| - 1], maxCols), steps[|steps| - 1], maxCols);
    }
  }

  /** Later steps never touch a row above the cursor they start from. */
  lemma {:induction false} AllKeepRowsAbove(sh: Sheet, steps: seq<Step>, maxCols: nat, p: (nat, nat))
    requires Wellformed(sh) && maxCols >= 1 && p.0 < sh.cursor
    ensures p in PutAll(sh, steps, maxCols).cells <==> p in sh.cells
    ensures p in sh.cells ==> PutAll(sh, steps, maxCols).cells[p] == sh.cells[p]
    ensures p.0 in PutAll(sh, steps, maxCols).heights <==> p.0 in sh.heights
    ensures p.0 in sh.heights ==> PutAll(sh, steps, maxCols).heights[p.0] == sh.heights[p.0]
    ensures sh.merged <= PutAll(sh, steps, maxCols).merged
    ensures forall k | |sh.merged| <= k < |PutAll(sh, steps, maxCols).merged| ::
      PutAll(sh, steps, maxCols).merged[k].minRow >= sh.cursor
    decreases |steps|
  {
    if steps != [] {
      var init := steps[..|steps| - 1];
      var mid := PutAll(sh, init, maxCols);
      AllKeepRowsAbove(sh, init, maxCols, p);
      AllWellformed(sh, init, maxCols);
      StepCellAt(mid, steps[|steps| - 1], maxCols, p);
      StepMerges(mid, steps[|steps| - 1], maxCols);
      StepHeights(mid, steps[|steps| - 1], maxCols);
    }
  }

  /** The prefix, the step and the rest. */
  lemma PutAllAround(sh: Sheet, steps: seq<Step>, maxCols: nat, i: nat)
    requires i < |steps|
    ensures PutAll(sh, steps, maxCols)
         == PutAll(PutStep(PutAll(sh, steps[..i], maxCols), steps[i], maxCols), steps[i + 1..], maxCols)
  {
    assert steps == steps[..i] + [steps[i]] + steps[i + 1..];
    PutAllAppend(sh, steps[..i] + [steps[i]], steps[i + 1..], maxCols);
    PutAllAppend(sh, steps[..i], [steps[i]], maxCols);
    PutAllOne(PutAll(sh, steps[..i], maxCols), steps[i], maxCols);
  }

  /** A step that occupies no row, a text row with empty text, writes
      nothing and leaves the cursor where it is. */
  lemma EmptyTextSkipped(sh: Sheet, steps: seq<Step>, maxCols: nat, i: nat)
    requires i < |steps| && RowsOf(steps[i]) == 0
    ensures PutAll(sh, steps[..i + 1], maxCols) == PutAll(sh, steps[..i], maxCols)
  {
    assert steps[..i + 1][..i] == steps[..i];
  }

  /** Step `i` of a layout occupies row `sh.cursor + Rows(steps[..i])` of the
      finished worksheet: that row holds exactly the step's cells. */
  lemma {:induction false} StepPlacement(sh: Sheet, steps: seq<Step>, maxCols: nat, i: nat, c: nat)
    requires Wellformed(sh) && maxCols >= 1 && i < |steps| && RowsOf(steps[i]) == 1
    ensures var r := sh.cursor + Rows(steps[..i]);
      var final := PutAll(sh, steps, maxCols);
      && ((r, c) in final.cells <==> StepCell(steps[i], c).Some?)
      && (StepCell(steps[i], c).Some? ==> final.cells[(r, c)] == StepCell(steps[i], c).value)
  {
    var r := sh.cursor + Rows(steps[..i]);
    var pre := PutAll(sh, steps[..i], maxCols);
    var mid := PutStep(pre, steps[i], maxCols);
    PutAllAround(sh, steps, maxCols, i);
    AllWellformed(sh, steps[..i], maxCols);
    StepWellformed(pre, steps[i], maxCols);
    StepCellAt(pre, steps[i], maxCols, (r, c));
    AllKeepRowsAbove(mid, steps[i + 1..], maxCols, (r, c));
  }

  /** The row of step `i` has exactly the step's height. */
  lemma {:induction false} StepPlacementHeight(sh: Sheet, steps: seq<Step>, maxCols: nat, i: nat)
    requires Wellformed(sh) && maxCols >= 1 && i < |steps| && RowsOf(steps[i]) == 1
    ensures var r := sh.cursor + Rows(steps[..i]);
      var final := PutAll(sh, steps, maxCols);
      && (r in final.heights <==> StepHeight(steps[i], maxCols).Some?)
      && (StepHeight(steps[i], maxCols).Some? ==> final.heights[r] == StepHeight(steps[i], maxCols).value)
  {
    var r := sh.cursor + Rows(steps[..i]);
    var pre := PutAll(sh, steps[..i], maxCols);
    var mid := PutStep(pre, steps[i], maxCols);
    PutAllAround(sh, steps, maxCols, i);
    AllWellformed(sh, steps[..i], maxCols);
    StepWellformed(pre, steps[i], maxCols);
    StepHeights(pre, steps[i], maxCols);
    AllKeepRowsAbove(mid, steps[i + 1..], maxCols, (r, 0));
  }

  /** The merged ranges touching the row of step `i` are exactly the one its
      text row adds. */
  lemma {:induction false} StepPlacementMerges(sh: Sheet, steps: seq<Step>, maxCols: nat, i: nat)
    requires Wellformed(sh) && maxCols >= 1 && i < |steps| && RowsOf(steps[i]) == 1
    ensures var r := sh.cursor + Rows(steps[..i]);
      var final := PutAll(sh, steps, maxCols);
      && (steps[i].TextRow? ==> Range(r, r, 1, maxCols) in final.merged)
      && (forall k | 0 <= k < |final.merged| && final.merged[k].minRow <= r <= final.merged[k].maxRow ::
            steps[i].TextRow? && final.merged[k] == Range(r, r, 1, maxCols))
  {
    var r := sh.cursor + Rows(steps[..i]);
    var pre := PutAll(sh, steps[..i], maxCols);
    var mid := PutStep(pre, steps[i], maxCols);
    var final := PutAll(sh, steps, maxCols);
    PutAllAround(sh, steps, maxCols, i);
    AllWellformed(sh, steps[..i], maxCols);
    StepWellformed(pre, steps[i], maxCols);
    StepMerges(pre, steps[i], maxCols);
    AllKeepRowsAbove(mid, steps[i + 1..], maxCols, (r, 1));
    forall k | 0 <= k < |final.merged| && final.merged[k].minRow <= r <= final.merged[k].maxRow
      ensures steps[i].TextRow? && final.merged[k] == Range(r, r, 1, maxCols)
    {
      if |pre.merged| <= k < |mid.merged| {
        assert final.merged[k] == mid.merged[k];
      }
    }
  }

  lemma HiddenCellsAreZero(cells: map<(nat, nat), Cell>, covered: set<(int, int)>, r: nat, c: nat)
    requires (r, c) in covered || (r, c) !in cells
    ensures CellLength(cells, covered, r, c) == 0
  {
  }

  /** A merged text row never widens a column. */
  lemma TextRowsNeverWiden(sh: Sheet, steps: seq<Step>, maxCols: nat, i: nat, c: nat)
    requires Wellformed(sh) && maxCols >= 1 && i < |steps| && steps[i].TextRow? && steps[i].text != []
    ensures var final := PutAll(sh, steps, maxCols);
      CellLength(final.cells, CoveredCells(final.merged), sh.cursor + Rows(steps[..i]), c) == 0
  {
    var r := sh.cursor + Rows(steps[..i]);
    var final := PutAll(sh, steps, maxCols);
    StepPlacementMerges(sh, steps, maxCols, i);
    StepPlacement(sh, steps, maxCols, i, c);
    MergedRowHidden(final.cells, final.merged, r, c, maxCols);
  }

  /** On a row merged from column 1, only column 1 may hold a cell, and that
      one is hidden. */
  lemma MergedRowHidden(cells: map<(nat, nat), Cell>, merged: seq<Range>, r: nat, c: nat, maxCols: nat)
    requires maxCols >= 1 && Range(r, r, 1, maxCols) in merged && ((r, c) in cells ==> c == 1)
    ensures CellLength(cells, CoveredCells(merged), r, c) == 0
  {
    if c == 1 {
      var k :| 0 <= k < |merged| && merged[k] == Range(r, r, 1, maxCols);
      assert InRange(merged[k], r, c);
      CoveredCellsAreMerged(merged, r, c);
    }
    HiddenCellsAreZero(cells, CoveredCells(merged), r, c);
  }

  /** Every data row is 16 points per line of its tallest cell, and at least
      16 points. */
  lemma DataRowHeightAt(sh: Sheet, steps: seq<Step>, maxCols: nat, i: nat)
    requires Wellformed(sh) && maxCols >= 1 && i < |steps| && steps[i].DataRow?
    ensures var r := sh.cursor + Rows(steps[..i]);
      var final := PutAll(sh, steps, maxCols);
      && r in final.heights
      && final.heights[r] == (16 * RowLines(steps[i].values)) as real
      && final.heights[r] >= 16.0
      && (forall j | 0 <= j < |steps[i].values| :: final.heights[r] >= (16 * CellLines(steps[i].values[j])) as real)
  {
    StepPlacementHeight(sh, steps, maxCols, i);
    RowLinesIsMaximum(steps[i].values);
  }

  /** Every merged text row is at least 1.5 times its font size high. */
  lemma TextRowHeightAt(sh: Sheet, steps: seq<Step>, maxCols: nat, i: nat)
    requires Wellformed(sh) && maxCols >= 1 && i < |steps| && steps[i].TextRow? && steps[i].text != []
    ensures var r := sh.cursor + Rows(steps[..i]);
      var final := PutAll(sh, steps, maxCols);
      && r in final.heights
      && final.heights[r] == MergedHeight(steps[i].text, maxCols, steps[i].size)
      && final.heights[r] >= steps[i].size as real * 1.5
  {
    StepPlacementHeight(sh, steps, maxCols, i);
    MergedHeightAtLeastOneLine(steps[i].text, maxCols, steps[i].size);
  }

  /** A spacer's row has no cell and the default height. */
  lemma SpacerRowEmpty(sh: Sheet, steps: seq<Step>, maxCols: nat, i: nat)
    requires Wellformed(sh) && maxCols >= 1 && i < |steps| && steps[i] == Spacer
    ensures var r := sh.cursor + Rows(steps[..i]);
      var final := PutAll(sh, steps, maxCols);
      && (forall p | p in final.cells :: p.0 != r)
      && r !in final.heights
  {
    var final := PutAll(sh, steps, maxCols);
    forall p | p in final.cells ensures p.0 != sh.cursor + Rows(steps[..i]) {
      StepPlacement(sh, steps, maxCols, i, p.1);
    }
    StepPlacementHeight(sh, steps, maxCols, i);
  }

  /** Every cell on a step's row is one the step wrote. */
  lemma RowOnlyStepCells(sh: Sheet, steps: seq<Step>, maxCols: nat, i: nat)
    requires Wellformed(sh) && maxCols >= 1 && i < |steps| && RowsOf(steps[i]) == 1
    ensures forall p | p in PutAll(sh, steps, maxCols).cells && p.0 == sh.cursor + Rows(steps[..i]) ::
      StepCell(steps[i], p.1).Some?
  {
    forall p | p in PutAll(sh, steps, maxCols).cells && p.0 == sh.cursor + Rows(steps[..i])
      ensures StepCell(steps[i], p.1).Some?
    {
      StepPlacement(sh, steps, maxCols, i, p.1);
    }
  }

  /** A text row's row holds its text at column 1 and nothing else. */
  lemma TextRowCells(sh: Sheet, steps: seq<Step>, maxCols: nat, i: nat)
    requires Wellformed(sh) && maxCols >= 1 && i < |steps| && steps[i].TextRow? && steps[i].text != []
    ensures var r := sh.cursor + Rows(steps[..i]);
      var final := PutAll(sh, steps, maxCols);
      var t := steps[i];
      && (r, 1) in final.cells
      && final.cells[(r, 1)] == Cell(t.text, t.bold, t.size, t.align, false, false)
      && (forall p | p in final.cells && p.0 == r :: p.1 == 1)
  {
    StepPlacement(sh, steps, maxCols, i, 1);
    RowOnlyStepCells(sh, steps, maxCols, i);
  }

  /** The last step occupies the last row written. */
  lemma LastStepOnLastRow(sh: Sheet, steps: seq<Step>, maxCols: nat)
    requires Wellformed(sh) && maxCols >= 1 && steps != [] && RowsOf(steps[|steps| - 1]) == 1
    ensures PutAll(sh, steps, maxCols).cursor - 1 == sh.cursor + Rows(steps[..|steps| - 1])
    ensures forall p | p in PutAll(sh, steps, maxCols).cells :: p.0 <= PutAll(sh, steps, maxCols).cursor - 1
  {
    AllWellformed(sh, steps, maxCols);
  }

  lemma {:induction false} DataRowsCount(rows: seq<seq<string>>)
    ensures Rows(DataRows(rows)) == |rows|
    ensures |DataRows(rows)| == |rows|
    decreases |rows|
  {
    if rows != [] {
      DataRowsCount(rows[..|rows| - 1]);
      var steps := DataRows(rows);
      assert steps[..|steps| - 1] == DataRows(rows[..|rows| - 1]);
    }
  }

  /** A table occupies one row for a non-empty title, one header row even
      without headers, one per data row and one spacer. */
  lemma TableRowCount(t: Table)
    ensures Rows(TableRows(t)) == (if t.title.GetOr([]) != [] then 1 else 0) + 2 + |t.rows.GetOr([])|
  {
    var a, b, c := TitleRows(t), [HeaderRow(t.headers.GetOr([]))], DataRows(t.rows.GetOr([]));
    RowsAppend(a + b + c, [Spacer]);
    RowsAppend(a + b, c);
    RowsAppend(a, b);
    DataRowsCount(t.rows.GetOr([]));
    assert [Spacer][..0] == [] && b[..0] == [];
    if t.title.GetOr([]) != [] {
      assert a[..0] == [];
    }
  }

  /** The tables occupy the sum of their row counts, in order. */
  lemma {:induction false} TablesRowCount(ts: seq<Table>)
    ensures Rows(TablesRows(ts)) == TableRowsTotal(ts)
    decreases |ts|
  {
    if ts != [] {
      TablesRowCount(ts[..|ts| - 1]);
      RowsAppend(TablesRows(ts[..|ts| - 1]), TableRows(ts[|ts| - 1]));
      TableRowCount(ts[|ts| - 1]);
    }
  }

  function TableRowsTotal(ts: seq<Table>): nat
    decreases |ts|
  {
    if ts == [] then 0
    else
      var t := ts[|ts| - 1];
      TableRowsTotal(ts[..|ts| - 1]) + (if t.title.GetOr([]) != [] then 1 else 0) + 2 + |t.rows.GetOr([])|
  }

  // ---------------------------------------------------------------------------
  // The document's layout
  // ---------------------------------------------------------------------------

  /** The worksheet `build` fills for a non-empty document, before autofit. */
  function Filled(d: Document): Sheet {
    PutAll(Blank, Layout(d), MaxColumns(Tables(d)))
  }

  lemma LayoutAt(d: Document)
    ensures var subs := SubtitleRows(d.subtitles.GetOr([]));
      && |Layout(d)| == |subs| + |TablesRows(Tables(d))| + 3
      && Layout(d)[0] == MainTitleRow(d)
      && Layout(d)[..1 + |subs|] == [MainTitleRow(d)] + subs
      && Layout(d)[1 + |subs|] == Spacer
      && Layout(d)[|Layout(d)| - 1] == FooterRow(d)
  {
  }

  lemma FilledFrom(d: Document)
    ensures Wellformed(Blank) && MaxColumns(Tables(d)) >= 1 && Blank.cursor == 1
  {
    BlankWellformed();
    MaxColumnsIsMaximum(Tables(d));
  }

  /** A non-empty main title is alone on row 1, merged across the document's
      width. */
  lemma TitleOnFirstRow(d: Document)
    requires MainTitleRow(d).text != []
    ensures var t := MainTitleRow(d);
      && (1, 1) in Filled(d).cells
      && Filled(d).cells[(1, 1)] == Cell(t.text, t.bold, t.size, Center, false, false)
      && (forall p | p in Filled(d).cells && p.0 == 1 :: p.1 == 1)
      && Range(1, 1, 1, MaxColumns(Tables(d))) in Filled(d).merged
  {
    FilledFrom(d);
    LayoutAt(d);
    assert Layout(d)[..0] == [];
    TextRowCells(Blank, Layout(d), MaxColumns(Tables(d)), 0);
    StepPlacementMerges(Blank, Layout(d), MaxColumns(Tables(d)), 0);
  }

  /** The row after the title and subtitles is an empty spacer. */
  lemma SpacerAfterSubtitles(d: Document)
    ensures var r := 1 + Rows([MainTitleRow(d)] + SubtitleRows(d.subtitles.GetOr([])));
      && (forall p | p in Filled(d).cells :: p.0 != r)
      && r !in Filled(d).heights
  {
    FilledFrom(d);
    LayoutAt(d);
    SpacerRowEmpty(Blank, Layout(d), MaxColumns(Tables(d)), 1 + |SubtitleRows(d.subtitles.GetOr([]))|);
  }

  /** A non-empty footer is the last row written, alone on its row. */
  lemma FooterOnLastRow(d: Document)
    requires FooterRow(d).text != []
    ensures var f := FooterRow(d);
      var r := Filled(d).cursor - 1;
      && (r, 1) in Filled(d).cells
      && Filled(d).cells[(r, 1)] == Cell(f.text, f.bold, f.size, Left, false, false)
      && (forall p | p in Filled(d).cells :: p.0 < r || p == (r, 1))
  {
    FilledFrom(d);
    LayoutAt(d);
    LastTextRowAlone(Blank, Layout(d), MaxColumns(Tables(d)));
  }

  /** A layout that ends in a non-empty text row puts it alone on the last
      row, at column 1. */
  lemma LastTextRowAlone(sh: Sheet, steps: seq<Step>, maxCols: nat)
    requires Wellformed(sh) && maxCols >= 1 && steps != []
    requires steps[|steps| - 1].TextRow? && steps[|steps| - 1].text != []
    ensures var t := steps[|steps| - 1];
      var final := PutAll(sh, steps, maxCols);
      var r := final.cursor - 1;
      && (r, 1) in final.cells
      && final.cells[(r, 1)] == Cell(t.text, t.bold, t.size, t.align, false, false)
      && (forall p | p in final.cells :: p.0 < r || p == (r, 1))
  {
    LastStepOnLastRow(sh, steps, maxCols);
    TextRowCells(sh, steps, maxCols, |steps| - 1);
  }
}
