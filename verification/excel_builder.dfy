/** `ExcelBuilder` (core/excel_builder.py): a writer that keeps a row cursor
    over a worksheet and fills it with the merged title rows, the header and
    data rows of each table and the footer, then fits the column widths. */
module ExcelBuilder {
  import opened Wrappers
  import opened Text
  import opened ExcelDocument
  import opened Worksheet

  /** `PutAll` over a concatenation is `PutAll` over each part in turn. */
  lemma {:induction false} PutAllAppend(sh: Sheet, a: seq<Step>, b: seq<Step>, maxCols: nat)
    ensures PutAll(sh, a + b, maxCols) == PutAll(PutAll(sh, a, maxCols), b, maxCols)
    decreases |b|
  {
    if b == [] {
      assert a + b == a;
    } else {
      var b' := b[..|b| - 1];
      PutAllAppend(sh, a, b', maxCols);
      assert (a + b)[..|a + b| - 1] == a + b';
    }
  }

  lemma PutAllOne(sh: Sheet, s: Step, maxCols: nat)
    ensures PutAll(sh, [s], maxCols) == PutStep(sh, s, maxCols)
  {
    assert [s][..0] == [];
  }

  /** `PutAll` over four parts in turn. */
  lemma PutAllFour(sh: Sheet, a: seq<Step>, b: seq<Step>, c: seq<Step>, d: seq<Step>, maxCols: nat)
    ensures PutAll(sh, a + b + c + d, maxCols)
         == PutAll(PutAll(PutAll(PutAll(sh, a, maxCols), b, maxCols), c, maxCols), d, maxCols)
  {
    PutAllAppend(sh, a + b + c, d, maxCols);
    PutAllAppend(sh, a + b, c, maxCols);
    PutAllAppend(sh, a, b, maxCols);
  }

  /** Data rows do not depend on the merge width. */
  lemma {:induction false} DataRowsAnyWidth(sh: Sheet, rows: seq<seq<string>>, maxCols: nat)
    ensures PutAll(sh, DataRows(rows), maxCols) == PutAll(sh, DataRows(rows), 0)
    decreases |rows|
  {
    if rows != [] {
      var init := rows[..|rows| - 1];
      DataRowsAnyWidth(sh, init, maxCols);
      var steps := DataRows(rows);
      assert steps[..|steps| - 1] == DataRows(init);
    }
  }

  /** The layout in its five parts. */
  lemma LayoutInParts(sh: Sheet, d: Document, maxCols: nat)
    ensures PutAll(sh, Layout(d), maxCols)
         == PutAll(PutAll(PutAll(PutAll(sh, [MainTitleRow(d)], maxCols), SubtitleRows(d.subtitles.GetOr([])), maxCols),
              [Spacer] + TablesRows(Tables(d)), maxCols), [FooterRow(d)], maxCols)
  {
    var a, b, c, e := [MainTitleRow(d)], SubtitleRows(d.subtitles.GetOr([])), [Spacer] + TablesRows(Tables(d)), [FooterRow(d)];
    assert Layout(d) == a + b + c + e;
    PutAllFour(sh, a, b, c, e, maxCols);
  }

  class ExcelBuilder {
    var cells: map<(nat, nat), Cell>
    var merged: seq<Range>
    var rowHeights: map<nat, real>
    var colWidths: map<nat, nat>
    var currentRow: nat
    var maxRow: nat
    var maxColumn: nat

    /** The worksheet and the cursor as one value. */
    function Snapshot(): Sheet
      reads this
    {
      Sheet(cells, merged, rowHeights, colWidths, currentRow, maxRow, maxColumn)
    }

    /** A new workbook with one empty sheet and the cursor on row 1. */
    constructor()
      ensures Snapshot() == Blank
    {
      cells, merged, rowHeights, colWidths := map[], [], map[], map[];
      currentRow, maxRow, maxColumn := 1, 1, 1;
    }

    /** The widest header list of the document's tables, and at least 1. */
    method GetMaxColumns(d: Document) returns (maxCols: nat)
      ensures maxCols == MaxColumns(Tables(d))
      ensures maxCols >= 1
      ensures forall t | t in Tables(d) && t.headers.Some? :: |t.headers.value| <= maxCols
    {
      var ts := Tables(d);
      maxCols := 1;
      for i := 0 to |ts|
        invariant maxCols == MaxColumns(ts[..i])
      {
        assert ts[..i + 1][..i] == ts[..i];
        if ts[i].headers.Some? {
          maxCols := Max(maxCols, |ts[i].headers.value|);
        }
      }
      assert ts[..|ts|] == ts;
      MaxColumnsIsMaximum(ts);
    }

    /** `write_merged_text`. */
    method WriteMergedText(text: string, maxCols: nat, isBold: bool, fontSize: nat, align: Align)
      modifies this
      ensures Snapshot() == PutText(old(Snapshot()), text, maxCols, isBold, fontSize, align)
    {
      if text == [] {
        return;
      }
      var r := currentRow;
      cells := cells[(r, 1) := Cell(text, isBold, fontSize, align, false, false)];
      merged := merged + [Range(r, r, 1, maxCols)];
      maxRow := Max(maxRow, r);
      maxColumn := Max(maxColumn, maxCols);
      var charsPerLine := Max(maxCols * 15, 30);
      assert charsPerLine == CharsPerLine(maxCols);
      var estimatedLines := Count('\n', text) + |text| / charsPerLine + 1;
      assert estimatedLines == EstimatedLines(text, maxCols);
      rowHeights := rowHeights[r := estimatedLines as real * (fontSize as real * 1.5)];
      currentRow := currentRow + 1;
    }

    /** The header row of a table (core/excel_builder.py:119-126). */
    method WriteHeaderRow(headers: seq<Header>)
      modifies this
      ensures Snapshot() == PutHeaders(old(Snapshot()), headers)
    {
      var r := currentRow;
      for j := 0 to |headers|
        invariant cells == PlaceHeaders(old(cells), r, headers[..j])
        invariant maxRow == RowReach(old(maxRow), r, j) && maxColumn == Max(old(maxColumn), j)
        invariant merged == old(merged) && rowHeights == old(rowHeights) && colWidths == old(colWidths)
        invariant currentRow == r
      {
        assert headers[..j + 1][..j] == headers[..j];
        cells := cells[(r, j + 1) := HeaderCell(headers[j])];
        maxRow := Max(maxRow, r);
        maxColumn := Max(maxColumn, j + 1);
      }
      assert headers[..|headers|] == headers;
      currentRow := currentRow + 1;
    }

    /** One data row of a table (core/excel_builder.py:128-142). */
    method WriteDataRow(values: seq<string>)
      modifies this
      ensures Snapshot() == PutValues(old(Snapshot()), values)
    {
      var r := currentRow;
      var maxLines := 1;
      for j := 0 to |values|
        invariant cells == PlaceValues(old(cells), r, values[..j])
        invariant maxLines == RowLines(values[..j])
        invariant maxRow == RowReach(old(maxRow), r, j) && maxColumn == Max(old(maxColumn), j)
        invariant merged == old(merged) && rowHeights == old(rowHeights) && colWidths == old(colWidths)
        invariant currentRow == r
      {
        assert values[..j + 1][..j] == values[..j];
        var v := values[j];
        cells := cells[(r, j + 1) := DataCell(v)];
        maxRow := Max(maxRow, r);
        maxColumn := Max(maxColumn, j + 1);
        var lines := Count('\n', v) + |v| / 30 + 1;
        if lines > maxLines {
          maxLines := lines;
        }
      }
      assert values[..|values|] == values;
      rowHeights := rowHeights[r := (maxLines * 16) as real];
      currentRow := currentRow + 1;
    }

    /** `merged_cells_map`: every cell of every merged range. */
    method MergedCellsMap() returns (covered: set<(int, int)>)
      ensures covered == CoveredCells(merged)
    {
      covered := {};
      for k := 0 to |merged|
        invariant covered == CoveredCells(merged[..k])
      {
        assert merged[..k + 1][..k] == merged[..k];
        var g := merged[k];
        var row: int := g.minRow;
        while row <= g.maxRow
          invariant g.minRow <= row && (row <= g.maxRow + 1 || row == g.minRow)
          invariant covered == CoveredCells(merged[..k]) + BlockSpan(g, row - 1)
        {
          var col: int := g.minCol;
          while col <= g.maxCol
            invariant g.minCol <= col && (col <= g.maxCol + 1 || col == g.minCol)
            invariant covered == CoveredCells(merged[..k]) + BlockSpan(g, row - 1) + RowSpan(row, g.minCol, col - 1)
          {
            covered := covered + {(row, col)};
            col := col + 1;
          }
          row := row + 1;
        }
      }
      assert merged[..|merged|] == merged;
    }

    /** `max_length` of column `c`: the longest line of its non-empty cells
        outside the merged ranges, over rows 1 to `max_row`. */
    method LongestInColumn(covered: set<(int, int)>, c: nat) returns (longest: nat)
      ensures longest == ColumnLongest(cells, covered, c, maxRow)
    {
      longest := 0;
      var r := 1;
      while r <= maxRow
        invariant 1 <= r && (r <= maxRow + 1 || r == 1)
        invariant longest == ColumnLongest(cells, covered, c, r - 1)
      {
        if (r, c) !in covered && (r, c) in cells && cells[(r, c)].value != [] {
          var l := LongestLine(cells[(r, c)].value);
          if l > longest {
            longest := l;
          }
        }
        r := r + 1;
      }
    }

    /** `_autofit_columns`: every column up to `max_column` gets the padded,
        clamped length of its longest line outside the merged ranges. */
    method AutofitColumns()
      modifies this
      ensures Snapshot() == Autofit(old(Snapshot()))
    {
      var covered := MergedCellsMap();
      var c := 1;
      while c <= maxColumn
        invariant 1 <= c && (c <= maxColumn + 1 || c == 1)
        invariant colWidths == FitColumns(old(Snapshot()), c - 1)
        invariant cells == old(cells) && merged == old(merged) && rowHeights == old(rowHeights)
        invariant currentRow == old(currentRow) && maxRow == old(maxRow) && maxColumn == old(maxColumn)
      {
        var longest := LongestInColumn(covered, c);
        colWidths := colWidths[c := Max(12, Min(longest + 4, 45))];
        c := c + 1;
      }
    }

    /** The subtitles, each a centred merged row (core/excel_builder.py:105-110). */
    method WriteSubtitles(subtitles: seq<TextBlock>, maxCols: nat)
      modifies this
      ensures Snapshot() == PutAll(old(Snapshot()), SubtitleRows(subtitles), maxCols)
    {
      for i := 0 to |subtitles|
        invariant Snapshot() == PutAll(old(Snapshot()), SubtitleRows(subtitles[..i]), maxCols)
      {
        assert subtitles[..i + 1][..i] == subtitles[..i];
        var subtitle := subtitles[i];
        WriteMergedText(subtitle.text.GetOr([]), maxCols, subtitle.isBold.GetOr(true), subtitle.fontSize.GetOr(12), Center);
      }
      assert subtitles[..|subtitles|] == subtitles;
    }

    /** The data rows of a table (core/excel_builder.py:128-142). */
    method WriteDataRows(rows: seq<seq<string>>)
      modifies this
      ensures Snapshot() == PutAll(old(Snapshot()), DataRows(rows), 0)
    {
      for j := 0 to |rows|
        invariant Snapshot() == PutAll(old(Snapshot()), DataRows(rows[..j]), 0)
      {
        assert rows[..j + 1][..j] == rows[..j];
        WriteDataRow(rows[j]);
      }
      assert rows[..|rows|] == rows;
    }

    /** One table (core/excel_builder.py:114-144): its title when non-empty,
        the header row, the data rows, then one spacer row. */
    method WriteTable(t: Table, maxCols: nat)
      modifies this
      ensures Snapshot() == PutAll(old(Snapshot()), TableRows(t), maxCols)
    {
      ghost var s0 := Snapshot();
      var title := t.title.GetOr([]);
      if title != [] {
        WriteMergedText(title, maxCols, true, 12, Left);
        PutAllOne(s0, TextRow(title, true, 12, Left), maxCols);
      }
      ghost var s1 := Snapshot();
      WriteHeaderRow(t.headers.GetOr([]));
      PutAllOne(s1, HeaderRow(t.headers.GetOr([])), maxCols);
      ghost var s2 := Snapshot();
      WriteDataRows(t.rows.GetOr([]));
      DataRowsAnyWidth(s2, t.rows.GetOr([]), maxCols);
      ghost var s3 := Snapshot();
      currentRow := currentRow + 1;
      PutAllOne(s3, Spacer, maxCols);
      PutAllFour(s0, TitleRows(t), [HeaderRow(t.headers.GetOr([]))], DataRows(t.rows.GetOr([])), [Spacer], maxCols);
    }

    /** The tables in order (core/excel_builder.py:114-144). */
    method WriteTables(tables: seq<Table>, maxCols: nat)
      modifies this
      ensures Snapshot() == PutAll(old(Snapshot()), TablesRows(tables), maxCols)
    {
      for i := 0 to |tables|
        invariant Snapshot() == PutAll(old(Snapshot()), TablesRows(tables[..i]), maxCols)
      {
        assert tables[..i + 1][..i] == tables[..i];
        WriteTable(tables[i], maxCols);
        PutAllAppend(old(Snapshot()), TablesRows(tables[..i]), TableRows(tables[i]), maxCols);
      }
      assert tables[..|tables|] == tables;
    }

    /** `build` on the `document` entry of the loaded JSON: nothing at all for
        a missing or empty document; otherwise the layout of the document
        written from the cursor on, then the columns fitted. */
    method Build(entry: Option<Document>)
      modifies this
      ensures entry.None? ==> Snapshot() == old(Snapshot())
      ensures IsEmpty(LoadDocument(entry)) ==> Snapshot() == old(Snapshot())
      ensures !IsEmpty(LoadDocument(entry)) ==>
        var d := LoadDocument(entry);
        Snapshot() == Autofit(PutAll(old(Snapshot()), Layout(d), MaxColumns(Tables(d))))
    {
      var document := LoadDocument(entry);
      if IsEmpty(document) {
        return;
      }
      var maxCols := GetMaxColumns(document);
      ghost var s0 := Snapshot();
      var mainTitle := document.mainTitle.GetOr(TextBlock(None, None, None));
      WriteMergedText(mainTitle.text.GetOr([]), maxCols, mainTitle.isBold.GetOr(true), mainTitle.fontSize.GetOr(14), Center);
      PutAllOne(s0, MainTitleRow(document), maxCols);
      ghost var s1 := Snapshot();
      WriteSubtitles(document.subtitles.GetOr([]), maxCols);
      ghost var s2 := Snapshot();
      currentRow := currentRow + 1;
      ghost var s3 := Snapshot();
      assert s3 == s2.(cursor := s2.cursor + 1);
      PutAllOne(s2, Spacer, maxCols);
      assert s3 == PutAll(s2, [Spacer], maxCols);
      WriteTables(Tables(document), maxCols);
      PutAllAppend(s2, [Spacer], TablesRows(Tables(document)), maxCols);
      ghost var s4 := Snapshot();
      var footer := NormalizeFooter(document.footer);
      WriteMergedText(footer.text.GetOr([]), maxCols, footer.isBold.GetOr(false), footer.fontSize.GetOr(11), Left);
      PutAllOne(s4, FooterRow(document), maxCols);
      ghost var s5 := Snapshot();
      LayoutInParts(s0, document, maxCols);
      assert s1 == PutAll(s0, [MainTitleRow(document)], maxCols);
      assert s2 == PutAll(s1, SubtitleRows(document.subtitles.GetOr([])), maxCols);
      assert s4 == PutAll(s2, [Spacer] + TablesRows(Tables(document)), maxCols);
      assert s5 == PutAll(s4, [FooterRow(document)], maxCols);
      assert s5 == PutAll(s0, Layout(document), maxCols);
      AutofitColumns();
    }
  }
}
