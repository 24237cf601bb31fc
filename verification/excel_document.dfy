/** The JSON document the spreadsheet builder (core/excel_builder.py) reads,
    with every key optional as the builder's `dict.get` calls allow, and the
    ordered list of rows the builder writes for it. */
module ExcelDocument {
  import opened Wrappers
  import opened Text

  datatype Align = Center | Left

  /** A title, subtitle or footer object: `text`, `is_bold`, `font_size`. */
  datatype TextBlock = TextBlock(text: Option<string>, isBold: Option<bool>, fontSize: Option<nat>)

  /** A header object: `column_name`, `is_bold`. */
  datatype Header = Header(columnName: Option<string>, isBold: Option<bool>)

  /** A table object: `table_title`, `headers`, `rows`; each row value is
      already the `str` of the JSON value. */
  datatype Table = Table(title: Option<string>, headers: Option<seq<Header>>, rows: Option<seq<seq<string>>>)

  /** The `footer` value, which the extraction model may return as an object,
      a list or a bare string. */
  datatype Footer = FooterObject(block: TextBlock) | FooterList(items: seq<string>) | FooterText(text: string)

  /** The `document` object; `otherKeys` records whether it has keys the
      builder does not read, which still make it non-empty. */
  datatype Document = Document(
    mainTitle: Option<TextBlock>,
    subtitles: Option<seq<TextBlock>>,
    tables: Option<seq<Table>>,
    footer: Option<Footer>,
    otherKeys: bool)

  const EmptyDocument := Document(None, None, None, None, false)

  /** `data.get("document", {})`: the entry, or `{}` when it is absent. An
      entry of JSON `null` is falsy too and is modelled as absent. */
  function LoadDocument(entry: Option<Document>): Document {
    entry.GetOr(EmptyDocument)
  }

  /** `not document`: the object has no key at all. */
  predicate IsEmpty(d: Document) {
    d.mainTitle.None? && d.subtitles.None? && d.tables.None? && d.footer.None? && !d.otherKeys
  }

  function Max(a: int, b: int): int {
    if a >= b then a else b
  }

  // ---------------------------------------------------------------------------
  // Width of the document
  // ---------------------------------------------------------------------------

  /** `get_max_columns` over a list of tables: 1, raised to the header
      count of each table that has `headers`. */
  function MaxColumns(ts: seq<Table>): nat
    decreases |ts|
  {
    if ts == [] then 1
    else
      var m := MaxColumns(ts[..|ts| - 1]);
      var t := ts[|ts| - 1];
      if t.headers.Some? then Max(m, |t.headers.value|) else m
  }

  /** The width is at least 1, covers every table's headers, and is either 1
      or the header count of one of the tables. */
  lemma {:induction false} MaxColumnsIsMaximum(ts: seq<Table>)
    ensures MaxColumns(ts) >= 1
    ensures forall i | 0 <= i < |ts| && ts[i].headers.Some? :: |ts[i].headers.value| <= MaxColumns(ts)
    ensures MaxColumns(ts) == 1 || exists i | 0 <= i < |ts| :: ts[i].headers.Some? && |ts[i].headers.value| == MaxColumns(ts)
    decreases |ts|
  {
    if ts != [] {
      var init := ts[..|ts| - 1];
      MaxColumnsIsMaximum(init);
      forall i | 0 <= i < |ts| && ts[i].headers.Some? ensures |ts[i].headers.value| <= MaxColumns(ts) {
        if i < |init| {
          assert ts[i] == init[i];
        }
      }
      if MaxColumns(ts) != 1 {
        if MaxColumns(ts) == MaxColumns(init) {
          var i :| 0 <= i < |init| && init[i].headers.Some? && |init[i].headers.value| == MaxColumns(init);
          assert ts[i] == init[i];
        } else {
          assert ts[|ts| - 1].headers.Some?;
        }
      }
    }
  }

  /** The `tables` list, or `[]`. */
  function Tables(d: Document): seq<Table> {
    d.tables.GetOr([])
  }

  // ---------------------------------------------------------------------------
  // Footer normalisation
  // ---------------------------------------------------------------------------

  /** The footer as a text block: a list is joined with newlines and a string
      is taken as it is, both not bold and of size 11; an object is used as it
      is and a missing footer is `{}`. */
  function NormalizeFooter(f: Option<Footer>): TextBlock {
    match f
    case None => TextBlock(None, None, None)
    case Some(FooterList(items)) => TextBlock(Some(Join("\n", items)), Some(false), Some(11))
    case Some(FooterText(t)) => TextBlock(Some(t), Some(false), Some(11))
    case Some(FooterObject(b)) => b
  }

  // ---------------------------------------------------------------------------
  // The rows `build` writes, in order
  // ---------------------------------------------------------------------------

  /** One call the builder makes that may occupy a row: a merged text row
      (which occupies none when its text is empty), a spacer, a header row or
      a data row. */
  datatype Step =
    | TextRow(text: string, bold: bool, size: nat, align: Align)
    | Spacer
    | HeaderRow(headers: seq<Header>)
    | DataRow(values: seq<string>)

  /** The rows a step occupies. */
  function RowsOf(s: Step): nat {
    if s.TextRow? && s.text == [] then 0 else 1
  }

  /** `write_merged_text` on a block, with the caller's defaults for `is_bold`
      and `font_size`. */
  function BlockRow(b: TextBlock, bold: bool, size: nat, align: Align): Step {
    TextRow(b.text.GetOr([]), b.isBold.GetOr(bold), b.fontSize.GetOr(size), align)
  }

  function SubtitleRows(subs: seq<TextBlock>): seq<Step>
    decreases |subs|
  {
    if subs == [] then []
    else SubtitleRows(subs[..|subs| - 1]) + [BlockRow(subs[|subs| - 1], true, 12, Center)]
  }

  function DataRows(rows: seq<seq<string>>): seq<Step>
    decreases |rows|
  {
    if rows == [] then [] else DataRows(rows[..|rows| - 1]) + [DataRow(rows[|rows| - 1])]
  }

  /** A table: its title when it is non-empty, a header row even without
      headers, its data rows, then one spacer. */
  function TitleRows(t: Table): seq<Step> {
    var title := t.title.GetOr([]);
    if title != [] then [TextRow(title, true, 12, Left)] else []
  }

  function TableRows(t: Table): seq<Step> {
    TitleRows(t) + [HeaderRow(t.headers.GetOr([]))] + DataRows(t.rows.GetOr([])) + [Spacer]
  }

  function TablesRows(ts: seq<Table>): seq<Step>
    decreases |ts|
  {
    if ts == [] then [] else TablesRows(ts[..|ts| - 1]) + TableRows(ts[|ts| - 1])
  }

  function MainTitleRow(d: Document): Step {
    BlockRow(d.mainTitle.GetOr(TextBlock(None, None, None)), true, 14, Center)
  }

  function FooterRow(d: Document): Step {
    BlockRow(NormalizeFooter(d.footer), false, 11, Left)
  }

  /** Everything `build` writes for a non-empty document, in order: the main
      title, the subtitles, one spacer, each table, and the footer. */
  function Layout(d: Document): seq<Step> {
    [MainTitleRow(d)] + SubtitleRows(d.subtitles.GetOr([])) + [Spacer] + TablesRows(Tables(d)) + [FooterRow(d)]
  }
}
