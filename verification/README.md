# HindiTableExtractor core, modelled in Dafny

HindiTableExtractor turns scanned Hindi (Devanagari) tables into Excel
workbooks. There are two ways in. A user pastes a JSON document by hand, or
uploads a PDF or image that the Gemini model transcribes into the same JSON
shape. A spreadsheet builder then lays that JSON out on a worksheet. A
transliterator converts Unicode Devanagari into the private encoding of the
Kruti Dev / DevLys legacy fonts.

This project models the core of that pipeline and proves what it guarantees.

- **`unicode_to_krutidev`** (`font_converter.dfy`, `rule_tables.dfy`,
  `krutidev_table.dfy`, `krutidev_properties.dfy`).
  - The two regular-expression passes become scanners: the reph `र्` moves
    behind its consonant cluster, and the short-i sign `ि` moves in front of
    its cluster.
  - The 143-entry replacement table is kept entry for entry, in the source's
    order and grouped by the source's own comments. The loop over it becomes
    a method proved equal to a fold of Python's `str.replace`, empty pattern
    included.
  - Proved about the whole conversion: what happens to quotes, brackets, `.`,
    `/`, digits and dandas, which characters can never survive, and that no
    table pattern is shadowed by an earlier one.
- **`ExcelBuilder`** (`excel_document.dfy`, `worksheet.dfy`,
  `excel_builder.dfy`, `layout_properties.dfy`).
  - A class whose fields are the worksheet's state: cells with their
    formatting, merged ranges, row heights, column widths, the row cursor,
    `max_row` and `max_column`.
  - Every method is proved to leave exactly the state that a function of the
    old state describes.
  - Proved about those functions: the row each part of the document lands on,
    the height estimates, the width clamp, and the footer normalisation.
- **`AIExtractor`** (`fence_regex.dfy`, `ai_extractor.dfy`).
  - The API-key check, the prompt assembly, the Markdown-fence cleaner, the
    auto-heal of a payload without a `document` wrapper, and the mapping of
    exceptions to `ValueError` / `RuntimeError`.
  - The cleaner's regex `` ```(?:json)?\s*(.*?)\s*``` `` is modelled with the
    backtracking order of Python's `re`. It is proved equal to a plain
    description: the first fence, then the next fence, with the tag and
    whitespace dropped and the result stripped.
  - The model call and `json.loads` are function parameters.
- **`app.py`** (`app.dfy`).
  - `sanitize_filename`, the upload size and signature check, the root-key
    checks of both tabs, and the default workbook names.
  - The classification of errors into the direct message, the rate-limit
    notice and the unexpected-error message.

`wrappers.dfy` holds `Option` and `Result`. `text.dfy` holds the string
functions of Python that the rest uses: `strip`, `in`, `replace`, `split`,
`join`, `count`.

## Model

| member | source | states |
|---|---|---|
| FontConverter.UnicodeToKrutidev | core/font_converter.py:3-98 | The method's result is the conversion function `Krutidev`: the reph pass, then the short-i pass, then the table in order. `None` and `""` give `""`. |
| FontConverter.ReplaceInOrder | core/font_converter.py:95-96 | Rebinding `text` once per rule gives the in-order fold of `str.replace` over the rule list. |
| FontConverter.ClusterLenIsCluster | core/font_converter.py:24-29 | The greedy scan for `C(्C)*` takes a cluster and stops where the cluster cannot be extended. |
| FontConverter.RephPassKeepsCharacters | core/font_converter.py:24-25 | The reph substitution only reorders: the multiset of characters is unchanged. |
| FontConverter.ShortIPassKeepsCharacters | core/font_converter.py:28-29 | The short-i substitution only reorders: the multiset of characters is unchanged. |
| KrutidevProperties.RephPassWithoutRa | core/font_converter.py:24-25 | Text without `र` passes the reph substitution unchanged. |
| KrutidevProperties.ShortIPassWithoutSign | core/font_converter.py:28-29 | Text without `ि` passes the short-i substitution unchanged. |
| KrutidevProperties.RephRelocation | core/font_converter.py:24-25 | `र्` + cluster + optional matra + optional anusvara becomes cluster + matra + anusvara + `र्`. The scan then resumes after the match. |
| KrutidevProperties.ShortIRelocation | core/font_converter.py:28-29 | Cluster + `ि` becomes `ि` + cluster, half forms included, and the scan resumes after the match. |
| KrutidevProperties.RephPlacement | core/font_converter.py:24-92 | Take any consonant cluster `cl`, half forms included, whose `र`, if it has one, is its last consonant. Take a tail of an optional matra and an optional anusvara. Then `र्` + `cl` + tail converts to the conversion of `cl` + tail followed by `Z`. The reph pass moves `र्` behind the cluster and its tail, the entry at line 62 turns it into `Z`, and no later entry reaches across it. So `Z` is typed after the cluster's glyphs. |
| KrutidevProperties.ShortIPlacement | core/font_converter.py:28-92 | For any consonant cluster `cl` whose `र` is its last consonant if it has one, half forms included, `cl` + `ि` converts to `f` followed by the conversion of `cl` alone. The short-i pass moves `ि` in front of the cluster, and the entry at line 89 turns it into `f`, so `f` is typed before the cluster's glyphs. |
| KrutidevProperties.RephOverShortI | core/font_converter.py:24-92 | For such a cluster, `र्` + `cl` + `ि` converts to `f`, then the conversion of `cl`, then `Z`. The reph pass carries `ि` along with the cluster, the short-i pass moves it to the front, and the table leaves both marks outside the cluster's glyphs. |
| KrutidevProperties.TableBeforeReph | core/font_converter.py:34-92 | The table, run on text made only of consonants, viramas, vowel signs and anusvaras that does not end in a virama and is followed by `र्`, gives the table's output for that text followed by `Z`. No entry matches across the boundary. |
| KrutidevProperties.TableAfterShortI | core/font_converter.py:34-92 | The table, run on `ि` followed by any text, gives `f` followed by the table's output for that text. No entry matches across the boundary. |
| KrutidevProperties.PassesKeepCounts | core/font_converter.py:24-29 | Each character occurs as often after both passes as before. |
| KrutidevProperties.ConversionStages | core/font_converter.py:3-96 | A non-empty text goes through the two passes, the five punctuation groups and then the letter groups, in that order. |
| KrutidevProperties.SlashBecomesDivisionSlash | core/font_converter.py:45 | The output never contains `/`. It has one U+2215 for each `/` and each U+2215 of the input. |
| KrutidevProperties.DotsBecomeDotLeader | core/font_converter.py:43-44 | The output has one U+2024 for each `.`, `॰` and U+2024 of the input. |
| KrutidevProperties.DotOnlyFromNa | core/font_converter.py:43-44 | Without `ण` in the input, the output contains no `.`. The `ण्` and `ण` entries are the only ones that emit one. |
| KrutidevProperties.DigitsBecomeAscii | core/font_converter.py:51-52 | Devanagari digit k never survives. ASCII digit k occurs once for each ASCII k and each Devanagari k of the input. |
| KrutidevProperties.DevanagariDigitsNeverSurvive | core/font_converter.py:51-52 | No Devanagari digit occurs in any output. |
| KrutidevProperties.HalantNeverSurvives | core/font_converter.py:92 | The virama U+094D never occurs in the output. |
| KrutidevProperties.ShortISignNeverSurvives | core/font_converter.py:89 | The sign `ि` U+093F never occurs in the output. |
| KrutidevProperties.DandaNeverSurvives | core/font_converter.py:47 | The danda `।` never occurs in the output. |
| KrutidevProperties.NonDevanagariText | core/font_converter.py:34-49 | For text without Devanagari the output is the character-by-character image under `AsciiGlyph`, an independent list of the intended mappings. Straight quotes vanish, `([{` become `¼` and `)]}` become `½`, curly quotes become `^*Þß`, `.` `/` `:` become U+2024, U+2215 and `%`, and every other character is kept. |
| KrutidevProperties.PunctuationGlyph | core/font_converter.py:34-52 | For a character outside the Devanagari block, the first punctuation entry for it gives exactly `AsciiGlyph`. |
| KrutidevProperties.PunctuationNoFeed | core/font_converter.py:34-52 | No punctuation entry emits a character that a later punctuation entry matches. |
| KrutidevTable.ReplacementsNoShadow | core/font_converter.py:32-93 | No pattern of the table occurs inside a pattern listed after it. Conjuncts such as `क्ष`, `द्व`, `ग्र` are therefore rewritten before their parts. |
| KrutidevTable.LettersOrdered | core/font_converter.py:54-93 | The letter entries are pairwise different and listed longest first. |
| KrutidevTable.PunctuationOrdered | core/font_converter.py:34-52 | The punctuation and digit entries have pairwise different patterns, none longer than an earlier one. |
| KrutidevTable.LetterRulesInert | core/font_converter.py:54-93 | No rule of a list of letter rules can fire on text without Devanagari. The six letter groups of the table form such a list (`KrutidevTable.LettersAreLetterRules`). |
| KrutidevTable.LetterRulesNeverEmit | core/font_converter.py:54-93 | Letter rules emit only legacy-font keys: never Devanagari, `/`, an ASCII digit, U+2024 or U+2215. The six letter groups of the table are letter rules (`KrutidevTable.LettersAreLetterRules`). |
| KrutidevTable.LettersAreLetterRules | core/font_converter.py:54-93 | Every entry of the six letter groups has a non-empty pattern made of characters U+0901 to U+094D and a glyph made of legacy-font keys. A glyph holding `.` comes only from a pattern holding `ण`. |
| RuleTables.ApplyRulesAppend | core/font_converter.py:95-96 | Running the loop over `a + b` is running it over `a`, then over `b`. |
| RuleTables.ApplyFirstHit | core/font_converter.py:95-96 | Rules that cannot match may be skipped: the result is that of the first rule that can, followed by the rest. |
| RuleTables.ApplyErases | core/font_converter.py:95-96 | A rule that replaces character `d` by a glyph without `d`, with no later rule emitting `d`, leaves no `d` behind. |
| RuleTables.ApplySoleRule | core/font_converter.py:95-96 | When `d → e` is the only rule that mentions `d` or `e`, every `d` becomes an `e` and nothing else changes their counts. |
| RuleTables.ApplySingleCharwise | core/font_converter.py:95-96 | One-character rules act on a string character by character. |
| RuleTables.ApplyOneChar | core/font_converter.py:95-96 | On one character, one-character rules that never feed each other give the glyph of the first rule for it, or leave it alone. |
| RuleTables.ApplyBeforeForeign | core/font_converter.py:95-96 | A character that no pattern holds is never part of a match: it stays at the end of the text while the loop rewrites what comes before it. |
| RuleTables.ApplyAfterForeign | core/font_converter.py:95-96 | A character that no pattern holds stays at the front of the text while the loop rewrites what comes after it, as if it were not there. |
| RuleTables.ApplyBeforePair | core/font_converter.py:95-96 | Take rules whose patterns have at least two characters, hold `a` only right before `h`, and whose glyphs are non-empty and do not end in `h`. On a text that does not end in `h`, followed by `a h`, such rules leave the trailing pair untouched and rewrite only the text before it, which then still does not end in `h`. |
| ExcelDocument.MaxColumnsIsMaximum | core/excel_builder.py:32-37 | The width is at least 1, bounds the header count of every table that has headers, and equals 1 or one of those counts. |
| ExcelBuilder.ExcelBuilder.constructor | core/excel_builder.py:9-15 | A new builder holds a blank worksheet with the cursor on row 1. |
| ExcelBuilder.ExcelBuilder.GetMaxColumns | core/excel_builder.py:32-37 | The loop's result is the maximum width: at least 1 and at least every header count. |
| ExcelBuilder.ExcelBuilder.WriteMergedText | core/excel_builder.py:39-56 | Empty text leaves the state unchanged. Otherwise the text goes in column 1 of the cursor row, the row is merged over `max_cols` columns, its height is estimated, and the cursor moves down one row. |
| ExcelBuilder.ExcelBuilder.WriteHeaderRow | core/excel_builder.py:119-126 | The headers are written left to right as bold-by-default, bordered, filled size-11 cells. The cursor advances even with no headers. |
| ExcelBuilder.ExcelBuilder.WriteDataRow | core/excel_builder.py:128-142 | The values are written by position, with no check against the header count. The row height is 16 × the most estimated lines of any cell, and the cursor advances. |
| ExcelBuilder.ExcelBuilder.MergedCellsMap | core/excel_builder.py:59-63 | The loops collect exactly the cells covered by some merged range. |
| ExcelBuilder.ExcelBuilder.LongestInColumn | core/excel_builder.py:70-82 | The loop finds the longest line of any non-merged, non-empty cell of the column. |
| ExcelBuilder.ExcelBuilder.AutofitColumns | core/excel_builder.py:58-86 | Every column 1..`max_column` gets its clamped width; nothing else changes. |
| ExcelBuilder.ExcelBuilder.WriteSubtitles | core/excel_builder.py:105-110 | Each subtitle is written as a centred merged row, bold and size 12 by default. |
| ExcelBuilder.ExcelBuilder.WriteDataRows | core/excel_builder.py:128-142 | The data rows are written one per row, in order. |
| ExcelBuilder.ExcelBuilder.WriteTable | core/excel_builder.py:115-144 | A table is written as its title (when non-empty), a header row, its data rows, and one spacer row. |
| ExcelBuilder.ExcelBuilder.WriteTables | core/excel_builder.py:114-144 | The tables are written one after another, in order. |
| ExcelBuilder.ExcelBuilder.Build | core/excel_builder.py:25-163 | The document is the `document` entry that `load_data` returns (lines 25-30). A missing entry, or an empty document, changes nothing (lines 90-93). Otherwise the worksheet is the layout of the document written from the old state, then autofitted. |
| ExcelBuilder.LayoutInParts | core/excel_builder.py:98-158 | The layout is, in order: the main title, the subtitles, one spacer with the tables, and the footer. |
| ExcelBuilder.DataRowsAnyWidth | core/excel_builder.py:128-142 | Data rows do not depend on the document width. |
| LayoutProperties.MergedHeightAtLeastOneLine | core/excel_builder.py:51-55 | A merged row is at least 1.5 × font size high, and exactly that for one short line. |
| LayoutProperties.RowLinesIsMaximum | core/excel_builder.py:129-139 | A data row's line estimate is at least 1, bounds every cell's estimate, and equals 1 or one of them. |
| LayoutProperties.DataRowHeight | core/excel_builder.py:137-141 | A data row is at least 16 high, and at least 16 × each cell's line estimate. |
| LayoutProperties.ClampWidthBounds | core/excel_builder.py:85 | The width lies in [12, 45]. It is longest + 4 between the bounds, 12 below and 45 above. |
| LayoutProperties.AutofitWidths | core/excel_builder.py:58-86 | After autofit, every column 1..`max_column` has its clamped width in [12, 45]. Widths of other columns are kept. |
| LayoutProperties.ColumnLongestIsMaximum | core/excel_builder.py:72-82 | The column's longest line bounds every counted cell, and is 0 or attained by one of them. |
| LayoutProperties.MergedCellsIgnored | core/excel_builder.py:73-74 | Changing only cells inside merged ranges does not change a column's longest line. |
| LayoutProperties.CoveredCellsAreMerged | core/excel_builder.py:59-63 | A cell is in the merged map exactly when some merged range contains it. |
| LayoutProperties.SingleLineWidth | core/excel_builder.py:79-80 | The longest line of a value without newlines is its length. |
| LayoutProperties.FooterListAndString | core/excel_builder.py:146-153 | A list footer is one newline-joined, not-bold, size-11 row, and splitting that row at newlines gives the items back. A string footer is the same kind of row. |
| LayoutProperties.FooterObjectDefaults | core/excel_builder.py:146-158 | An object footer uses `is_bold=False` and `font_size=11` by default. A missing or empty `{}` footer writes no row. |
| LayoutProperties.StepPlacement | core/excel_builder.py:98-158 | A one-row step of the layout occupies row cursor + (rows before it), and that row holds exactly that step's cells. |
| LayoutProperties.StepPlacementHeight | core/excel_builder.py:98-158 | That row's height is exactly the height the step sets, or none. |
| LayoutProperties.StepPlacementMerges | core/excel_builder.py:98-158 | A text row is merged over 1..`max_cols`, and that is the only merged range touching its row. The row of any other kind of step touches no merged range. |
| LayoutProperties.TextRowsNeverWiden | core/excel_builder.py:58-86 | A merged text row (merged at line 44) contributes nothing to any column's width. |
| LayoutProperties.DataRowHeightAt | core/excel_builder.py:137-141 | In the finished worksheet a data row's height is 16 × its line estimate, hence at least 16. |
| LayoutProperties.TextRowHeightAt | core/excel_builder.py:51-55 | In the finished worksheet a merged row's height is its estimate, hence at least 1.5 × font size. |
| LayoutProperties.SpacerRowEmpty | core/excel_builder.py:112 | A spacer row, after the subtitles or after a table (line 144), has no cells and no height. |
| LayoutProperties.TextRowCells | core/excel_builder.py:43-47 | A merged text row holds one cell, in column 1, with the text and its style. |
| LayoutProperties.TableRowCount | core/excel_builder.py:114-144 | A table occupies (1 if it has a title) + 2 + (number of data rows) rows. |
| LayoutProperties.TablesRowCount | core/excel_builder.py:114-144 | The tables together occupy the sum of their row counts. |
| LayoutProperties.TitleOnFirstRow | core/excel_builder.py:98-103 | A non-empty main title is the only cell of row 1, centred, and merged over the document width. |
| LayoutProperties.SpacerAfterSubtitles | core/excel_builder.py:105-112 | The row after the subtitles is empty. |
| LayoutProperties.FooterOnLastRow | core/excel_builder.py:146-158 | A non-empty footer is the only cell of the last row, left-aligned, with every other cell above it. |
| FenceRegex.CleanerIsFencedOrWhole | core/ai_extractor.py:23-28 | The backtracking regex search equals a plain description: strip, find the first fence and the next one, drop an optional `json` tag in any case plus whitespace, strip. Without a fence the stripped input is returned. |
| FenceRegex.CleanedIsStripped | core/ai_extractor.py:24-28 | The cleaned text never starts or ends with whitespace. |
| FenceRegex.SearchWithBody | core/ai_extractor.py:25-27 | With an opening and a closing fence, the regex captures the stripped, untagged text between them. |
| FenceRegex.SearchWithoutBody | core/ai_extractor.py:25-28 | Without a fence pair the regex does not match. |
| AiExtractor.NewExtractor | core/ai_extractor.py:14-21 | Construction either keeps the chosen key and the model `gemini-2.5-flash`, or fails with the missing-key `ValueError`. |
| AiExtractor.KeyCheck | core/ai_extractor.py:15-18 | Construction succeeds exactly when the chosen key exists and is not all whitespace. A non-empty given key wins over the environment. A blank given key, or no key anywhere, fails. |
| AiExtractor.StripEmpty | core/ai_extractor.py:16 | `key.strip()` is empty exactly when the key is all whitespace. |
| AiExtractor.PromptSelection | core/ai_extractor.py:40-41 | The prompt starts with the prompt the flag selects, followed by the schema heading and the sample JSON. When neither prompt is a prefix of the other, it does not start with the other prompt. |
| AiExtractor.RemoveLookup | core/ai_extractor.py:63 | After `pop`, the key is absent and every other key keeps its value. |
| AiExtractor.AutoHealResult | core/ai_extractor.py:58-66 | A payload with `document` is returned unchanged. With a content key but no `document`, the payload is wrapped as `{recommended_filename: old value or "AI_Extracted_Report", document: the rest}`, without the filename inside. Otherwise the error text lists the keys found. |
| AiExtractor.AutoHealIdempotent | core/ai_extractor.py:58-69 | Healing a healed payload changes nothing, and a healed object always has `document`. |
| AiExtractor.ProcessErrors | core/ai_extractor.py:45-77 | `ValueError` leaves exactly when the reply is not JSON. A failed call or an unreadable object leaves as `RuntimeError` with the same text. Otherwise the result is the healed payload. |
| AiExtractor.ProcessedObjectHasDocument | core/ai_extractor.py:58-69 | When the reply decodes to an object, a successful result has `document`. |
| App.RemoveUnsafe | app.py:35 | The result contains none of `\ / * ? : " < > \|`. |
| App.RemoveUnsafeKeeps | app.py:35 | A character survives exactly when it was present and is safe. A safe name is unchanged. |
| App.ReplaceSpaces | app.py:36 | `replace(" ", "_")` keeps the length and changes only spaces. |
| App.SanitizeChars | app.py:34-36 | The result is the stripped safe name with spaces as `_`, cut at 50 characters. |
| App.SanitizeSafe | app.py:34-36 | The result has at most 50 characters, none of them unsafe and none a space. |
| App.SanitizeKeeps | app.py:34-36 | A name that is already safe, short, space-free and stripped is unchanged. |
| App.SanitizeStable | app.py:34-36 | Sanitising twice equals sanitising once, unless the cut at 50 leaves trailing whitespace. |
| App.WorkbookNames | app.py:94-95 | On both tabs (also lines 178-179) the name is `sanitize_filename(name) + ".xlsx"`, at most 55 characters long. Without `recommended_filename`, the tab's default is used. |
| App.ManualDefaultKept | app.py:94-95 | The manual default `Structured_Hindi_Report` survives sanitising unchanged. |
| App.ApiDefaultKept | app.py:178-179 | The API default `AI_Extracted_Report` survives sanitising unchanged. |
| App.HeaderPrefix | app.py:44-49 | Testing a signature of at most 4 bytes on the first 4 bytes is testing it on the whole content. |
| App.UploadClassification | app.py:39-58 | A file over 5,242,880 bytes is refused before its signature is read. Otherwise PDF, JPEG and PNG are each returned exactly when the content starts with their signature, and the signature `ValueError` is raised exactly when none matches. |
| App.LimitIsInclusive | app.py:41-42 | Exactly 5,242,880 bytes passes the size check; one byte more does not. |
| App.RateLimitClassification | app.py:207-221 | The rate-limit notice is shown exactly for a non-`ValueError` whose text contains `429` or `RESOURCE_EXHAUSTED`. A `ValueError` is shown directly, and the rest are shown as unexpected errors. |
| App.ExtractorErrorsShown | app.py:207-221 | A `RuntimeError` from the extractor is a rate limit exactly when its text says so. The extractor's `ValueError`s are shown directly. This describes the handlers as they would run if line 170 did not pass `progress_callback` (see App.UploadTabNeverExtracts). |
| App.ObjectRootKeys | app.py:91-95 | An object is refused with the tab's schema message exactly when it has neither `document` nor `pages`. Otherwise it gets its workbook name. |
| App.NoBuildWithoutRootKey | app.py:91-92 | A payload with neither root key never reaches the builder, on the manual tab and on the upload tab (lines 175-176). |
| App.ManualTabBlank | app.py:83-84 | The blank-paste warning appears exactly when the pasted text is all whitespace. |
| App.ManualTabBuilds | app.py:83-95 | The builder is reached only with a decoded object that has a root key, under its sanitised name, or `Structured_Hindi_Report.xlsx` by default. |
| App.ExtractedPassesRootCheck | app.py:175-179 | A successful extraction from an object reply always passes the API tab's root-key check and goes on to its workbook name. This describes lines 175-179 as they would run if line 170 did not pass `progress_callback` (see App.UploadTabNeverExtracts). |
| App.UploadTabNeverExtracts | app.py:150-170 | As written, pressing the extract button warns exactly when no file is uploaded. It reports the empty custom key exactly when a file is there, the toggle is on and nothing is typed. Past those guards, a file refused by `validate_security_and_size` at line 157 shows that check's `ValueError`. A file that passes shows the missing-key `ValueError` exactly when building the extractor at line 165 fails, and an unexpected error otherwise. The unexpected error happens because line 170 passes the keyword `progress_callback`, which `process_document` does not accept. The tab never shows the rate-limit notice, and never reaches the root-key check or the builder. |

## Left out

- The Gemini call, file reading, `json.loads`, the environment variable and
  the clock are not modelled. The model call and the decoder are function
  parameters. The environment key is an argument.
- The Streamlit page, the temporary directories, `json.dump`, the workbook
  save and the logger (`core/logger.py`) are not modelled. Nothing observable
  by the core depends on them.
- The prompt texts in `core/config.py` are not modelled. The prompt theorem
  holds for any two prompts and any sample JSON.
- AiExtractor.PromptSelection: the prefix test is modelled, but the
  substring test `x not in y` on the whole prompt is not. Whether one prompt
  text happens to occur inside the other depends on `core/config.py`.
- openpyxl is replaced by a value-level worksheet. Fonts, borders, fills and
  alignments are tags on the cell. The font name `Nirmala UI` is constant and
  is not recorded. openpyxl's check of every string written to a cell is
  not modelled either (next line).
- ExcelBuilder.ExcelBuilder.Build: the final state it describes assumes
  every cell value is stored as given. openpyxl raises
  `IllegalCharacterError` inside `build` on a value holding a control
  character such as U+000B, and cuts a value longer than 32,767 characters.
  The cut can change the autofit width of its column. For such values the
  model describes a state that openpyxl does not produce.
- Legacy-font routing in the builder (`use_legacy_font`, a `_get_font`
  helper) is not modelled. The builder in `core/excel_builder.py` has
  neither. `app.py` passes `use_legacy_font` and `legacy_font_name` to
  `ExcelBuilder` at lines 105-110 and 187-192, but that constructor only
  takes `json_path` and `output_path`. As written, the pasted-JSON tab
  therefore ends in a `TypeError` at line 105, after its checks pass. The
  upload tab never gets that far (next line).
- Multi-page extraction, the per-page placeholder and the progress callback
  are not modelled. `process_document` has none of them. `app.py:170`
  passes `progress_callback=`, which `process_document` does not accept, so
  every upload that passes the upload check and has a usable key ends there
  in Python's `TypeError`, shown as an unexpected error
  (`App.UploadTabNeverExtracts`).
- App.ExtractedPassesRootCheck: states lines 175-179 as they would run if
  line 170 did not pass `progress_callback`. As written they are never
  reached.
- App.ExtractorErrorsShown: states lines 207-221 for extractor errors as
  they would run if line 170 did not pass `progress_callback`. As written
  the only extractor error that reaches them is the missing-key
  `ValueError` of line 165.
- The values inside a document are already typed: strings, booleans and
  natural font sizes. A cell value is `str(value)`, taken as given. A JSON
  value of another type is not modelled. The builder writes some of those
  without raising: the `enumerate` at `core/excel_builder.py:130` writes a
  row given as a string one character per cell, and a row given as an
  object one key per cell. On others it raises, for example on a number
  where a list or an object is expected. Float font sizes are not modelled
  either.
- A `document` of JSON `null` is modelled as absent. Both are falsy, so
  `build` returns early either way.
- AiExtractor.ProcessErrors: `PythonRuntimeError` stands for Python's own
  exception text. An example is the `TypeError` of `"document" in 5`, or a
  reply whose `response.text` is `None`. Those texts are not modelled, and
  neither is whether they mention `429`.
- App.RateLimitClassification: `RaisedByPython` likewise stands for an
  exception raised by Python itself, shown as an unexpected error without
  its text.
- AiExtractor.AutoHealResult: JSON objects are association lists and
  `Lookup` takes the first binding. `json.loads` keeps the last of duplicate
  keys, so a decoder handing over duplicates is outside the model.
- AiExtractor.KeysText: each key in the error text is written between
  single quotes exactly as it is. Python's `repr` differs for some keys. It
  puts a key holding a single quote and no double quote between double
  quotes, and escapes the single quote only when the key holds both. It
  doubles a backslash, and escapes control and other non-printable
  characters. For such keys the model's error text differs from Python's.
- Python's regular-expression engine in general is not modelled. The two
  font passes and the fence cleaner are modelled as the specific scanners
  their patterns denote. The font passes never backtrack into a different
  match, because a cluster, matra and anusvara cannot overlap.
- Writing the upload to a temporary file (`app.py:159-162`) is not
  modelled. The model passes the upload's size and bytes straight on.
- KrutidevProperties.RephPlacement: a cluster with `र` before its last
  consonant is not covered. The reph pass then moves only the outer `र्`,
  and the match resumes after the tail, so the inner `र्` is converted where
  it stands. For example, `र्र्क` converts to `ZdZ`, not to the conversion
  of `र्क` followed by `Z`.
- KrutidevProperties.ShortIPlacement: a cluster with `र` before its last
  consonant is not covered. The reph pass rewrites such a cluster and its
  `ि` before the short-i pass sees them, and the lemma does not follow that
  case.
- The spelling-fix pass in `core/font_converter.py:9-14` is commented out in
  the source and is not modelled.

## Notes on the code

- The replacement table lists quotes, brackets, punctuation and digits first
  (`core/font_converter.py:34-52`). Then come the conjuncts, half forms,
  full consonants, vowels and matras. The table lemmas are about that order.
- The builder reads only `document` (`core/excel_builder.py:30`). On the
  pasted-JSON tab a `pages`-only payload passes the root-key check. As
  written, the tab then raises `TypeError` at line 105 (see "## Left out").
  If line 105 did not raise, `build` would return before writing anything
  (`ExcelBuilder.ExcelBuilder.Build`, first clause). The extractor never passes such a payload on. It finds
  neither `document` nor a content key, and raises the unreadable-structure
  error (`AiExtractor.AutoHealResult`).
- `process_document` makes one call with no retry
  (`core/ai_extractor.py:45-77`). It maps every failure to `ValueError` or
  `RuntimeError` (`AiExtractor.ProcessErrors`).
- A payload with `tables` but neither `document` nor `pages` fails the
  manual tab's schema check (`App.ObjectRootKeys`). The extractor would wrap such a payload
  under `document`, so that it passes the upload tab's check
  (`App.ExtractedPassesRootCheck`). As written, though, the upload tab stops
  at line 170 before anything is extracted (`App.UploadTabNeverExtracts`).
