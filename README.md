# ALBATRON report model

ALBATRON turns a tab-separated delivery manifest into a PDF report. Each manifest row has
six columns: Código, NºAlbarán, Talla, Entregadas, Color and ClaveCriterioX. This project
models the part of `app.py` that decides what the report shows:

- the conversion of the quantity column (Entregadas) to integers;
- the sort by color and transfer key;
- the nested grouping by delivery note (albarán), color and transfer key;
- the color headings with their unit totals;
- the body drawn per transfer group: the group's rows on the left, and on the right a
  summary column of per-size and per-transfer totals, line by line.

The PDF is modelled as the sequence of things drawn, in order (`Layout.Event`):

- `PageStart(albaran)`: a new page whose header shows the delivery note;
- `Subtitle(color, total)`: the shaded color heading;
- `Gap(h)`: a line break of height `h`;
- `Line(left, leftBold, right)`: one body line, with a data row or blank cells on the
  left, drawn in the bold font or not, and a summary line with its boldness, or a bare
  line break, on the right.

`Layout.Cells` lists the cells each event draws. Cells are `Option<string>`, where `None`
is a cell the CSV reader turns into NaN: an empty cell, or one holding one of the
reader's missing-value markers ("NA", "N/A", "NULL", "NaN", "#N/A" and the like). A
groupby drops rows whose key is NaN. Python's `str()` of NaN is `"nan"`, and the body
table prints it that way.

The model is in two layers:

- **Pure layer.** Functions state what the report is: `Pipeline.Report`, `Pipeline.Render`,
  `Summary.SummaryColumn` and `Layout.ZipLongest`.
- **Imperative layer.** It follows the program's loops:
  - `ReportDocument.ReportPdf` is a class with the document's state: the delivery-note
    number, what has been drawn so far, and whether the current font is bold. Its
    drawing methods append to that state.
  - `Summary.BuildSummary` builds the summary column by appending.
  - `ReportDocument.ReportPdf.DrawLines` steps the line index up to `max(N, M)`.
  - The nested loops of the top-level pipeline are `Pipeline.DrawPage`,
    `Pipeline.DrawColors` and `Pipeline.DrawTransfers`, and `Pipeline.GenerateReport`
    runs the whole program.

  Each method is proved to draw exactly what the pure layer says.

Details of `app.py` that the model keeps:

- The body routine runs once per transfer group of a color (lines 87-92). So each
  summary column covers one transfer key, and consecutive bodies are separated by two
  gaps of 8.
- The quantity cast has no range check (line 73), so negative quantities pass through
  unchanged.
- The headings are the literals "Resumen por Talla:" and "Resumen por Transfer:" (lines
  31 and 35), and a transfer line reads "Transfer T1: 3" (line 37). Size keys come from a
  groupby, which sorts them, so size L is listed before M.
- A summary line is bold exactly when it contains "Resumen" (lines 56-59). Any size or
  transfer key containing that word is bold too.
- The font set for summary line i stays in effect while the table cells of line i + 1
  are drawn (lines 45-59). Only the first row of a body is in the regular font set at
  line 27. The second row follows the size heading and is bold, and so is the row
  beside the line after the transfer heading.
- A row with an empty transfer key is counted in its color's heading total (line 84) but
  reaches no body, because the transfer groupby drops it (line 87).
- A row with an empty size is drawn in its body with size "nan". It is left out of the
  per-size table (line 29).

## Model

| member | source | states |
|---|---|---|
| Rows.Normalize | app.py:73 | Every row keeps all its columns except the quantity, which is replaced by its converted value; the row count is unchanged. |
| Rows.CoerceShown | app.py:73 | A quantity cell holding the decimal text of any integer converts to that integer, negative ones included (nothing clamps to zero). |
| Rows.CoerceFallback | app.py:73 | An empty quantity cell converts to 0, and so does a text with a character other than a digit, a single '.' and a leading sign, or with no digit. |
| Rows.CoerceExamples | app.py:73 | "bad" converts to 0, "3.5" to 3 (the cast to int truncates) and "-4" to -4. |
| Decimal.ParseUnsignedDefined | app.py:73 | An unsigned text reads as a number exactly when it has only digits and '.', no two '.', and some digit. |
| Decimal.ParseNumberDefined | app.py:73 | A text reads as a number exactly when it is such a numeral, possibly after one leading '+' or '-'. |
| Decimal.ParseShow | app.py:73 | Reading back the decimal text of any integer gives that integer. |
| Decimal.ParseTruncates | app.py:73 | A numeral with a fractional part reads as its whole part, truncated toward zero for negative numbers as well. |
| Sorting.SortPermutation | app.py:75 | The sorted frame holds the same rows, each as many times as before. |
| Sorting.SortSorted | app.py:75 | The sorted frame ascends by color, then by transfer key, with empty cells last. |
| Sorting.SortStable | app.py:75 | Rows with the same color and transfer key keep their input order. |
| Grouping.Keys | app.py:80 | The groupby keys ascend strictly and are exactly the keys that have a non-empty group. |
| Grouping.Select | app.py:83 | A group holds only rows with its key, and no more rows than the frame. |
| Grouping.KeysPermutation | app.py:80-87 | Reordering the rows does not change which groups a groupby yields, nor their order. |
| Grouping.SelectPermutation | app.py:80-87 | Reordering the rows reorders each group's rows the same way. |
| Grouping.SumQtyPermutation | app.py:84 | A sum of quantities does not depend on the order of the rows. |
| Grouping.SelectCount | app.py:80-87 | A group holds each row with its key exactly as often as the frame does, and no other row. |
| Grouping.PresentAbsentSum | app.py:84 | Rows with a filled key and rows with an empty key together sum to the frame's total. |
| Grouping.TotalsPartition | app.py:29-30 | The per-key sums of a groupby, plus the sum of the rows whose key is empty, equal the frame's total. |
| Grouping.KeysOfGroup | app.py:87 | Grouping a group again by its own key yields that key alone. |
| Grouping.SelectCommute | app.py:80-87 | Selecting by one column and then by another gives the same rows as the other order. |
| Summary.BuildSummary | app.py:32-37 | Appending the heading, the size lines, the transfer heading and the transfer lines yields the summary column. |
| Summary.ColumnLayout | app.py:32-37 | The column has 2 + sizes + transfers lines: the size heading first, line 1+i for size entry i, the transfer heading, then line 2+sizes+i for transfer entry i. |
| Summary.SummaryLayout | app.py:29-37 | A body's column has two headings plus one line per distinct size and one per distinct transfer key of its rows. |
| Summary.SizeLineAt | app.py:29-34 | Line 1+i of a body's column reads "<size>: <units>" for the i-th smallest size and the units of that size's rows. |
| Summary.TransferLineAt | app.py:30-37 | The line after the transfer heading at offset i reads "Transfer <key>: <units>" for the i-th smallest transfer key and the units of that key's rows. |
| Summary.HeadingsBold | app.py:56-58 | Both headings are printed bold. |
| Summary.SizeLineBold | app.py:56-60 | A size line is bold exactly when its size contains "Resumen". |
| Summary.TransferLineBold | app.py:56-60 | A transfer line is bold exactly when its transfer key contains "Resumen". |
| Summary.ColumnBold | app.py:56-61 | Line i of a column is bold exactly when it is a heading or the key it reports contains "Resumen". |
| Summary.SummaryBold | app.py:56-61 | The same for a body's own column, in terms of its size and transfer keys. |
| Summary.SingleTransferSummary | app.py:29-37 | A body that receives one transfer group has exactly one transfer line, for that key with the group's total. Its size lines add up to the same total, less the rows whose size is empty. |
| Layout.LeftCells | app.py:43-52 | A data row gives five bordered cells of widths 30, 20, 30, 30 and 20. A missing row gives five blank borderless cells of the same widths. |
| Layout.SubtitleShowsTotal | app.py:22 | The color heading's text ends with the decimal text of the total, which reads back as that total. |
| Layout.ZipLongest | app.py:39-63 | A body has max(N, M) lines. Line i holds data row i exactly when i < N, and summary line i (with its boldness) exactly when i < M. Its table cells are in the font of summary line i - 1, or of the last one past the column's end; line 0 keeps the starting font. |
| Layout.BodyLeftFont | app.py:27-60 | The table cells of a body's line i are bold exactly when i > 0 and the summary line above (the last one, past the column's end) is bold. |
| Layout.BodyBoldRows | app.py:27-60 | A body's first row is drawn regular, its second row bold, and the row after the transfer heading bold. |
| Layout.BodyCells | app.py:41-61 | Body line i draws code, size, quantity and transfer key of row i and a blank cell, all bordered, or five blank borderless cells past the last row; then a 10-wide spacer; then summary line i if the column reaches it. |
| Layout.LineCells | app.py:41-61 | A body line draws its five table cells, the spacer, and its summary line when it has one. |
| Layout.BodyRows | app.py:41-48 | A body draws its rows once each, in group order, and nothing but lines. |
| ReportDocument.ReportPdf.constructor | app.py:77 | A new document has drawn nothing, has no delivery note set, and no bold font. |
| ReportDocument.ReportPdf.AddPage | app.py:11-17 | A new page whose header shows the current delivery note, in a bold font that stays in effect; the note must be set first. |
| ReportDocument.ReportPdf.Ln | app.py:90-91 | Draws a gap of the given height and changes nothing else. |
| ReportDocument.ReportPdf.ChapterSubtitle | app.py:19-24 | Draws the color heading with its total in a bold font, then a gap of 2. |
| ReportDocument.ReportPdf.ChapterBodyWithRightSummary | app.py:26-63 | Starts from the regular font and draws the body of a group: its rows beside the summary column of its own per-size and per-transfer sums; the last summary line's font stays in effect. |
| ReportDocument.ReportPdf.DrawLines | app.py:39-63 | The line loop draws exactly the interleaving of rows and summary lines that `ZipLongest` describes, each row in the font the summary line above it set, and ends in the last summary line's font. |
| Pipeline.DrawTransfers | app.py:87-92 | Draws one body per transfer key of a color group, in key order, with two gaps of 8 before every body but the first. |
| Pipeline.DrawColors | app.py:83-92 | Draws, for each color of a delivery note in key order, its heading with the color's total, then its bodies. |
| Pipeline.DrawPage | app.py:80-92 | Sets the delivery note, opens its page and draws its colors. |
| Pipeline.GenerateReport | app.py:73-92 | The whole program draws exactly `Report(raw)`: convert, sort, then one page per delivery note. |
| ReportProperties.PlacedCount | app.py:80-87 | A row survives the three groupbys exactly when its delivery note, color and transfer key are all filled. |
| ReportProperties.TransferBodiesRows | app.py:87-92 | The bodies of a color draw exactly the rows of its transfer groups, each once. |
| ReportProperties.ColorSectionRows | app.py:83-92 | A color section draws exactly the rows of its group that have a transfer key. |
| ReportProperties.PageRows | app.py:80-92 | A page draws exactly its delivery note's rows that have a color and a transfer key. |
| ReportProperties.RenderRows | app.py:80-92 | The report draws exactly the rows whose delivery note, color and transfer key are filled, each once. |
| ReportProperties.ReportRows | app.py:73-92 | Each manifest row is drawn exactly as many times as it occurs if those three keys are filled, and never otherwise. |
| ReportProperties.RenderSame | app.py:75-92 | Two frames with the same rows, and the same order within each color and transfer bucket, draw the same report. |
| ReportProperties.SortInvisible | app.py:75 | Sorting by color and transfer key before grouping changes nothing in the report. |
| ReportProperties.BodyShape | app.py:39-63 | A body has at least its two heading lines and holds nothing but lines. |
| ReportProperties.TransferBodiesShape | app.py:88-92 | The bodies of a color open no page and draw no heading. They begin and end with a line. Two gaps of 8 fall between consecutive bodies and none before the first. |
| ReportProperties.ColorSectionShape | app.py:84-85 | A color section draws one heading, its own, with the color's total, and opens no page. |
| ReportProperties.ColorSectionsShape | app.py:83-85 | The headings of a delivery note come in ascending color order, each with its color's total, and no page is opened among them. |
| ReportProperties.PageShape | app.py:80-85 | A page opens once, with its own delivery note first, then heads its colors in ascending order. |
| ReportProperties.PagesShape | app.py:80-82 | The pages open in the order of the delivery notes given. |
| ReportProperties.RenderPages | app.py:80-82 | The report opens one page per delivery note that has rows, in ascending order, and starts with a page. |
| ReportProperties.HeadingTotal | app.py:84-92 | A color heading's total equals the units drawn under it plus those of the color's rows without a transfer key. It also equals the sum of the color's transfer totals plus those same rows. |
| ReportProperties.MissingTransferRender | app.py:84-87 | A lone row with no transfer key gets its page and its color heading with its units, but no body. |
| ReportProperties.TransferOrder | app.py:87-92 | The rows drawn for a list of ascending transfer keys come in ascending key order, each key's rows in group order. |
| ReportProperties.ColorSectionOrder | app.py:87-92 | Under a color heading the rows come in ascending transfer-key order, and each transfer key's rows in frame order. |
| ReportProperties.SingleGroupRender | app.py:80-92 | Rows that all share one delivery note, color and transfer key draw one page, one heading with their total, a gap of 2, and one body. |
| ReportProperties.PairSizeTotals | app.py:29-34 | With two rows of different sizes, the size table lists the smaller size first, each with its row's units. |
| ReportProperties.PairGroup | app.py:80-92 | Two rows sharing a delivery note, color and transfer key draw as one page and one body, and their transfer table holds that key with their total. |
| ReportProperties.TwoRowExample | app.py:73-92 | Two manifest rows of note D1, color Red and transfer T1, with sizes M and L and quantities "3" and an unreadable one, draw one page and a heading with total 3. Their size table is [L: 0, M: 3] and their transfer table is [T1: 3]. |

## Left out

- The Streamlit page, file upload, success and error messages and download button
  (app.py:8, 65-68, 97-103) are user interface and I/O.
- Reading the tab-separated file and renaming its columns (app.py:70-72) is a library
  parser. The model starts from rows already split into six text cells. Every cell the
  reader turns into NaN is `None`: an empty cell, and also one written as a missing-value
  marker such as "NA", "N/A", "NULL", "NaN" or "#N/A". So a size written "N/A" prints as
  "nan", and a transfer key written "NA" is dropped by the groupby like an empty one.
- Font families and sizes, fill colours, the logo image and the header's cell geometry
  (app.py:12-17, 20-21) are foreign drawing calls. The model keeps only whether the
  current font is bold. `PageStart` stands for the header.
- The automatic page break (app.py:78) depends on page geometry. A body that overflows a
  page therefore stays on one page in the model, and the header drawn on a break is not
  modelled.
- The latin1 byte output (app.py:94-95) is encoding and I/O. Two consequences follow
  from the PDF library's text; neither was executed, and neither is modelled:
  - The color heading's en dash (U+2013, app.py:22) is outside latin-1, so the encoding
    most likely fails for every report that has a color heading.
  - A manifest with no filled delivery note draws no page. The library's `output` then
    adds a page of its own, whose header reads `albaran_number`, which was never set.
- The top-level exception handler (app.py:104-105) is left out, together with the
  failures it catches. Those come from steps outside the model: the cast of a
  non-finite quantity at line 73 (see `Rows.CoerceQuantity` below) and the output step
  above.
- Rows.CoerceQuantity: reads only decimal numerals with an optional sign and at most one
  '.', so it differs from pandas' numeric conversion in these ways:
  - pandas reads "inf", "-inf" and "infinity" as infinite values. The cast to int at
    line 73 then raises, and the program shows its error message instead of a report.
    The model gives 0 for these texts.
  - pandas reads exponents ("1e3" as 1000) and texts with surrounding whitespace. The
    model gives 0 for them.
  - A column that holds a fraction, a blank or an unreadable cell is converted through
    64-bit floats. A fraction is rounded to the nearest float before the cast truncates
    it, so "2.99999999999999999999" becomes 3 where the model gives 2. Integers beyond
    2^53 in such a column lose their low digits.
  - The 64-bit range of the cast is not modelled.
- Decimal.ParseTruncates: holds for the program only to double precision, because
  pandas rounds the numeral to a 64-bit float before the cast truncates it.
- Grouping.SumQty: sums are unbounded integers, while pandas sums in 64-bit integers and
  would wrap on overflow.
