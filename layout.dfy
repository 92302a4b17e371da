/** What the report draws, as a sequence of events in drawing order. */
module Layout {
  import opened Opt
  import opened Decimal
  import opened Rows
  import opened Grouping
  import opened Substring
  import opened Summary

  /** One drawn cell: its text, its width in page units and whether it has a border. */
  datatype Cell = Cell(text: string, width: nat, border: bool)

  datatype Event =
      /** A new page, headed "Nº Albarán: <albaran>" under the logo. */
    | PageStart(albaran: string)
      /** The shaded color heading, whose text is `SubtitleText(color, total)`. */
    | Subtitle(color: string, total: int)
      /** A vertical gap of the given height. */
    | Gap(height: nat)
      /** One body line: the table cells of a row (or blank ones), drawn bold or not
          as the font then in effect is, a fixed spacer, and a summary line (or a bare
          line break). */
    | Line(left: Option<Row>, leftBold: bool, right: Option<SummaryLine>)

  /** Widths of the left-hand table's columns: code, size, quantity, transfer, blank. */
  const ColumnWidths: seq<nat> := [30, 20, 30, 30, 20]
  /** Width of the blank cell between the table and the summary column. */
  const SpacerWidth: nat := 10

  function Max(a: int, b: int): int { if a < b then b else a }

  /** `str()` of a text cell: an empty cell (NaN) prints as "nan". */
  function FieldText(f: Field): string
  {
    match f
    case None => "nan"
    case Some(s) => s
  }

  /** The left-hand cells of a body line: a bordered cell per column for a data row,
      blank borderless cells of the same widths otherwise. */
  function LeftCells(left: Option<Row>): (cells: seq<Cell>)
    ensures |cells| == |ColumnWidths|
    ensures forall i :: 0 <= i < |cells| ==> cells[i].width == ColumnWidths[i] && cells[i].border == left.Some?
    ensures left == None ==> forall i :: 0 <= i < |cells| ==> cells[i].text == ""
  {
    match left
    case Some(r) =>
      [Cell(FieldText(r.code), 30, true), Cell(FieldText(r.size), 20, true),
       Cell(Show(r.delivered), 30, true), Cell(FieldText(r.transfer), 30, true), Cell("", 20, true)]
    case None =>
      seq(5, i requires 0 <= i < 5 => Cell("", ColumnWidths[i], false))
  }

  /** Text of a color heading. */
  function SubtitleText(color: string, total: int): string
  {
    "Color: " + color + " – Total unidades: " + Show(total)
  }

  /** The total can be read back from the end of a color heading. */
  lemma {:induction false} SubtitleShowsTotal(color: string, total: int)
    ensures var text := SubtitleText(color, total);
            |Show(total)| <= |text| && ParseNumber(text[|text| - |Show(total)|..]) == Some(total)
  {
    var text := SubtitleText(color, total);
    var prefix := "Color: " + color + " – Total unidades: ";
    assert text == prefix + Show(total);
    assert text[|prefix|..] == Show(total);
    ParseShow(total);
  }

  /** The cells an event draws, left to right; a width of 0 reaches the right margin. A
      new page draws its header cell (the logo beside it is an image, not a cell), and
      a gap draws none. */
  function Cells(e: Event): seq<Cell>
  {
    match e
    case PageStart(albaran) => [Cell("Nº Albarán: " + albaran, 0, false)]
    case Subtitle(color, total) => [Cell(SubtitleText(color, total), 0, false)]
    case Gap(_) => []
    case Line(left, _, right) =>
      LeftCells(left) + [Cell("", SpacerWidth, false)]
      + (if right.Some? then [Cell(right.value.text, 0, false)] else [])
  }

  function Rest<T>(s: seq<T>): seq<T>
  {
    if s == [] then [] else s[1..]
  }

  function Min(a: int, b: int): int { if a < b then a else b }

  /** Whether the font is bold once the given summary lines have been printed, each in
      its own font, starting from a font that is bold iff `bold`. */
  function FontAfter(text: seq<string>, bold: bool): bool
  {
    if text == [] then bold else Styled(text[|text| - 1]).bold
  }

  /** Body line `i`: data row `i` if there is one, in the font the summary lines above
      it left in effect; then summary line `i` if there is one. */
  function LineAt(data: seq<Row>, text: seq<string>, bold: bool, i: nat): Event
  {
    Line(if i < |data| then Some(data[i]) else None,
         FontAfter(text[..Min(i, |text|)], bold),
         if i < |text| then Some(Styled(text[i])) else None)
  }

  /** Pairs the rows with the summary lines by position, until both are used up; each
      summary line sets the font the next line's table cells are drawn in, and `bold`
      is the font in effect before the first line. */
  function ZipLongest(data: seq<Row>, text: seq<string>, bold: bool): (r: seq<Event>)
    ensures |r| == Max(|data|, |text|)
    ensures forall i :: 0 <= i < |r| ==> r[i] == LineAt(data, text, bold, i)
    decreases |data| + |text|
  {
    if data == [] && text == [] then []
    else
      var next := if text == [] then bold else Styled(text[0]).bold;
      var r := [LineAt(data, text, bold, 0)] + ZipLongest(Rest(data), Rest(text), next);
      assert forall i :: 1 <= i < |r| ==> r[i] == LineAt(data, text, bold, i) by {
        forall i | 1 <= i < |r| ensures r[i] == LineAt(data, text, bold, i) {
          LineAtRest(data, text, bold, i);
        }
      }
      r
  }

  /** Line `i` of a zip is line `i - 1` of the zip of the rests, begun in the font the
      first summary line sets. */
  lemma {:induction false} LineAtRest(data: seq<Row>, text: seq<string>, bold: bool, i: nat)
    requires 1 <= i
    ensures LineAt(Rest(data), Rest(text), if text == [] then bold else Styled(text[0]).bold, i - 1)
            == LineAt(data, text, bold, i)
  {
    var next := if text == [] then bold else Styled(text[0]).bold;
    var before := text[..Min(i, |text|)];
    var restBefore := Rest(text)[..Min(i - 1, |Rest(text)|)];
    assert FontAfter(restBefore, next) == FontAfter(before, bold) by {
      if text != [] {
        assert |restBefore| == |before| - 1;
        if restBefore != [] {
          assert restBefore[|restBefore| - 1] == before[|before| - 1];
        }
      }
    }
  }

  /** Drawing line `i` after lines `0` to `i - 1` extends the drawing by one line. */
  lemma {:induction false} ZipLongestPrefix(before: seq<Event>, data: seq<Row>, text: seq<string>, bold: bool, i: nat)
    requires i < Max(|data|, |text|)
    ensures before + ZipLongest(data, text, bold)[..i] + [LineAt(data, text, bold, i)]
            == before + ZipLongest(data, text, bold)[..i + 1]
  {
    var z := ZipLongest(data, text, bold);
    assert z[..i + 1] == z[..i] + [z[i]];
  }

  /** The lines of one body: its rows beside its summary column, the first row in the
      regular font the body starts with. */
  function BodyEvents(data: seq<Row>): seq<Event>
  {
    ZipLongest(data, SummaryText(data), false)
  }

  /** The data rows drawn by a sequence of events, in drawing order. */
  function RowsOf(events: seq<Event>): seq<Row>
  {
    if events == [] then []
    else (if events[0].Line? && events[0].left.Some? then [events[0].left.value] else [])
         + RowsOf(events[1..])
  }

  lemma {:induction false} RowsOfAppend(a: seq<Event>, b: seq<Event>)
    ensures RowsOf(a + b) == RowsOf(a) + RowsOf(b)
  {
    if a == [] {
      assert a + b == b;
    } else {
      assert (a + b)[1..] == a[1..] + b;
      RowsOfAppend(a[1..], b);
    }
  }

  /** A body draws each of its rows once, in order, and nothing but lines. */
  lemma {:induction false} ZipLongestRows(data: seq<Row>, text: seq<string>, bold: bool)
    ensures RowsOf(ZipLongest(data, text, bold)) == data
    decreases |data| + |text|
  {
    if data != [] || text != [] {
      var next := if text == [] then bold else Styled(text[0]).bold;
      ZipLongestRows(Rest(data), Rest(text), next);
      var z := ZipLongest(data, text, bold);
      assert z[1..] == ZipLongest(Rest(data), Rest(text), next);
      if data != [] {
        assert data == [data[0]] + data[1..];
      }
    }
  }

  lemma {:induction false} BodyRows(data: seq<Row>)
    ensures RowsOf(BodyEvents(data)) == data
    ensures forall i :: 0 <= i < |BodyEvents(data)| ==> BodyEvents(data)[i].Line?
  {
    ZipLongestRows(data, SummaryText(data), false);
  }

  /** The table cells of body line `i` are drawn in the font of summary line `i - 1`,
      or of the last summary line once the column has run out; those of line 0 in the
      regular font the body starts with. */
  lemma {:induction false} BodyLeftFont(data: seq<Row>, i: int)
    requires 0 <= i < |BodyEvents(data)|
    ensures var text := SummaryText(data);
            var m := Min(i, |text|);
            BodyEvents(data)[i].leftBold == (m > 0 && Styled(text[m - 1]).bold)
  {
    var text := SummaryText(data);
    var m := Min(i, |text|);
    assert BodyEvents(data)[i] == LineAt(data, text, false, i);
    if m > 0 {
      assert text[..m][m - 1] == text[m - 1];
    }
  }

  /** The first row of a body is drawn in the regular font, but the second, after the
      size heading, and the one after the transfer heading are drawn bold. */
  lemma {:induction false} BodyBoldRows(data: seq<Row>)
    ensures var body := BodyEvents(data);
            var k := 2 + |Keys(data, Size)|;
            |body| >= 2 && !body[0].leftBold && body[1].leftBold
            && (k < |body| ==> body[k].leftBold)
  {
    var text := SummaryText(data);
    var k := 2 + |Keys(data, Size)|;
    assert |text| >= k && text[0] == SizeHeading && text[k - 1] == TransferHeading by {
      SummaryLayout(data);
    }
    HeadingsBold();
    BodyLeftFont(data, 0);
    BodyLeftFont(data, 1);
    if k < |BodyEvents(data)| {
      BodyLeftFont(data, k);
    }
  }

  /** The cells of body line `i`: the code, size, quantity and transfer key of row `i`
      in bordered cells and a blank bordered one, or five blank borderless cells past
      the last row; the spacer; and summary line `i` when the column reaches it. */
  lemma {:induction false} BodyCells(data: seq<Row>, i: int)
    requires 0 <= i < |BodyEvents(data)|
    ensures var text := SummaryText(data);
            var cells := Cells(BodyEvents(data)[i]);
            |cells| == (if i < |text| then 7 else 6)
            && (forall j :: 0 <= j < 5 ==> cells[j].width == ColumnWidths[j] && cells[j].border == (i < |data|))
            && (i < |data| ==> cells[0].text == FieldText(data[i].code)
                               && cells[1].text == FieldText(data[i].size)
                               && cells[2].text == Show(data[i].delivered)
                               && cells[3].text == FieldText(data[i].transfer)
                               && cells[4].text == "")
            && (i >= |data| ==> forall j :: 0 <= j < 5 ==> cells[j].text == "")
            && cells[5] == Cell("", SpacerWidth, false)
            && (i < |text| ==> cells[6] == Cell(text[i], 0, false))
  {
    ZipCells(data, SummaryText(data), false, i);
  }

  /** `BodyCells` for any column and starting font. */
  lemma {:induction false} ZipCells(data: seq<Row>, text: seq<string>, bold: bool, i: int)
    requires 0 <= i < |ZipLongest(data, text, bold)|
    ensures var cells := Cells(ZipLongest(data, text, bold)[i]);
            |cells| == (if i < |text| then 7 else 6)
            && (forall j :: 0 <= j < 5 ==> cells[j].width == ColumnWidths[j] && cells[j].border == (i < |data|))
            && (i < |data| ==> cells[0].text == FieldText(data[i].code)
                               && cells[1].text == FieldText(data[i].size)
                               && cells[2].text == Show(data[i].delivered)
                               && cells[3].text == FieldText(data[i].transfer)
                               && cells[4].text == "")
            && (i >= |data| ==> forall j :: 0 <= j < 5 ==> cells[j].text == "")
            && cells[5] == Cell("", SpacerWidth, false)
            && (i < |text| ==> cells[6] == Cell(text[i], 0, false))
  {
    var e := ZipLongest(data, text, bold)[i];
    assert e == LineAt(data, text, bold, i);
    LineCells(e);
  }

  /** A body line draws its five table cells, the spacer, and its summary line if any. */
  lemma {:induction false} LineCells(e: Event)
    requires e.Line?
    ensures var cells := Cells(e);
            |cells| == (if e.right.Some? then 7 else 6)
            && (forall j :: 0 <= j < 5 ==> cells[j] == LeftCells(e.left)[j])
            && cells[5] == Cell("", SpacerWidth, false)
            && (e.right.Some? ==> cells[6] == Cell(e.right.value.text, 0, false))
  {
    var cells := Cells(e);
    var lc := LeftCells(e.left);
    assert cells[..5] == lc;
  }
}
