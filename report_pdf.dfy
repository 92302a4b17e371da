/** The report document: the page renderer extended with the report's own drawing
    routines. Its state is the delivery-note number shown in page headers and what
    has been drawn so far, and whether the current font is bold. */
module ReportDocument {
  import opened Opt
  import opened Rows
  import opened Grouping
  import opened Summary
  import opened Layout

  class ReportPdf {
    /** The delivery note the page header shows; set before each new page. */
    var albaranNumber: Option<string>
    /** Everything drawn so far, in order. */
    var events: seq<Event>
    /** Whether the font set last is a bold one; cells are drawn in it. */
    var bold: bool

    constructor ()
      ensures albaranNumber == None && events == [] && !bold
    {
      albaranNumber := None;
      events := [];
      bold := false;
    }

    /** Starts a page; its header shows the current delivery note (reading it
        before one is set would fail) in a bold font, which stays in effect. */
    method AddPage()
      requires albaranNumber.Some?
      modifies this
      ensures albaranNumber == old(albaranNumber)
      ensures events == old(events) + [PageStart(albaranNumber.value)]
      ensures bold
    {
      events := events + [PageStart(albaranNumber.value)];
      bold := true;
    }

    /** A line break of the given height. */
    method Ln(height: nat)
      modifies this
      ensures albaranNumber == old(albaranNumber)
      ensures events == old(events) + [Gap(height)]
      ensures bold == old(bold)
    {
      events := events + [Gap(height)];
    }

    /** The shaded color heading with the color's unit total in a bold font, then a
        gap of 2. */
    method ChapterSubtitle(color: string, total: int)
      modifies this
      ensures albaranNumber == old(albaranNumber)
      ensures events == old(events) + [Subtitle(color, total), Gap(2)]
      ensures bold
    {
      bold := true;
      events := events + [Subtitle(color, total)];
      Ln(2);
    }

    /** Draws a group's rows beside its summary column: sets the regular font, builds
        the column from the group's per-size and per-transfer sums, then draws the
        lines; the font of the last summary line stays in effect. */
    method ChapterBodyWithRightSummary(data: seq<Row>)
      modifies this
      ensures albaranNumber == old(albaranNumber)
      ensures events == old(events) + BodyEvents(data)
      ensures bold == FontAfter(SummaryText(data), false)
    {
      bold := false;
      var resumen := BuildSummary(Totals(data, Size), Totals(data, Transfer));
      DrawLines(data, resumen);
    }

    /** Line `i` holds data row `i` when there is one, else blank borderless cells, in
        the current font; then the spacer; then, when there is one, summary line `i`,
        after switching to the bold font iff it contains "Resumen" and to the regular
        one otherwise, else a bare line break. There are as many lines as the longer
        side has. */
    method DrawLines(data: seq<Row>, resumen: seq<string>)
      modifies this
      ensures albaranNumber == old(albaranNumber)
      ensures events == old(events) + ZipLongest(data, resumen, old(bold))
      ensures bold == FontAfter(resumen, old(bold))
    {
      var maxLines := if |data| < |resumen| then |resumen| else |data|;
      ghost var before := events;
      ghost var start := bold;
      ghost var lines := ZipLongest(data, resumen, start);
      for i := 0 to maxLines
        invariant albaranNumber == old(albaranNumber)
        invariant events == before + lines[..i]
        invariant bold == FontAfter(resumen[..Min(i, |resumen|)], start)
      {
        var left := if i < |data| then Some(data[i]) else None;
        var right := if i < |resumen| then Some(Styled(resumen[i])) else None;
        var line := Line(left, bold, right);
        var next := if i < |resumen| then Styled(resumen[i]).bold else bold;
        assert line == LineAt(data, resumen, start, i);
        assert next == FontAfter(resumen[..Min(i + 1, |resumen|)], start) by {
          if i < |resumen| {
            assert resumen[..i + 1][i] == resumen[i];
          }
        }
        ZipLongestPrefix(before, data, resumen, start, i);
        events := events + [line];
        bold := next;
      }
      assert lines[..maxLines] == lines;
      assert resumen[..|resumen|] == resumen;
    }
  }
}
