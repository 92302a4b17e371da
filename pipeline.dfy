/** The report pipeline: convert the quantity column, sort, then for each delivery
    note a page, for each color of it a heading, and for each transfer key of that
    color a body, consecutive bodies two gaps of 8 apart. */
module Pipeline {
  import opened Opt
  import opened Rows
  import opened StringOrder
  import opened Grouping
  import opened Sorting
  import opened Summary
  import opened Layout
  import opened ReportDocument

  function Last<T>(s: seq<T>): T
    requires s != []
  {
    s[|s| - 1]
  }

  function Init<T>(s: seq<T>): seq<T>
    requires s != []
  {
    s[..|s| - 1]
  }

  /** The bodies of one color group, for the transfer keys `ts`: one body per transfer
      group, with two gaps of 8 before every body but the first. */
  function TransferBodies(cg: seq<Row>, ts: seq<string>): seq<Event>
  {
    if ts == [] then []
    else TransferBodies(cg, Init(ts)) + (if |ts| > 1 then [Gap(8), Gap(8)] else [])
         + BodyEvents(Select(cg, Transfer, Last(ts)))
  }

  /** A color group: its heading with the group's unit total, then its bodies. */
  function ColorSection(color: string, cg: seq<Row>): seq<Event>
  {
    [Subtitle(color, SumQty(cg)), Gap(2)] + TransferBodies(cg, Keys(cg, Transfer))
  }

  function ColorSections(ag: seq<Row>, cs: seq<string>): seq<Event>
  {
    if cs == [] then [] else ColorSections(ag, Init(cs)) + ColorSection(Last(cs), Select(ag, Color, Last(cs)))
  }

  /** The page of one delivery note: a new page, then its color groups. */
  function Page(rows: seq<Row>, albaran: string): seq<Event>
  {
    var ag := Select(rows, Albaran, albaran);
    [PageStart(albaran)] + ColorSections(ag, Keys(ag, Color))
  }

  function Pages(rows: seq<Row>, albaranes: seq<string>): seq<Event>
  {
    if albaranes == [] then [] else Pages(rows, Init(albaranes)) + Page(rows, Last(albaranes))
  }

  /** What the report draws for a frame of rows. */
  function Render(rows: seq<Row>): seq<Event>
  {
    Pages(rows, Keys(rows, Albaran))
  }

  /** What the report draws for a manifest: the quantities converted, the rows sorted
      by color and transfer key, then rendered. */
  function Report(raw: seq<RawRow>): seq<Event>
  {
    Render(SortRows(Normalize(raw)))
  }

  lemma {:induction false} PrefixStep<T>(s: seq<T>, i: int)
    requires 0 <= i < |s|
    ensures s[..i + 1] != [] && Init(s[..i + 1]) == s[..i] && Last(s[..i + 1]) == s[i]
  {
  }

  lemma {:induction false} TransferBodiesStep(cg: seq<Row>, ts: seq<string>, i: int)
    requires 0 <= i < |ts|
    ensures TransferBodies(cg, ts[..i + 1])
         == TransferBodies(cg, ts[..i]) + (if i > 0 then [Gap(8), Gap(8)] else [])
            + BodyEvents(Select(cg, Transfer, ts[i]))
  {
    PrefixStep(ts, i);
  }

  lemma {:induction false} Assoc<T>(a: seq<T>, b: seq<T>, c: seq<T>, d: seq<T>)
    ensures a + b + c + d == a + (b + c + d) == a + (b + (c + d))
  {
  }

  lemma {:induction false} PageStep(before: seq<Event>, rows: seq<Row>, albaran: string)
    ensures var ag := Select(rows, Albaran, albaran);
            before + [PageStart(albaran)] + ColorSections(ag, Keys(ag, Color)) == before + Page(rows, albaran)
  {
  }

  /** Draws the bodies of one color group, one per transfer key. */
  method DrawTransfers(pdf: ReportPdf, cg: seq<Row>)
    modifies pdf
    ensures pdf.events == old(pdf.events) + TransferBodies(cg, Keys(cg, Transfer))
    ensures pdf.albaranNumber == old(pdf.albaranNumber)
  {
    var transfers := Keys(cg, Transfer);
    for ti := 0 to |transfers|
      invariant pdf.events == old(pdf.events) + TransferBodies(cg, transfers[..ti])
      invariant pdf.albaranNumber == old(pdf.albaranNumber)
    {
      ghost var before := TransferBodies(cg, transfers[..ti]);
      ghost var gaps: seq<Event> := if ti > 0 then [Gap(8), Gap(8)] else [];
      if ti > 0 {
        pdf.Ln(8);
        pdf.Ln(8);
      }
      assert pdf.events == old(pdf.events) + before + gaps;
      var data := Select(cg, Transfer, transfers[ti]);
      pdf.ChapterBodyWithRightSummary(data);
      TransferBodiesStep(cg, transfers, ti);
      Assoc(old(pdf.events), before, gaps, BodyEvents(data));
    }
    assert transfers[..|transfers|] == transfers;
  }

  lemma {:induction false} ColorSectionsStep(ag: seq<Row>, cs: seq<string>, i: int)
    requires 0 <= i < |cs|
    ensures ColorSections(ag, cs[..i + 1])
         == ColorSections(ag, cs[..i]) + ColorSection(cs[i], Select(ag, Color, cs[i]))
  {
    PrefixStep(cs, i);
  }

  lemma {:induction false} PagesStep(rows: seq<Row>, albaranes: seq<string>, i: int)
    requires 0 <= i < |albaranes|
    ensures Pages(rows, albaranes[..i + 1]) == Pages(rows, albaranes[..i]) + Page(rows, albaranes[i])
  {
    PrefixStep(albaranes, i);
  }

  /** Draws the color groups of one delivery note. */
  method DrawColors(pdf: ReportPdf, ag: seq<Row>)
    modifies pdf
    ensures pdf.events == old(pdf.events) + ColorSections(ag, Keys(ag, Color))
    ensures pdf.albaranNumber == old(pdf.albaranNumber)
  {
    var colors := Keys(ag, Color);
    for ci := 0 to |colors|
      invariant pdf.events == old(pdf.events) + ColorSections(ag, colors[..ci])
      invariant pdf.albaranNumber == old(pdf.albaranNumber)
    {
      ghost var before := ColorSections(ag, colors[..ci]);
      var color := colors[ci];
      var cg := Select(ag, Color, color);
      ghost var heading := [Subtitle(color, SumQty(cg)), Gap(2)];
      pdf.ChapterSubtitle(color, SumQty(cg));
      assert pdf.events == old(pdf.events) + before + heading;
      DrawTransfers(pdf, cg);
      ColorSectionsStep(ag, colors, ci);
      Assoc(old(pdf.events), before, heading, TransferBodies(cg, Keys(cg, Transfer)));
    }
    assert colors[..|colors|] == colors;
  }

  /** Draws the page of one delivery note, with that note's number in its header. */
  method DrawPage(pdf: ReportPdf, rows: seq<Row>, albaran: string)
    modifies pdf
    ensures pdf.events == old(pdf.events) + Page(rows, albaran)
    ensures pdf.albaranNumber == Some(albaran)
  {
    var ag := Select(rows, Albaran, albaran);
    pdf.albaranNumber := Some(albaran);
    pdf.AddPage();
    DrawColors(pdf, ag);
    PageStep(old(pdf.events), rows, albaran);
  }

  /** Builds the report document for a manifest and returns what it drew. */
  method GenerateReport(raw: seq<RawRow>) returns (events: seq<Event>)
    ensures events == Report(raw)
  {
    var rows := SortRows(Normalize(raw));
    var pdf := new ReportPdf();
    var albaranes := Keys(rows, Albaran);
    for ai := 0 to |albaranes|
      invariant pdf.events == Pages(rows, albaranes[..ai])
    {
      DrawPage(pdf, rows, albaranes[ai]);
      PagesStep(rows, albaranes, ai);
    }
    assert albaranes[..|albaranes|] == albaranes;
    events := pdf.events;
  }
}
