/** What the whole report shows: which rows it draws, that the sort before it
    changes nothing visible, the order of its pages, the headings of each page and
    the gaps between bodies. */
module ReportProperties {
  import opened Opt
  import opened Decimal
  import opened Rows
  import opened StringOrder
  import opened Grouping
  import opened Sorting
  import opened Summary
  import opened Layout
  import opened Pipeline

  /** A row the report can draw: its delivery note, color and transfer key are filled. */
  predicate Placed(r: Row)
  {
    r.albaran.Some? && r.color.Some? && r.transfer.Some?
  }

  /** The rows of a frame that survive the three groupbys, in frame order. */
  function PlacedRows(rows: seq<Row>): seq<Row>
  {
    Present(Present(Present(rows, Transfer), Color), Albaran)
  }

  lemma {:induction false} PlacedCount(rows: seq<Row>, r: Row)
    ensures multiset(PlacedRows(rows))[r] == if Placed(r) then multiset(rows)[r] else 0
  {
    PresentCount(Present(Present(rows, Transfer), Color), Albaran, r);
    PresentCount(Present(rows, Transfer), Color, r);
    PresentCount(rows, Transfer, r);
  }

  lemma {:induction false} GapsDrawNoRows()
    ensures RowsOf([Gap(8), Gap(8)]) == [] && RowsOf([]) == []
  {
    assert [Gap(8), Gap(8)][1..] == [Gap(8)];
  }

  lemma {:induction false} SplitLast(ks: seq<string>)
    requires ks != []
    ensures forall y :: y in ks <==> y in Init(ks) || y == Last(ks)
  {
    assert ks == Init(ks) + [Last(ks)];
  }

  lemma {:induction false} TransferBodiesRowsStep(cg: seq<Row>, ts: seq<string>)
    requires ts != []
    ensures RowsOf(TransferBodies(cg, ts)) == RowsOf(TransferBodies(cg, Init(ts))) + Select(cg, Transfer, Last(ts))
  {
    var group := Select(cg, Transfer, Last(ts));
    var before := TransferBodies(cg, Init(ts));
    var gaps: seq<Event> := if |ts| > 1 then [Gap(8), Gap(8)] else [];
    TransferBodiesSplit(cg, ts);
    assert RowsOf(before + gaps) == RowsOf(before) by {
      RowsOfAppend(before, gaps);
      GapsDrawNoRows();
    }
    assert RowsOf(BodyEvents(group)) == group by {
      BodyRows(group);
    }
    RowsOfAppend(before + gaps, BodyEvents(group));
  }

  lemma {:induction false} TransferBodiesRows(cg: seq<Row>, ts: seq<string>)
    requires Ascending(ts)
    ensures multiset(RowsOf(TransferBodies(cg, ts))) == multiset(SelectIn(cg, Transfer, ts))
  {
    if ts == [] {
      EmptySelectIn(cg, Transfer, ts);
    } else {
      AscendingLastFresh(ts);
      TransferBodiesRowsStep(cg, ts);
      TransferBodiesRows(cg, Init(ts));
      SplitLast(ts);
      SelectInSplit(cg, Transfer, ts, Init(ts), Last(ts));
    }
  }

  /** A color section draws the rows of its group that have a transfer key. */
  lemma {:induction false} ColorSectionRows(color: string, cg: seq<Row>)
    ensures multiset(RowsOf(ColorSection(color, cg))) == multiset(Present(cg, Transfer))
  {
    var heading := [Subtitle(color, SumQty(cg)), Gap(2)];
    RowsOfAppend(heading, TransferBodies(cg, Keys(cg, Transfer)));
    assert RowsOf(heading) == [];
    TransferBodiesRows(cg, Keys(cg, Transfer));
    SelectInCovers(cg, Transfer, Keys(cg, Transfer));
  }

  lemma {:induction false} ColorSectionsRows(ag: seq<Row>, cs: seq<string>)
    requires Ascending(cs)
    ensures multiset(RowsOf(ColorSections(ag, cs))) == multiset(SelectIn(Present(ag, Transfer), Color, cs))
  {
    if cs == [] {
      EmptySelectIn(Present(ag, Transfer), Color, cs);
    } else {
      AscendingLastFresh(cs);
      var c := Last(cs);
      var placed := Present(ag, Transfer);
      assert multiset(RowsOf(ColorSections(ag, cs)))
          == multiset(RowsOf(ColorSections(ag, Init(cs)))) + multiset(Select(placed, Color, c)) by {
        RowsOfAppend(ColorSections(ag, Init(cs)), ColorSection(c, Select(ag, Color, c)));
        ColorSectionRows(c, Select(ag, Color, c));
        SelectPresentCommute(ag, Color, c, Transfer);
      }
      ColorSectionsRows(ag, Init(cs));
      SplitLast(cs);
      SelectInSplit(Present(ag, Transfer), Color, cs, Init(cs), c);
    }
  }

  /** The page of a delivery note draws that note's rows with a color and a transfer key. */
  lemma {:induction false} PageRows(rows: seq<Row>, albaran: string)
    ensures multiset(RowsOf(Page(rows, albaran)))
         == multiset(Select(Present(Present(rows, Transfer), Color), Albaran, albaran))
  {
    var ag := Select(rows, Albaran, albaran);
    var cs := Keys(ag, Color);
    RowsOfAppend([PageStart(albaran)], ColorSections(ag, cs));
    ColorSectionsRows(ag, cs);
    PresentKeys(ag, Color, Transfer);
    SelectInCovers(Present(ag, Transfer), Color, cs);
    SelectPresentCommute(Present(rows, Transfer), Albaran, albaran, Color);
    SelectPresentCommute(rows, Albaran, albaran, Transfer);
  }

  lemma {:induction false} PagesRows(rows: seq<Row>, albaranes: seq<string>)
    requires Ascending(albaranes)
    ensures multiset(RowsOf(Pages(rows, albaranes)))
         == multiset(SelectIn(Present(Present(rows, Transfer), Color), Albaran, albaranes))
  {
    var placed := Present(Present(rows, Transfer), Color);
    if albaranes == [] {
      EmptySelectIn(placed, Albaran, albaranes);
    } else {
      AscendingLastFresh(albaranes);
      var a := Last(albaranes);
      assert multiset(RowsOf(Pages(rows, albaranes)))
          == multiset(RowsOf(Pages(rows, Init(albaranes)))) + multiset(Select(placed, Albaran, a)) by {
        RowsOfAppend(Pages(rows, Init(albaranes)), Page(rows, a));
        PageRows(rows, a);
      }
      PagesRows(rows, Init(albaranes));
      SplitLast(albaranes);
      SelectInSplit(placed, Albaran, albaranes, Init(albaranes), a);
    }
  }

  /** The rendered report draws exactly the placed rows of the frame, each once. */
  lemma {:induction false} RenderRows(rows: seq<Row>)
    ensures multiset(RowsOf(Render(rows))) == multiset(PlacedRows(rows))
  {
    var placed := Present(Present(rows, Transfer), Color);
    PagesRows(rows, Keys(rows, Albaran));
    PresentKeys(Present(rows, Transfer), Albaran, Color);
    PresentKeys(rows, Albaran, Transfer);
    SelectInCovers(placed, Albaran, Keys(rows, Albaran));
  }

  /** Every row of the manifest with a delivery note, a color and a transfer key is
      drawn exactly as often as it occurs; every other row is never drawn. */
  lemma {:induction false} ReportRows(raw: seq<RawRow>)
    ensures forall r :: multiset(RowsOf(Report(raw)))[r]
                     == if Placed(r) then multiset(Normalize(raw))[r] else 0
  {
    var rows := SortRows(Normalize(raw));
    RenderRows(rows);
    SortPermutation(Normalize(raw));
    forall r
      ensures multiset(RowsOf(Report(raw)))[r] == if Placed(r) then multiset(Normalize(raw))[r] else 0
    {
      PlacedCount(rows, r);
    }
  }

  /** Two frames with the same rows, and with each (color, transfer) bucket in the
      same order, render alike. */
  ghost predicate SameBuckets(a: seq<Row>, b: seq<Row>)
  {
    multiset(a) == multiset(b) && forall c, t :: Bucket(a, c, t) == Bucket(b, c, t)
  }

  lemma {:induction false} TransferBodiesSame(cg1: seq<Row>, cg2: seq<Row>, ts: seq<string>)
    requires forall t :: t in ts ==> Select(cg1, Transfer, t) == Select(cg2, Transfer, t)
    ensures TransferBodies(cg1, ts) == TransferBodies(cg2, ts)
  {
    if ts != [] {
      SplitLast(ts);
      TransferBodiesSame(cg1, cg2, Init(ts));
    }
  }

  lemma {:induction false} ColorSectionsSame(ag1: seq<Row>, ag2: seq<Row>, cs: seq<string>)
    requires SameBuckets(ag1, ag2)
    ensures ColorSections(ag1, cs) == ColorSections(ag2, cs)
  {
    if cs != [] {
      ColorSectionsSame(ag1, ag2, Init(cs));
      var c := Last(cs);
      var cg1, cg2 := Select(ag1, Color, c), Select(ag2, Color, c);
      SelectPermutation(ag1, ag2, Color, c);
      SumQtyPermutation(cg1, cg2);
      KeysPermutation(cg1, cg2, Transfer);
      assert forall t :: Select(cg1, Transfer, t) == Bucket(ag1, c, t) == Bucket(ag2, c, t) == Select(cg2, Transfer, t);
      TransferBodiesSame(cg1, cg2, Keys(cg1, Transfer));
    }
  }

  /** The buckets of one delivery note's rows are that note's part of the frame's buckets. */
  lemma {:induction false} BucketOfNote(rows: seq<Row>, albaran: string, c: string, t: string)
    ensures Bucket(Select(rows, Albaran, albaran), c, t) == Select(Bucket(rows, c, t), Albaran, albaran)
  {
    SelectCommute(rows, Albaran, albaran, Color, c);
    SelectCommute(Select(rows, Color, c), Albaran, albaran, Transfer, t);
  }

  lemma {:induction false} PagesSame(a: seq<Row>, b: seq<Row>, albaranes: seq<string>)
    requires SameBuckets(a, b)
    ensures Pages(a, albaranes) == Pages(b, albaranes)
  {
    if albaranes != [] {
      PagesSame(a, b, Init(albaranes));
      var n := Last(albaranes);
      var ag1, ag2 := Select(a, Albaran, n), Select(b, Albaran, n);
      SelectPermutation(a, b, Albaran, n);
      KeysPermutation(ag1, ag2, Color);
      forall c, t
        ensures Bucket(ag1, c, t) == Bucket(ag2, c, t)
      {
        BucketOfNote(a, n, c, t);
        BucketOfNote(b, n, c, t);
      }
      ColorSectionsSame(ag1, ag2, Keys(ag1, Color));
    }
  }

  /** What a frame renders depends only on its rows and on the order within each
      (color, transfer) bucket. */
  lemma {:induction false} RenderSame(a: seq<Row>, b: seq<Row>)
    requires SameBuckets(a, b)
    ensures Render(a) == Render(b)
  {
    KeysPermutation(a, b, Albaran);
    PagesSame(a, b, Keys(a, Albaran));
  }

  /** Sorting by color and transfer key before rendering changes nothing the report
      shows: the report of a manifest is the rendering of its rows in file order. */
  lemma {:induction false} SortInvisible(raw: seq<RawRow>)
    ensures Report(raw) == Render(Normalize(raw))
  {
    var rows := Normalize(raw);
    SortPermutation(rows);
    forall c, t
      ensures Bucket(SortRows(rows), c, t) == Bucket(rows, c, t)
    {
      SortStable(rows, c, t);
    }
    RenderSame(SortRows(rows), rows);
  }

  /** The four kinds of drawing event. */
  datatype Kind = PageKind | SubtitleKind | GapKind | LineKind

  predicate IsKind(e: Event, k: Kind)
  {
    match k
    case PageKind => e.PageStart?
    case SubtitleKind => e.Subtitle?
    case GapKind => e.Gap?
    case LineKind => e.Line?
  }

  /** The events of one kind, in drawing order. */
  function Only(events: seq<Event>, k: Kind): (r: seq<Event>)
    ensures forall i :: 0 <= i < |r| ==> IsKind(r[i], k)
  {
    if events == [] then []
    else (if IsKind(events[0], k) then [events[0]] else []) + Only(events[1..], k)
  }

  lemma {:induction false} OnlyAppend(a: seq<Event>, b: seq<Event>, k: Kind)
    ensures Only(a + b, k) == Only(a, k) + Only(b, k)
  {
    if a == [] {
      assert a + b == b;
    } else {
      assert (a + b)[1..] == a[1..] + b;
      OnlyAppend(a[1..], b, k);
    }
  }

  lemma {:induction false} OnlyOfLines(events: seq<Event>, k: Kind)
    requires forall i :: 0 <= i < |events| ==> events[i].Line?
    requires k != LineKind
    ensures Only(events, k) == []
  {
    if events != [] {
      OnlyOfLines(events[1..], k);
    }
  }

  /** A body is made of lines only, at least its two summary headings. */
  lemma {:induction false} BodyShape(data: seq<Row>, k: Kind)
    requires k != LineKind
    ensures |BodyEvents(data)| >= 2
    ensures Only(BodyEvents(data), k) == []
  {
    SummaryLayout(data);
    BodyRows(data);
    OnlyOfLines(BodyEvents(data), k);
  }

  lemma {:induction false} GapsOnly(k: Kind)
    ensures Only([Gap(8), Gap(8)], k) == if k == GapKind then [Gap(8), Gap(8)] else []
  {
    assert [Gap(8), Gap(8)][1..] == [Gap(8)];
  }

  /** Two gaps of 8 for every pair of consecutive bodies. */
  function SeparatorGaps(bodies: nat): seq<Event>
  {
    if bodies <= 1 then [] else SeparatorGaps(bodies - 1) + [Gap(8), Gap(8)]
  }

  lemma {:induction false} TransferBodiesSplit(cg: seq<Row>, ts: seq<string>)
    requires ts != []
    ensures TransferBodies(cg, ts)
         == TransferBodies(cg, Init(ts)) + (if |ts| > 1 then [Gap(8), Gap(8)] else [])
            + BodyEvents(Select(cg, Transfer, Last(ts)))
    ensures |ts| > 1 ==> Init(ts) != [] && |Init(ts)| == |ts| - 1
  {
  }

  lemma {:induction false} TransferBodiesNoKind(cg: seq<Row>, ts: seq<string>, k: Kind)
    requires k == PageKind || k == SubtitleKind
    ensures Only(TransferBodies(cg, ts), k) == []
  {
    if ts != [] {
      var gaps: seq<Event> := if |ts| > 1 then [Gap(8), Gap(8)] else [];
      var before := TransferBodies(cg, Init(ts));
      var body := BodyEvents(Select(cg, Transfer, Last(ts)));
      TransferBodiesSplit(cg, ts);
      TransferBodiesNoKind(cg, Init(ts), k);
      OnlyAppend(before, gaps, k);
      OnlyAppend(before + gaps, body, k);
      GapsOnly(k);
      BodyShape(Select(cg, Transfer, Last(ts)), k);
    }
  }

  lemma {:induction false} TransferBodiesGaps(cg: seq<Row>, ts: seq<string>)
    ensures Only(TransferBodies(cg, ts), GapKind) == SeparatorGaps(|ts|)
  {
    if ts != [] {
      var gaps: seq<Event> := if |ts| > 1 then [Gap(8), Gap(8)] else [];
      var before := TransferBodies(cg, Init(ts));
      var body := BodyEvents(Select(cg, Transfer, Last(ts)));
      TransferBodiesSplit(cg, ts);
      TransferBodiesGaps(cg, Init(ts));
      OnlyAppend(before, gaps, GapKind);
      OnlyAppend(before + gaps, body, GapKind);
      GapsOnly(GapKind);
      BodyShape(Select(cg, Transfer, Last(ts)), GapKind);
    }
  }

  lemma {:induction false} TransferBodiesEdges(cg: seq<Row>, ts: seq<string>)
    requires ts != []
    ensures var tb := TransferBodies(cg, ts); |tb| >= 2 && tb[0].Line? && tb[|tb| - 1].Line?
  {
    var gaps: seq<Event> := if |ts| > 1 then [Gap(8), Gap(8)] else [];
    var before := TransferBodies(cg, Init(ts));
    var group := Select(cg, Transfer, Last(ts));
    var body := BodyEvents(group);
    TransferBodiesSplit(cg, ts);
    BodyEdges(group);
    if |ts| > 1 {
      TransferBodiesEdges(cg, Init(ts));
      EdgesJoin(before, gaps, body);
    } else {
      assert before + gaps + body == body;
    }
  }

  lemma {:induction false} EdgesJoin(a: seq<Event>, b: seq<Event>, c: seq<Event>)
    requires |a| >= 2 && a[0].Line? && c != [] && c[|c| - 1].Line?
    ensures var s := a + b + c; |s| >= 2 && s[0].Line? && s[|s| - 1].Line?
  {
  }

  lemma {:induction false} BodyEdges(data: seq<Row>)
    ensures var body := BodyEvents(data); |body| >= 2 && body[0].Line? && body[|body| - 1].Line?
  {
    BodyShape(data, GapKind);
    BodyRows(data);
  }

  /** The bodies of a color group hold no page or heading, begin and end with a line,
      and are separated by two gaps of 8 each. */
  lemma {:induction false} TransferBodiesShape(cg: seq<Row>, ts: seq<string>, k: Kind)
    requires k == PageKind || k == SubtitleKind
    ensures Only(TransferBodies(cg, ts), k) == []
    ensures Only(TransferBodies(cg, ts), GapKind) == SeparatorGaps(|ts|)
    ensures ts != [] ==> var tb := TransferBodies(cg, ts); |tb| >= 2 && tb[0].Line? && tb[|tb| - 1].Line?
  {
    TransferBodiesNoKind(cg, ts, k);
    TransferBodiesGaps(cg, ts);
    if ts != [] {
      TransferBodiesEdges(cg, ts);
    }
  }

  /** The color headings of a delivery note's rows `ag` for the colors `cs`: each
      color with the unit total of all its rows. */
  function Headings(ag: seq<Row>, cs: seq<string>): (r: seq<Event>)
    ensures |r| == |cs|
  {
    seq(|cs|, i requires 0 <= i < |cs| => Subtitle(cs[i], SumQty(Select(ag, Color, cs[i]))))
  }

  /** A color section has one heading, its own, and opens no page. */
  lemma {:induction false} ColorSectionShape(c: string, cg: seq<Row>)
    ensures Only(ColorSection(c, cg), PageKind) == []
    ensures Only(ColorSection(c, cg), SubtitleKind) == [Subtitle(c, SumQty(cg))]
  {
    var heading := [Subtitle(c, SumQty(cg)), Gap(2)];
    TransferBodiesShape(cg, Keys(cg, Transfer), PageKind);
    TransferBodiesShape(cg, Keys(cg, Transfer), SubtitleKind);
    assert heading[1..] == [Gap(2)];
    OnlyAppend(heading, TransferBodies(cg, Keys(cg, Transfer)), PageKind);
    OnlyAppend(heading, TransferBodies(cg, Keys(cg, Transfer)), SubtitleKind);
  }

  lemma {:induction false} HeadingsStep(ag: seq<Row>, cs: seq<string>)
    requires cs != []
    ensures Headings(ag, cs) == Headings(ag, Init(cs)) + [Subtitle(Last(cs), SumQty(Select(ag, Color, Last(cs))))]
  {
  }

  lemma {:induction false} ColorSectionsShape(ag: seq<Row>, cs: seq<string>)
    ensures Only(ColorSections(ag, cs), PageKind) == []
    ensures Only(ColorSections(ag, cs), SubtitleKind) == Headings(ag, cs)
  {
    if cs != [] {
      var c := Last(cs);
      var before := ColorSections(ag, Init(cs));
      var section := ColorSection(c, Select(ag, Color, c));
      ColorSectionsShape(ag, Init(cs));
      ColorSectionShape(c, Select(ag, Color, c));
      OnlyAppend(before, section, PageKind);
      OnlyAppend(before, section, SubtitleKind);
      HeadingsStep(ag, cs);
    }
  }

  /** A page starts once, with its own delivery note, and then heads its colors in
      ascending order, each with the unit total of that note's rows of that color. */
  lemma {:induction false} PageShape(rows: seq<Row>, albaran: string)
    ensures Page(rows, albaran)[0] == PageStart(albaran)
    ensures Only(Page(rows, albaran), PageKind) == [PageStart(albaran)]
    ensures var ag := Select(rows, Albaran, albaran);
            Only(Page(rows, albaran), SubtitleKind) == Headings(ag, Keys(ag, Color))
  {
    var ag := Select(rows, Albaran, albaran);
    ColorSectionsShape(ag, Keys(ag, Color));
    OnlyAppend([PageStart(albaran)], ColorSections(ag, Keys(ag, Color)), PageKind);
    OnlyAppend([PageStart(albaran)], ColorSections(ag, Keys(ag, Color)), SubtitleKind);
  }

  function PageStarts(albaranes: seq<string>): (r: seq<Event>)
    ensures |r| == |albaranes|
  {
    seq(|albaranes|, i requires 0 <= i < |albaranes| => PageStart(albaranes[i]))
  }

  lemma {:induction false} PageStartsStep(albaranes: seq<string>)
    requires albaranes != []
    ensures PageStarts(albaranes) == PageStarts(Init(albaranes)) + [PageStart(Last(albaranes))]
  {
  }

  lemma {:induction false} PagesShape(rows: seq<Row>, albaranes: seq<string>)
    ensures Only(Pages(rows, albaranes), PageKind) == PageStarts(albaranes)
  {
    if albaranes != [] {
      var a := Last(albaranes);
      PagesShape(rows, Init(albaranes));
      PageShape(rows, a);
      OnlyAppend(Pages(rows, Init(albaranes)), Page(rows, a), PageKind);
      PageStartsStep(albaranes);
    }
  }

  /** The report opens one page per delivery note that has rows, in ascending order
      of the note, and nothing else opens a page. */
  lemma {:induction false} RenderPages(rows: seq<Row>)
    ensures Only(Render(rows), PageKind) == PageStarts(Keys(rows, Albaran))
    ensures Render(rows) != [] ==> Render(rows)[0].PageStart?
  {
    PagesShape(rows, Keys(rows, Albaran));
    if Render(rows) != [] {
      PagesFirst(rows, Keys(rows, Albaran));
    }
  }

  lemma {:induction false} PagesFirst(rows: seq<Row>, albaranes: seq<string>)
    requires Pages(rows, albaranes) != []
    ensures Pages(rows, albaranes)[0].PageStart?
  {
    var a := Last(albaranes);
    PageShape(rows, a);
    if Pages(rows, Init(albaranes)) != [] {
      PagesFirst(rows, Init(albaranes));
    }
  }

  /** A color heading's total is the units drawn under it, which is the sum of the
      color's transfer-group totals, plus the units of the group's rows that have no
      transfer key, which are drawn nowhere. */
  lemma {:induction false} HeadingTotal(color: string, cg: seq<Row>)
    ensures ColorSection(color, cg)[0] == Subtitle(color, SumQty(cg))
    ensures SumQty(cg) == SumQty(RowsOf(ColorSection(color, cg))) + SumQty(Absent(cg, Transfer))
    ensures SumQty(cg) == SumEntries(Totals(cg, Transfer)) + SumQty(Absent(cg, Transfer))
  {
    TotalsPartition(cg, Transfer);
    ColorSectionRows(color, cg);
    SumQtyPermutation(RowsOf(ColorSection(color, cg)), Present(cg, Transfer));
    PresentAbsentSum(cg, Transfer);
  }

  /** A lone row with no transfer key: its page and its color heading, with its units,
      are drawn, but no body. */
  lemma {:induction false} MissingTransferRender(row: Row, albaran: string, color: string)
    requires row.albaran == Some(albaran) && row.color == Some(color) && row.transfer == None
    ensures Render([row]) == [PageStart(albaran), Subtitle(color, row.delivered), Gap(2)]
  {
    var heading := [Subtitle(color, row.delivered), Gap(2)];
    assert ColorSection(color, [row]) == heading by {
      assert [row][1..] == [];
      assert Keys([row], Transfer) == [];
      assert SumQty([row]) == row.delivered;
      assert TransferBodies([row], []) == [];
    }
    assert Page([row], albaran) == [PageStart(albaran)] + heading by {
      OneKey([row], Albaran, albaran);
      OneKey([row], Color, color);
      OneSection([row], color);
    }
    assert Render([row]) == Page([row], albaran) by {
      OneKey([row], Albaran, albaran);
      OnePage([row], albaran);
    }
  }

  /** Rows in ascending order of transfer key: every row has one, and it never
      decreases from one row to the next. */
  predicate TransferSorted(rs: seq<Row>)
  {
    (forall i :: 0 <= i < |rs| ==> rs[i].transfer.Some?)
    && forall i, j :: 0 <= i < j < |rs| ==>
         rs[i].transfer == rs[j].transfer || StrLt(rs[i].transfer.value, rs[j].transfer.value)
  }

  lemma {:induction false} AscendingBeforeLast(ts: seq<string>, x: string)
    requires Ascending(ts) && ts != [] && x in Init(ts)
    ensures StrLt(x, Last(ts))
  {
    var m :| 0 <= m < |ts| - 1 && Init(ts)[m] == x;
    assert ts[m] == x;
  }

  lemma {:induction false} SortedAppend(r0: seq<Row>, g: seq<Row>, ts: seq<string>)
    requires Ascending(ts) && ts != []
    requires TransferSorted(r0)
    requires forall i :: 0 <= i < |r0| ==> r0[i].transfer.Some? && r0[i].transfer.value in Init(ts)
    requires forall i :: 0 <= i < |g| ==> g[i].transfer == Some(Last(ts))
    ensures TransferSorted(r0 + g)
  {
    var rs := r0 + g;
    forall i, j | 0 <= i < j < |rs|
      ensures rs[i].transfer == rs[j].transfer || StrLt(rs[i].transfer.value, rs[j].transfer.value)
    {
      if i < |r0| && |r0| <= j {
        assert rs[i] == r0[i] && rs[j] == g[j - |r0|];
        AscendingBeforeLast(ts, r0[i].transfer.value);
      } else if i < |r0| {
        assert rs[i] == r0[i] && rs[j] == r0[j];
      } else {
        assert rs[i] == g[i - |r0|] && rs[j] == g[j - |r0|];
      }
    }
  }

  /** Within a color, the drawn rows come in ascending order of transfer key, and the
      rows of each transfer key come in the color group's own order. */
  lemma {:induction false} TransferOrder(cg: seq<Row>, ts: seq<string>)
    requires Ascending(ts)
    ensures var rs := RowsOf(TransferBodies(cg, ts));
            (forall i :: 0 <= i < |rs| ==> rs[i].transfer.Some? && rs[i].transfer.value in ts)
            && TransferSorted(rs)
            && forall t :: t in ts ==> Select(rs, Transfer, t) == Select(cg, Transfer, t)
  {
    if ts != [] {
      var r0 := RowsOf(TransferBodies(cg, Init(ts)));
      assert RowsOf(TransferBodies(cg, ts)) == r0 + Select(cg, Transfer, Last(ts)) by {
        TransferBodiesRowsStep(cg, ts);
      }
      AscendingLastFresh(ts);
      TransferOrder(cg, Init(ts));
      TransferOrderStep(cg, ts, r0);
    }
  }

  /** The step of `TransferOrder`: appending the last key's rows to rows ordered by the
      other keys keeps them ordered and grouped. */
  lemma {:induction false} TransferOrderStep(cg: seq<Row>, ts: seq<string>, r0: seq<Row>)
    requires ts != [] && Ascending(ts)
    requires forall i :: 0 <= i < |r0| ==> r0[i].transfer.Some? && r0[i].transfer.value in Init(ts)
    requires TransferSorted(r0)
    requires forall t :: t in Init(ts) ==> Select(r0, Transfer, t) == Select(cg, Transfer, t)
    ensures var rs := r0 + Select(cg, Transfer, Last(ts));
            (forall i :: 0 <= i < |rs| ==> rs[i].transfer.Some? && rs[i].transfer.value in ts)
            && TransferSorted(rs)
            && forall t :: t in ts ==> Select(rs, Transfer, t) == Select(cg, Transfer, t)
  {
    var l := Last(ts);
    var g := Select(cg, Transfer, l);
    AscendingLastFresh(ts);
    SplitLast(ts);
    SortedAppend(r0, g, ts);
    forall i | 0 <= i < |r0 + g|
      ensures (r0 + g)[i].transfer.Some? && (r0 + g)[i].transfer.value in ts
    {
      if i < |r0| {
        assert (r0 + g)[i] == r0[i];
      } else {
        assert (r0 + g)[i] == g[i - |r0|];
      }
    }
    forall t | t in ts
      ensures Select(r0 + g, Transfer, t) == Select(cg, Transfer, t)
    {
      SelectAppend(r0, g, Transfer, t);
      if t == l {
        NoKeySelect(r0, Transfer, t);
        SelfSelect(g, Transfer, t);
      } else {
        NoKeySelect(g, Transfer, t);
      }
    }
  }

  /** The rows drawn under a color heading: its group's rows that have a transfer key,
      ordered by transfer key and otherwise kept in the group's order. */
  lemma {:induction false} ColorSectionOrder(color: string, cg: seq<Row>)
    ensures var rs := RowsOf(ColorSection(color, cg));
            TransferSorted(rs)
            && forall t :: Select(rs, Transfer, t) == Select(cg, Transfer, t)
  {
    var heading := [Subtitle(color, SumQty(cg)), Gap(2)];
    var ts := Keys(cg, Transfer);
    var rs := RowsOf(TransferBodies(cg, ts));
    assert RowsOf(ColorSection(color, cg)) == rs by {
      RowsOfAppend(heading, TransferBodies(cg, ts));
      assert RowsOf(heading) == [];
    }
    TransferOrder(cg, ts);
    forall t | t !in ts
      ensures Select(rs, Transfer, t) == Select(cg, Transfer, t)
    {
      SelectOutside(rs, ts, t);
    }
  }

  lemma {:induction false} SelectOutside(rs: seq<Row>, ts: seq<string>, t: string)
    requires forall i :: 0 <= i < |rs| ==> rs[i].transfer.Some? && rs[i].transfer.value in ts
    requires t !in ts
    ensures Select(rs, Transfer, t) == []
  {
    NoKeySelect(rs, Transfer, t);
  }

  /** All rows share one key: grouping them by it yields that key alone. */
  lemma {:induction false} OneKey(rows: seq<Row>, col: Column, k: string)
    requires rows != [] && forall i :: 0 <= i < |rows| ==> Get(rows[i], col) == Some(k)
    ensures Select(rows, col, k) == rows && Keys(rows, col) == [k]
  {
    SelfSelect(rows, col, k);
    KeysOfGroup(rows, col, k);
  }

  lemma {:induction false} OneBody(cg: seq<Row>, t: string)
    ensures TransferBodies(cg, [t]) == BodyEvents(Select(cg, Transfer, t))
  {
    assert Init([t]) == [];
  }

  lemma {:induction false} OneSection(ag: seq<Row>, c: string)
    ensures ColorSections(ag, [c]) == ColorSection(c, Select(ag, Color, c))
  {
    assert Init([c]) == [];
  }

  lemma {:induction false} OnePage(rows: seq<Row>, a: string)
    ensures Pages(rows, [a]) == Page(rows, a)
  {
    assert Init([a]) == [];
  }

  /** Rows that all share one delivery note, one color and one transfer key render as
      one page, one color heading with their total, and one body holding all of them. */
  lemma {:induction false} SingleGroupRender(rows: seq<Row>, albaran: string, color: string, transfer: string)
    requires rows != []
    requires forall i :: 0 <= i < |rows| ==>
               rows[i].albaran == Some(albaran) && rows[i].color == Some(color) && rows[i].transfer == Some(transfer)
    ensures Render(rows) == [PageStart(albaran), Subtitle(color, SumQty(rows)), Gap(2)] + BodyEvents(rows)
  {
    var body := BodyEvents(rows);
    assert ColorSection(color, rows) == [Subtitle(color, SumQty(rows)), Gap(2)] + body by {
      OneKey(rows, Transfer, transfer);
      OneBody(rows, transfer);
    }
    assert Page(rows, albaran) == [PageStart(albaran)] + ColorSection(color, rows) by {
      OneKey(rows, Albaran, albaran);
      OneKey(rows, Color, color);
      OneSection(rows, color);
    }
    assert Render(rows) == Page(rows, albaran) by {
      OneKey(rows, Albaran, albaran);
      OnePage(rows, albaran);
    }
    Regroup(PageStart(albaran), Subtitle(color, SumQty(rows)), Gap(2), body);
  }

  lemma {:induction false} Regroup<T>(x: T, y: T, z: T, s: seq<T>)
    ensures [x] + ([y, z] + s) == [x, y, z] + s
  {
  }

  /** Two rows of different sizes: the size table lists the smaller size first. */
  lemma {:induction false} PairSizeTotals(r1: Row, r2: Row, big: string, small: string)
    requires r1.size == Some(big) && r2.size == Some(small) && StrLt(small, big)
    ensures Totals([r1, r2], Size) == [Entry(small, r2.delivered), Entry(big, r1.delivered)]
  {
    StrLtAsymmetric(small, big);
    StrLtIrreflexive(small);
    KeysPair(r1, r2, Size, big, small);
    SelectPair(r1, r2, Size, small);
    SelectPair(r1, r2, Size, big);
    assert small != big;
    var ks := Keys([r1, r2], Size);
    assert ks == [small, big];
    assert Select([r1, r2], Size, small) == [r2];
    assert Select([r1, r2], Size, big) == [r1];
    assert SumQty([r1]) == r1.delivered && SumQty([r2]) == r2.delivered;
    var t := Totals([r1, r2], Size);
    assert |t| == 2 && t[0] == Entry(small, r2.delivered) && t[1] == Entry(big, r1.delivered);
  }

  lemma {:induction false} SelectPair(r1: Row, r2: Row, col: Column, k: string)
    ensures Select([r1, r2], col, k)
         == (if Get(r1, col) == Some(k) then [r1] else []) + (if Get(r2, col) == Some(k) then [r2] else [])
  {
    assert [r1, r2][1..] == [r2];
    assert [r2][1..] == [];
  }

  lemma {:induction false} KeysPair(r1: Row, r2: Row, col: Column, a: string, b: string)
    requires Get(r1, col) == Some(a) && Get(r2, col) == Some(b)
    ensures Keys([r1, r2], col) == if a == b then [a] else if StrLt(a, b) then [a, b] else [b, a]
  {
    assert [r1, r2][1..] == [r2];
    assert [r2][1..] == [];
    assert Keys([r2], col) == [b];
    assert Keys([r1, r2], col) == Insert([b], a);
    assert [b][1..] == [];
    assert Insert([b][1..], a) == [a];
  }

  /** Two rows sharing a delivery note, a color and a transfer key render as one page
      with one body, and the body's transfer table holds that one key. */
  lemma {:induction false} PairGroup(r0: Row, r1: Row, albaran: string, color: string, transfer: string)
    requires r0.albaran == Some(albaran) && r0.color == Some(color) && r0.transfer == Some(transfer)
    requires r1.albaran == Some(albaran) && r1.color == Some(color) && r1.transfer == Some(transfer)
    ensures Render([r0, r1]) == [PageStart(albaran), Subtitle(color, SumQty([r0, r1])), Gap(2)] + BodyEvents([r0, r1])
    ensures Totals([r0, r1], Transfer) == [Entry(transfer, SumQty([r0, r1]))]
  {
    SingleGroupRender([r0, r1], albaran, color, transfer);
    SelectPair(r0, r1, Transfer, transfer);
    SingleTransferSummary([r0, r1], transfer);
    OneKey([r0, r1], Transfer, transfer);
  }

  /** Two manifest rows of one delivery note, one color and one transfer key, the
      second with an unreadable quantity: one page, one heading with total 3, and one
      body whose size table lists L before M and counts the unreadable quantity as 0. */
  lemma {:induction false} TwoRowExample(bad: string)
    requires !Numeral(bad)
    ensures var raw := [RawRow(Some("A1"), Some("D1"), Some("M"), Some("3"), Some("Red"), Some("T1")),
                        RawRow(Some("A2"), Some("D1"), Some("L"), Some(bad), Some("Red"), Some("T1"))];
            var rows := Normalize(raw);
            |rows| == 2 && rows[0].delivered == 3 && rows[1].delivered == 0
            && Report(raw) == [PageStart("D1"), Subtitle("Red", 3), Gap(2)] + BodyEvents(rows)
            && Totals(rows, Size) == [Entry("L", 0), Entry("M", 3)]
            && Totals(rows, Transfer) == [Entry("T1", 3)]
  {
    var raw := [RawRow(Some("A1"), Some("D1"), Some("M"), Some("3"), Some("Red"), Some("T1")),
                RawRow(Some("A2"), Some("D1"), Some("L"), Some(bad), Some("Red"), Some("T1"))];
    var rows := Normalize(raw);
    var r0 := Row(Some("A1"), Some("D1"), Some("M"), 3, Some("Red"), Some("T1"));
    var r1 := Row(Some("A2"), Some("D1"), Some("L"), 0, Some("Red"), Some("T1"));
    assert rows == [r0, r1] by {
      assert CoerceQuantity(Some("3")) == 3 by {
        CoerceShown(3);
        assert Show(3) == "3";
      }
      CoerceFallback(bad);
    }
    assert SumQty([r0, r1]) == 3 by {
      assert [r0, r1][1..] == [r1];
      assert SumQty([r1]) == 0;
    }
    assert Report(raw) == [PageStart("D1"), Subtitle("Red", 3), Gap(2)] + BodyEvents(rows) by {
      SortInvisible(raw);
      PairGroup(r0, r1, "D1", "Red", "T1");
    }
    assert Totals(rows, Size) == [Entry("L", 0), Entry("M", 3)] by {
      assert StrLt("L", "M");
      PairSizeTotals(r0, r1, "M", "L");
    }
    assert Totals(rows, Transfer) == [Entry("T1", 3)] by {
      PairGroup(r0, r1, "D1", "Red", "T1");
    }
  }
}
