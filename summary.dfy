/** The right-hand column of a report body: a per-size table and a per-transfer table
    of delivered units, each under a heading, as the lines of text it prints. */
module Summary {
  import opened Opt
  import opened Decimal
  import opened Substring
  import opened Rows
  import opened Grouping

  const SizeHeading: string := "Resumen por Talla:"
  const TransferHeading: string := "Resumen por Transfer:"
  /** A summary line is printed in bold exactly when it contains this word. */
  const BoldMarker: string := "Resumen"

  function SizeLine(e: Entry): string
  {
    e.key + ": " + Show(e.total)
  }

  function TransferLine(e: Entry): string
  {
    "Transfer " + e.key + ": " + Show(e.total)
  }

  function SizeLines(es: seq<Entry>): seq<string>
  {
    seq(|es|, i requires 0 <= i < |es| => SizeLine(es[i]))
  }

  function TransferLines(es: seq<Entry>): seq<string>
  {
    seq(|es|, i requires 0 <= i < |es| => TransferLine(es[i]))
  }

  /** The column printed for a per-size and a per-transfer table. */
  function SummaryColumn(sizes: seq<Entry>, transfers: seq<Entry>): seq<string>
  {
    [SizeHeading] + SizeLines(sizes) + [TransferHeading] + TransferLines(transfers)
  }

  /** The summary lines of one body, top to bottom. */
  function SummaryText(data: seq<Row>): seq<string>
  {
    SummaryColumn(Totals(data, Size), Totals(data, Transfer))
  }

  datatype SummaryLine = SummaryLine(text: string, bold: bool)

  /** The font a summary line is printed in. */
  function Styled(text: string): SummaryLine
  {
    SummaryLine(text, Contains(text, BoldMarker))
  }

  /** Builds the summary lines by appending, heading first, then one line per size,
      then the transfer heading and one line per transfer key. */
  method BuildSummary(sizes: seq<Entry>, transfers: seq<Entry>) returns (resumen: seq<string>)
    ensures resumen == SummaryColumn(sizes, transfers)
  {
    resumen := [SizeHeading];
    for i := 0 to |sizes|
      invariant resumen == [SizeHeading] + SizeLines(sizes[..i])
    {
      assert SizeLines(sizes[..i + 1]) == SizeLines(sizes[..i]) + [SizeLine(sizes[i])];
      resumen := resumen + [SizeLine(sizes[i])];
    }
    assert sizes[..|sizes|] == sizes;
    resumen := resumen + [TransferHeading];
    ghost var head := resumen;
    for i := 0 to |transfers|
      invariant resumen == head + TransferLines(transfers[..i])
    {
      assert TransferLines(transfers[..i + 1]) == TransferLines(transfers[..i]) + [TransferLine(transfers[i])];
      resumen := resumen + [TransferLine(transfers[i])];
    }
    assert transfers[..|transfers|] == transfers;
  }

  /** The shape of a column: the size heading, one line per size entry, the transfer
      heading, one line per transfer entry, in table order. */
  lemma {:induction false} ColumnLayout(sizes: seq<Entry>, transfers: seq<Entry>)
    ensures var text := SummaryColumn(sizes, transfers);
            |text| == 2 + |sizes| + |transfers|
            && text[0] == SizeHeading
            && text[1 + |sizes|] == TransferHeading
            && (forall i :: 0 <= i < |sizes| ==> text[1 + i] == SizeLine(sizes[i]))
            && (forall i :: 0 <= i < |transfers| ==> text[2 + |sizes| + i] == TransferLine(transfers[i]))
  {
  }

  /** The column of a body has one line per distinct size and per distinct transfer key
      of its rows, besides the two headings; the keys of each table ascend. */
  lemma {:induction false} SummaryLayout(data: seq<Row>)
    ensures var text := SummaryText(data);
            |text| == 2 + |Keys(data, Size)| + |Keys(data, Transfer)|
            && text[0] == SizeHeading
            && text[1 + |Keys(data, Size)|] == TransferHeading
  {
    ColumnLayout(Totals(data, Size), Totals(data, Transfer));
  }

  /** Line `1 + i` of a body's column reports the `i`-th smallest size with the units
      of the rows of that size. */
  lemma {:induction false} SizeLineAt(data: seq<Row>, i: int)
    requires 0 <= i < |Keys(data, Size)|
    ensures var k := Keys(data, Size)[i];
            SummaryText(data)[1 + i] == k + ": " + Show(SumQty(Select(data, Size, k)))
  {
    ColumnLayout(Totals(data, Size), Totals(data, Transfer));
  }

  /** Line `2 + |sizes| + i` of a body's column reports the `i`-th smallest transfer key
      with the units of the rows of that key. */
  lemma {:induction false} TransferLineAt(data: seq<Row>, i: int)
    requires 0 <= i < |Keys(data, Transfer)|
    ensures var k := Keys(data, Transfer)[i];
            SummaryText(data)[2 + |Keys(data, Size)| + i] == "Transfer " + k + ": " + Show(SumQty(Select(data, Transfer, k)))
  {
    ColumnLayout(Totals(data, Size), Totals(data, Transfer));
  }

  lemma {:induction false} MarkerLetters(c: char)
    requires IsDigit(c) || c == '-' || c == ':' || c == ' '
    ensures c !in BoldMarker
  {
  }

  lemma {:induction false} HeadingsBold()
    ensures Styled(SizeHeading).bold && Styled(TransferHeading).bold
  {
    assert SizeHeading[..|BoldMarker|] == BoldMarker;
    assert TransferHeading[..|BoldMarker|] == BoldMarker;
  }

  /** The tail ": <total>" of a summary line holds no letter of the marker. */
  lemma {:induction false} TotalSuffixForeign(total: int)
    ensures var t := ": " + Show(total);
            forall j :: 0 <= j < |t| ==> t[j] !in BoldMarker
  {
    var t := ": " + Show(total);
    forall j | 0 <= j < |t| ensures t[j] !in BoldMarker {
      if j >= 2 {
        assert t[j] == Show(total)[j - 2];
      }
      MarkerLetters(t[j]);
    }
  }

  /** A size line is bold exactly when its size contains the marker. */
  lemma {:induction false} SizeLineBold(e: Entry)
    ensures Styled(SizeLine(e)).bold <==> Contains(e.key, BoldMarker)
  {
    var t := ": " + Show(e.total);
    assert SizeLine(e) == e.key + t;
    TotalSuffixForeign(e.total);
    if Contains(SizeLine(e), BoldMarker) {
      ContainsDropRight(e.key, t, BoldMarker);
    }
    if Contains(e.key, BoldMarker) {
      ContainsExtendRight(e.key, t, BoldMarker);
    }
  }

  /** A transfer line is bold exactly when its transfer key contains the marker. */
  lemma {:induction false} TransferLineBold(e: Entry)
    ensures Styled(TransferLine(e)).bold <==> Contains(e.key, BoldMarker)
  {
    var p := "Transfer ";
    var t := ": " + Show(e.total);
    assert TransferLine(e) == (p + e.key) + t;
    TotalSuffixForeign(e.total);
    if Contains(TransferLine(e), BoldMarker) {
      ContainsDropRight(p + e.key, t, BoldMarker);
      ContainsDropLeft(p, e.key, BoldMarker);
    }
    if Contains(e.key, BoldMarker) {
      ContainsExtendLeft(p, e.key, BoldMarker);
      ContainsExtendRight(p + e.key, t, BoldMarker);
    }
  }

  /** Line `i` of a column is bold iff it is one of the two headings or the size or
      transfer key it reports contains the marker. */
  lemma {:induction false} ColumnBold(sizes: seq<Entry>, transfers: seq<Entry>, i: int)
    requires 0 <= i < |SummaryColumn(sizes, transfers)|
    ensures Styled(SummaryColumn(sizes, transfers)[i]).bold <==>
              i == 0 || i == 1 + |sizes|
              || (1 <= i <= |sizes| && Contains(sizes[i - 1].key, BoldMarker))
              || (2 + |sizes| <= i && Contains(transfers[i - 2 - |sizes|].key, BoldMarker))
  {
    HeadingsBold();
    if 1 <= i <= |sizes| {
      SizeLineBold(sizes[i - 1]);
    } else if 2 + |sizes| <= i {
      TransferLineBold(transfers[i - 2 - |sizes|]);
    }
  }

  /** The same for the column of a body: line `i` is bold iff it is a heading or its
      size or transfer key contains the marker. */
  lemma {:induction false} SummaryBold(data: seq<Row>, i: int)
    requires 0 <= i < |SummaryText(data)|
    ensures var sizes := Keys(data, Size);
            var transfers := Keys(data, Transfer);
            Styled(SummaryText(data)[i]).bold <==>
              i == 0 || i == 1 + |sizes|
              || (1 <= i <= |sizes| && Contains(sizes[i - 1], BoldMarker))
              || (2 + |sizes| <= i && Contains(transfers[i - 2 - |sizes|], BoldMarker))
  {
    var sizes := Totals(data, Size);
    var transfers := Totals(data, Transfer);
    var text := SummaryText(data);
    assert text == SummaryColumn(sizes, transfers);
    var line := text[i];
    ColumnBoldKeys(sizes, transfers, Keys(data, Size), Keys(data, Transfer), i);
    assert Styled(line).bold == Styled(SummaryColumn(sizes, transfers)[i]).bold;
  }

  /** `ColumnBold` with the keys of the two tables given on their own. */
  lemma {:induction false} ColumnBoldKeys(sizes: seq<Entry>, transfers: seq<Entry>,
                                          sk: seq<string>, tk: seq<string>, i: int)
    requires |sk| == |sizes| && forall j :: 0 <= j < |sk| ==> sizes[j].key == sk[j]
    requires |tk| == |transfers| && forall j :: 0 <= j < |tk| ==> transfers[j].key == tk[j]
    requires 0 <= i < |SummaryColumn(sizes, transfers)|
    ensures Styled(SummaryColumn(sizes, transfers)[i]).bold <==>
              i == 0 || i == 1 + |sk|
              || (1 <= i <= |sk| && Contains(sk[i - 1], BoldMarker))
              || (2 + |sk| <= i && Contains(tk[i - 2 - |sk|], BoldMarker))
  {
    ColumnBold(sizes, transfers, i);
  }

  /** A body that receives one transfer group lists that one key under the transfer
      heading, with the group's total; the size lines add up to the same total less
      the rows whose size is empty. */
  lemma {:induction false} SingleTransferSummary(rows: seq<Row>, transfer: string)
    requires Select(rows, Transfer, transfer) != []
    ensures var data := Select(rows, Transfer, transfer);
            var text := SummaryText(data);
            Totals(data, Transfer) == [Entry(transfer, SumQty(data))]
            && |text| == 3 + |Keys(data, Size)|
            && text[|text| - 1] == TransferLine(Entry(transfer, SumQty(data)))
            && SumEntries(Totals(data, Size)) + SumQty(Absent(data, Size)) == SumQty(data)
  {
    var data := Select(rows, Transfer, transfer);
    var entry := Entry(transfer, SumQty(data));
    assert Totals(data, Transfer) == [entry] by {
      KeysOfGroup(rows, Transfer, transfer);
      SelfSelect(data, Transfer, transfer);
    }
    var text := SummaryText(data);
    assert |text| == 3 + |Keys(data, Size)| && text[|text| - 1] == TransferLine(entry) by {
      ColumnLayout(Totals(data, Size), [entry]);
    }
    TotalsPartition(data, Size);
  }
}
