/** The manifest's rows: six tab-separated columns, Código, NºAlbarán, Talla,
    Entregadas, Color and ClaveCriterioX, every one read as text. */
module Rows {
  import opened Opt
  import opened Decimal

  /** A cell as read: `None` when the reader made it NaN (an empty cell or a
      missing-value marker such as "NA" or "N/A"). */
  type Field = Option<string>

  /** A row as read, before the quantity column is converted. */
  datatype RawRow = RawRow(code: Field, albaran: Field, size: Field, delivered: Field,
                           color: Field, transfer: Field)

  /** A row after the quantity column (Entregadas) has been made an integer. */
  datatype Row = Row(code: Field, albaran: Field, size: Field, delivered: int,
                     color: Field, transfer: Field)

  /** The text columns a report groups or sums by. */
  datatype Column = Albaran | Color | Size | Transfer

  function Get(r: Row, col: Column): Field
  {
    match col
    case Albaran => r.albaran
    case Color => r.color
    case Size => r.size
    case Transfer => r.transfer
  }

  /** `to_numeric(errors='coerce').fillna(0).astype(int)` on one cell: an empty cell
      or a text that is not a decimal numeral becomes 0; nothing clamps negatives. */
  function CoerceQuantity(f: Field): int
  {
    match f
    case None => 0
    case Some(s) => match ParseNumber(s) { case Some(n) => n case None => 0 }
  }

  function NormalizeRow(raw: RawRow): Row
  {
    Row(raw.code, raw.albaran, raw.size, CoerceQuantity(raw.delivered), raw.color, raw.transfer)
  }

  /** Converts the quantity column of every row; the other columns are kept as read. */
  function Normalize(raw: seq<RawRow>): (rows: seq<Row>)
    ensures |rows| == |raw|
    ensures forall i :: 0 <= i < |raw| ==> rows[i] == NormalizeRow(raw[i])
  {
    if raw == [] then [] else [NormalizeRow(raw[0])] + Normalize(raw[1..])
  }

  /** A quantity cell holding the text of any integer yields that integer:
      negative quantities pass through unchanged. */
  lemma {:induction false} CoerceShown(n: int)
    ensures CoerceQuantity(Some(Show(n))) == n
  {
    ParseShow(n);
  }

  /** An empty quantity cell counts as 0, and so does a text that is not a numeral:
      one with a character other than a digit, a single '.' and a leading sign, or
      with no digit at all. */
  lemma {:induction false} CoerceFallback(s: string)
    requires !Numeral(s)
    ensures CoerceQuantity(None) == 0 && CoerceQuantity(Some(s)) == 0
  {
    ParseNumberDefined(s);
  }

  /** For instance "bad" is not a numeral, "3.5" is cut to 3 and "-4" stays -4. */
  lemma {:induction false} CoerceExamples()
    ensures CoerceQuantity(Some("bad")) == 0
    ensures CoerceQuantity(Some("3.5")) == 3
    ensures CoerceQuantity(Some("-4")) == -4
  {
    assert !IsDigit('b');
    assert DigitsValue("3") == 3 && DigitsValue("4") == 4;
  }
}
