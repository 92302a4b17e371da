/** `sort_values(by=["Color", "ClaveCriterioX"])`: a stable sort of the rows by color,
    then by transfer key, each column ascending with empty cells last. */
module Sorting {
  import opened Opt
  import opened Rows
  import opened StringOrder
  import opened Grouping

  /** Order of one sort column: texts ascending, an empty cell after every text. */
  predicate FieldLt(a: Field, b: Field)
  {
    match a
    case None => false
    case Some(x) => (match b { case None => true case Some(y) => StrLt(x, y) })
  }

  /** Row `a` sorts strictly before row `b`. */
  predicate KeyLt(a: Row, b: Row)
  {
    FieldLt(a.color, b.color) || (a.color == b.color && FieldLt(a.transfer, b.transfer))
  }

  lemma {:induction false} FieldLtIrreflexive(a: Field)
    ensures !FieldLt(a, a)
  {
    if a.Some? {
      StrLtIrreflexive(a.value);
    }
  }

  lemma {:induction false} FieldLtTransitive(a: Field, b: Field, c: Field)
    requires FieldLt(a, b) && FieldLt(b, c)
    ensures FieldLt(a, c)
  {
    if c.Some? {
      StrLtTransitive(a.value, b.value, c.value);
    }
  }

  lemma {:induction false} FieldLtTotal(a: Field, b: Field)
    requires a != b
    ensures FieldLt(a, b) || FieldLt(b, a)
  {
    if a.Some? && b.Some? {
      StrLtTotal(a.value, b.value);
    }
  }

  lemma {:induction false} KeyLtIrreflexive(a: Row)
    ensures !KeyLt(a, a)
  {
    FieldLtIrreflexive(a.color);
    FieldLtIrreflexive(a.transfer);
  }

  lemma {:induction false} KeyLtAsymmetric(a: Row, b: Row)
    requires KeyLt(a, b)
    ensures !KeyLt(b, a)
  {
    if KeyLt(b, a) {
      if FieldLt(a.color, b.color) && FieldLt(b.color, a.color) {
        FieldLtTransitive(a.color, b.color, a.color);
      } else if FieldLt(a.transfer, b.transfer) && FieldLt(b.transfer, a.transfer) {
        FieldLtTransitive(a.transfer, b.transfer, a.transfer);
      }
      FieldLtIrreflexive(a.color);
      FieldLtIrreflexive(a.transfer);
    }
  }

  /** Rows that do not sort before one another form a chain: "not before" is transitive. */
  lemma {:induction false} KeyLtNegativelyTransitive(a: Row, b: Row, c: Row)
    requires !KeyLt(b, a) && !KeyLt(c, b)
    ensures !KeyLt(c, a)
  {
    if a.color != b.color {
      FieldLtTotal(a.color, b.color);
    }
    if b.color != c.color {
      FieldLtTotal(b.color, c.color);
    }
    if a.transfer != b.transfer {
      FieldLtTotal(a.transfer, b.transfer);
    }
    if b.transfer != c.transfer {
      FieldLtTotal(b.transfer, c.transfer);
    }
    if KeyLt(c, a) {
      if FieldLt(c.color, a.color) {
        if FieldLt(a.color, b.color) {
          FieldLtTransitive(c.color, a.color, b.color);
          if FieldLt(b.color, c.color) {
            FieldLtTransitive(c.color, b.color, c.color);
          }
        } else if FieldLt(b.color, c.color) {
          FieldLtTransitive(b.color, c.color, a.color);
        }
      } else if FieldLt(a.transfer, b.transfer) {
        FieldLtTransitive(c.transfer, a.transfer, b.transfer);
        if FieldLt(b.transfer, c.transfer) {
          FieldLtTransitive(c.transfer, b.transfer, c.transfer);
        }
      } else if FieldLt(b.transfer, c.transfer) {
        FieldLtTransitive(b.transfer, c.transfer, a.transfer);
      }
      FieldLtIrreflexive(a.color);
      FieldLtIrreflexive(b.color);
      FieldLtIrreflexive(c.color);
      FieldLtIrreflexive(a.transfer);
      FieldLtIrreflexive(b.transfer);
      FieldLtIrreflexive(c.transfer);
    }
  }

  predicate Sorted(s: seq<Row>)
  {
    forall i, j :: 0 <= i < j < |s| ==> !KeyLt(s[j], s[i])
  }

  /** Places `r` in front of the first row that does not sort before it. */
  function InsertRow(r: Row, sorted: seq<Row>): seq<Row>
  {
    if sorted == [] then [r]
    else if !KeyLt(sorted[0], r) then [r] + sorted
    else [sorted[0]] + InsertRow(r, sorted[1..])
  }

  /** The sorted frame: insertion sort from the back, which keeps rows of equal key in
      their original order, as the lexicographic sort of a multi-column key does. */
  function SortRows(rows: seq<Row>): seq<Row>
  {
    if rows == [] then [] else InsertRow(rows[0], SortRows(rows[1..]))
  }

  lemma {:induction false} InsertRowPermutation(r: Row, s: seq<Row>)
    ensures multiset(InsertRow(r, s)) == multiset(s) + multiset{r}
  {
    if s != [] && KeyLt(s[0], r) {
      InsertRowPermutation(r, s[1..]);
      assert s == [s[0]] + s[1..];
    }
  }

  /** The sorted frame holds the same rows, each as often as before. */
  lemma {:induction false} SortPermutation(rows: seq<Row>)
    ensures multiset(SortRows(rows)) == multiset(rows)
  {
    if rows != [] {
      SortPermutation(rows[1..]);
      InsertRowPermutation(rows[0], SortRows(rows[1..]));
      assert rows == [rows[0]] + rows[1..];
    }
  }

  lemma {:induction false} InsertRowSorted(r: Row, s: seq<Row>)
    requires Sorted(s)
    ensures Sorted(InsertRow(r, s))
  {
    if s != [] {
      if !KeyLt(s[0], r) {
        forall j | 0 < j < |s| ensures !KeyLt(s[j], r) {
          KeyLtNegativelyTransitive(r, s[0], s[j]);
        }
      } else {
        var rest := InsertRow(r, s[1..]);
        InsertRowSorted(r, s[1..]);
        InsertRowPermutation(r, s[1..]);
        KeyLtAsymmetric(s[0], r);
        forall j | 0 <= j < |rest| ensures !KeyLt(rest[j], s[0]) {
          assert rest[j] in multiset(rest);
          if rest[j] != r {
            assert rest[j] in multiset(s[1..]);
            var k :| 0 <= k < |s[1..]| && s[1..][k] == rest[j];
            assert s[k + 1] == rest[j];
          }
        }
      }
    }
  }

  /** The sorted frame is in ascending (color, transfer) order. */
  lemma {:induction false} SortSorted(rows: seq<Row>)
    ensures Sorted(SortRows(rows))
  {
    if rows != [] {
      SortSorted(rows[1..]);
      InsertRowSorted(rows[0], SortRows(rows[1..]));
    }
  }

  /** The rows of one (color, transfer) pair, in frame order. */
  function Bucket(rows: seq<Row>, color: string, transfer: string): seq<Row>
  {
    Select(Select(rows, Color, color), Transfer, transfer)
  }

  lemma {:induction false} BucketCons(r: Row, rows: seq<Row>, color: string, transfer: string)
    ensures Bucket([r] + rows, color, transfer)
         == (if r.color == Some(color) && r.transfer == Some(transfer) then [r] else [])
            + Bucket(rows, color, transfer)
  {
    SelectCons(r, rows, Color, color);
    if r.color == Some(color) {
      SelectCons(r, Select(rows, Color, color), Transfer, transfer);
    } else {
      assert Select([r] + rows, Color, color) == Select(rows, Color, color);
    }
  }

  lemma {:induction false} InsertRowBucket(r: Row, s: seq<Row>, color: string, transfer: string)
    ensures Bucket(InsertRow(r, s), color, transfer)
         == (if r.color == Some(color) && r.transfer == Some(transfer) then [r] else [])
            + Bucket(s, color, transfer)
  {
    if s == [] {
      BucketCons(r, s, color, transfer);
    } else if !KeyLt(s[0], r) {
      BucketCons(r, s, color, transfer);
    } else {
      // s[0] sorts before r, so the two never share a bucket
      KeyLtIrreflexive(r);
      InsertRowBucket(r, s[1..], color, transfer);
      BucketCons(s[0], InsertRow(r, s[1..]), color, transfer);
      BucketCons(s[0], s[1..], color, transfer);
      assert s == [s[0]] + s[1..];
    }
  }

  /** The sort is stable: the rows of one (color, transfer) pair keep their input order. */
  lemma {:induction false} SortStable(rows: seq<Row>, color: string, transfer: string)
    ensures Bucket(SortRows(rows), color, transfer) == Bucket(rows, color, transfer)
  {
    if rows != [] {
      SortStable(rows[1..], color, transfer);
      InsertRowBucket(rows[0], SortRows(rows[1..]), color, transfer);
      BucketCons(rows[0], rows[1..], color, transfer);
      assert rows == [rows[0]] + rows[1..];
    }
  }
}
