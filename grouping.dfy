/** `groupby(column)` over a frame of rows, and the `sum` of the quantity column
    over a group. A groupby drops the rows whose key cell is empty, yields one group
    per distinct key in ascending key order, and keeps the frame's row order inside
    each group. */
module Grouping {
  import opened Opt
  import opened Rows
  import opened StringOrder

  /** The group of key `k`: the rows whose `col` is `k`, in frame order. */
  function Select(rows: seq<Row>, col: Column, k: string): (r: seq<Row>)
    ensures |r| <= |rows|
    ensures forall i :: 0 <= i < |r| ==> Get(r[i], col) == Some(k)
  {
    if rows == [] then []
    else (if Get(rows[0], col) == Some(k) then [rows[0]] else []) + Select(rows[1..], col, k)
  }

  /** The rows whose `col` cell is filled: those a groupby on `col` can place. */
  function Present(rows: seq<Row>, col: Column): (r: seq<Row>)
    ensures |r| <= |rows|
    ensures forall i :: 0 <= i < |r| ==> Get(r[i], col).Some?
  {
    if rows == [] then []
    else (if Get(rows[0], col).Some? then [rows[0]] else []) + Present(rows[1..], col)
  }

  /** The rows whose `col` cell is empty: those a groupby on `col` leaves out. */
  function Absent(rows: seq<Row>, col: Column): (r: seq<Row>)
    ensures |r| <= |rows|
    ensures forall i :: 0 <= i < |r| ==> Get(r[i], col) == None
  {
    if rows == [] then []
    else (if Get(rows[0], col) == None then [rows[0]] else []) + Absent(rows[1..], col)
  }

  /** The rows whose `col` is one of `ks`. */
  function SelectIn(rows: seq<Row>, col: Column, ks: seq<string>): seq<Row>
  {
    if rows == [] then []
    else (if Get(rows[0], col).Some? && Get(rows[0], col).value in ks then [rows[0]] else [])
         + SelectIn(rows[1..], col, ks)
  }

  /** The keys a groupby on `col` yields, in the order it yields them. */
  function Keys(rows: seq<Row>, col: Column): (ks: seq<string>)
    ensures Ascending(ks)
    ensures forall k :: k in ks <==> Select(rows, col, k) != []
  {
    if rows == [] then []
    else match Get(rows[0], col)
      case None => Keys(rows[1..], col)
      case Some(v) => Insert(Keys(rows[1..], col), v)
  }

  /** `sum()` of the quantity column (Entregadas). */
  function SumQty(rows: seq<Row>): int
  {
    if rows == [] then 0 else rows[0].delivered + SumQty(rows[1..])
  }

  /** One line of a `groupby(col)["Entregadas"].sum()` table. */
  datatype Entry = Entry(key: string, total: int)

  /** `groupby(col)["Entregadas"].sum()`: one entry per key, in key order. */
  function Totals(rows: seq<Row>, col: Column): seq<Entry>
  {
    var ks := Keys(rows, col);
    seq(|ks|, i requires 0 <= i < |ks| => Entry(ks[i], SumQty(Select(rows, col, ks[i]))))
  }

  function SumEntries(es: seq<Entry>): int
  {
    if es == [] then 0 else es[0].total + SumEntries(es[1..])
  }

  // ---------------------------------------------------------------------------
  // Sums

  lemma {:induction false} SumQtyAppend(a: seq<Row>, b: seq<Row>)
    ensures SumQty(a + b) == SumQty(a) + SumQty(b)
  {
    if a == [] {
      assert a + b == b;
    } else {
      assert (a + b)[1..] == a[1..] + b;
      SumQtyAppend(a[1..], b);
    }
  }

  lemma {:induction false} SumQtyRemove(b: seq<Row>, i: int)
    requires 0 <= i < |b|
    ensures SumQty(b) == b[i].delivered + SumQty(b[..i] + b[i + 1..])
  {
    assert b == b[..i] + ([b[i]] + b[i + 1..]);
    SumQtyAppend(b[..i], [b[i]] + b[i + 1..]);
    SumQtyAppend(b[..i], b[i + 1..]);
  }

  lemma {:induction false} MultisetRemove(b: seq<Row>, i: int)
    requires 0 <= i < |b|
    ensures multiset(b[..i] + b[i + 1..]) == multiset(b) - multiset{b[i]}
  {
    assert b == b[..i] + [b[i]] + b[i + 1..];
  }

  /** The sum does not depend on the order of the rows. */
  lemma {:induction false} SumQtyPermutation(a: seq<Row>, b: seq<Row>)
    requires multiset(a) == multiset(b)
    ensures SumQty(a) == SumQty(b)
  {
    if a != [] {
      var i := MatchingIndex(a, b);
      var rest := b[..i] + b[i + 1..];
      SumQtyPermutation(a[1..], rest);
      SumQtyRemove(b, i);
    } else {
      assert |b| == |multiset(b)| == 0;
    }
  }

  /** Where the first row of `a` sits in a reordering `b` of it, and what is left. */
  lemma {:induction false} MatchingIndex(a: seq<Row>, b: seq<Row>) returns (i: int)
    requires a != [] && multiset(a) == multiset(b)
    ensures 0 <= i < |b| && b[i] == a[0]
    ensures multiset(a[1..]) == multiset(b[..i] + b[i + 1..])
  {
    assert a[0] in b by {
      assert a[0] in multiset(a);
    }
    i :| 0 <= i < |b| && b[i] == a[0];
    RemoveMatching(a, b, i);
  }

  lemma {:induction false} RemoveMatching(a: seq<Row>, b: seq<Row>, i: int)
    requires a != [] && 0 <= i < |b| && b[i] == a[0] && multiset(a) == multiset(b)
    ensures multiset(a[1..]) == multiset(b[..i] + b[i + 1..])
  {
    var rest := b[..i] + b[i + 1..];
    MultisetRemove(b, i);
    assert multiset(a) == multiset{a[0]} + multiset(a[1..]) by {
      assert a == [a[0]] + a[1..];
    }
    forall r ensures multiset(a[1..])[r] == multiset(rest)[r] {
    }
  }

  lemma {:induction false} PresentAbsentSum(rows: seq<Row>, col: Column)
    ensures SumQty(Present(rows, col)) + SumQty(Absent(rows, col)) == SumQty(rows)
  {
    if rows != [] {
      PresentAbsentSum(rows[1..], col);
      var head := if Get(rows[0], col).Some? then [rows[0]] else [];
      var tail := if Get(rows[0], col) == None then [rows[0]] else [];
      SumQtyAppend(head, Present(rows[1..], col));
      SumQtyAppend(tail, Absent(rows[1..], col));
    }
  }

  // ---------------------------------------------------------------------------
  // Groups as multisets

  lemma {:induction false} SelectCount(rows: seq<Row>, col: Column, k: string, r: Row)
    ensures multiset(Select(rows, col, k))[r] == if Get(r, col) == Some(k) then multiset(rows)[r] else 0
  {
    if rows != [] {
      var head := if Get(rows[0], col) == Some(k) then [rows[0]] else [];
      SelectCount(rows[1..], col, k, r);
      assert multiset(Select(rows, col, k)) == multiset(head) + multiset(Select(rows[1..], col, k));
      assert multiset(rows) == multiset{rows[0]} + multiset(rows[1..]) by {
        assert rows == [rows[0]] + rows[1..];
      }
    }
  }

  lemma {:induction false} PresentCount(rows: seq<Row>, col: Column, r: Row)
    ensures multiset(Present(rows, col))[r] == if Get(r, col).Some? then multiset(rows)[r] else 0
  {
    if rows != [] {
      var head := if Get(rows[0], col).Some? then [rows[0]] else [];
      PresentCount(rows[1..], col, r);
      assert multiset(Present(rows, col)) == multiset(head) + multiset(Present(rows[1..], col));
      assert multiset(rows) == multiset{rows[0]} + multiset(rows[1..]) by {
        assert rows == [rows[0]] + rows[1..];
      }
    }
  }

  /** Reordering a frame reorders each of its groups the same way. */
  lemma {:induction false} SelectPermutation(a: seq<Row>, b: seq<Row>, col: Column, k: string)
    requires multiset(a) == multiset(b)
    ensures multiset(Select(a, col, k)) == multiset(Select(b, col, k))
  {
    forall r ensures multiset(Select(a, col, k))[r] == multiset(Select(b, col, k))[r] {
      SelectCount(a, col, k, r);
      SelectCount(b, col, k, r);
    }
  }

  lemma {:induction false} PresentPermutation(a: seq<Row>, b: seq<Row>, col: Column)
    requires multiset(a) == multiset(b)
    ensures multiset(Present(a, col)) == multiset(Present(b, col))
  {
    forall r ensures multiset(Present(a, col))[r] == multiset(Present(b, col))[r] {
      PresentCount(a, col, r);
      PresentCount(b, col, r);
    }
  }

  /** Reordering a frame does not change the keys a groupby yields, nor their order. */
  lemma {:induction false} KeysPermutation(a: seq<Row>, b: seq<Row>, col: Column)
    requires multiset(a) == multiset(b)
    ensures Keys(a, col) == Keys(b, col)
  {
    forall k ensures k in Keys(a, col) <==> k in Keys(b, col) {
      SelectPermutation(a, b, col, k);
      assert |Select(a, col, k)| == |multiset(Select(a, col, k))|;
      assert |Select(b, col, k)| == |multiset(Select(b, col, k))|;
    }
    AscendingUnique(Keys(a, col), Keys(b, col));
  }

  /** Rows of several keys, split into the rows of one key and the rest. */
  lemma {:induction false} SelectInSplit(rows: seq<Row>, col: Column, ks: seq<string>, rest: seq<string>, k: string)
    requires k !in rest
    requires forall y :: y in ks <==> y in rest || y == k
    ensures multiset(SelectIn(rows, col, ks)) == multiset(SelectIn(rows, col, rest)) + multiset(Select(rows, col, k))
  {
    if rows != [] {
      SelectInSplit(rows[1..], col, ks, rest, k);
    }
  }

  /** Selecting every key the groupby yields keeps exactly the rows with a filled key. */
  lemma {:induction false} SelectInCovers(rows: seq<Row>, col: Column, ks: seq<string>)
    requires forall k :: k in Keys(rows, col) ==> k in ks
    ensures SelectIn(rows, col, ks) == Present(rows, col)
  {
    if rows != [] {
      forall k | k in Keys(rows[1..], col) ensures k in ks {
        assert Select(rows[1..], col, k) != [];
        assert Select(rows, col, k) != [];
      }
      SelectInCovers(rows[1..], col, ks);
      if Get(rows[0], col).Some? {
        var v := Get(rows[0], col).value;
        assert Select(rows, col, v)[0] == rows[0];
      }
    }
  }

  lemma {:induction false} SelectCons(r: Row, rows: seq<Row>, col: Column, k: string)
    ensures Select([r] + rows, col, k) == (if Get(r, col) == Some(k) then [r] else []) + Select(rows, col, k)
  {
    assert ([r] + rows)[1..] == rows;
  }

  lemma {:induction false} PresentCons(r: Row, rows: seq<Row>, col: Column)
    ensures Present([r] + rows, col) == (if Get(r, col).Some? then [r] else []) + Present(rows, col)
  {
    assert ([r] + rows)[1..] == rows;
  }

  lemma {:induction false} SelectPresentCommute(rows: seq<Row>, col: Column, k: string, other: Column)
    ensures Select(Present(rows, other), col, k) == Present(Select(rows, col, k), other)
  {
    if rows != [] {
      var r := rows[0];
      SelectPresentCommute(rows[1..], col, k, other);
      var p := Present(rows[1..], other);
      var q := Select(rows[1..], col, k);
      if Get(r, other).Some? {
        SelectCons(r, p, col, k);
      } else {
        assert Present(rows, other) == p;
      }
      if Get(r, col) == Some(k) {
        PresentCons(r, q, other);
      } else {
        assert Select(rows, col, k) == q;
      }
    }
  }

  lemma {:induction false} SelectCommute(rows: seq<Row>, c1: Column, k1: string, c2: Column, k2: string)
    ensures Select(Select(rows, c1, k1), c2, k2) == Select(Select(rows, c2, k2), c1, k1)
  {
    if rows != [] {
      var r := rows[0];
      SelectCommute(rows[1..], c1, k1, c2, k2);
      var p := Select(rows[1..], c1, k1);
      var q := Select(rows[1..], c2, k2);
      if Get(r, c1) == Some(k1) {
        SelectCons(r, p, c2, k2);
      } else {
        assert Select(rows, c1, k1) == p;
      }
      if Get(r, c2) == Some(k2) {
        SelectCons(r, q, c1, k1);
      } else {
        assert Select(rows, c2, k2) == q;
      }
    }
  }

  /** A key of the rows with a filled `other` cell is a key of all the rows. */
  lemma {:induction false} PresentKeys(rows: seq<Row>, col: Column, other: Column)
    ensures forall k :: k in Keys(Present(rows, other), col) ==> k in Keys(rows, col)
  {
    forall k | k in Keys(Present(rows, other), col) ensures k in Keys(rows, col) {
      SelectPresentCommute(rows, col, k, other);
    }
  }

  // ---------------------------------------------------------------------------
  // Summed tables

  lemma {:induction false} SumSelectIn(rows: seq<Row>, col: Column, ks: seq<string>)
    requires Ascending(ks)
    ensures SumEntries(seq(|ks|, i requires 0 <= i < |ks| => Entry(ks[i], SumQty(Select(rows, col, ks[i])))))
            == SumQty(SelectIn(rows, col, ks))
  {
    var es := seq(|ks|, i requires 0 <= i < |ks| => Entry(ks[i], SumQty(Select(rows, col, ks[i]))));
    if ks == [] {
      assert SelectIn(rows, col, ks) == [] by { EmptySelectIn(rows, col, ks); }
    } else {
      var rest := ks[1..];
      assert Ascending(rest);
      assert SumEntries(es) == SumQty(Select(rows, col, ks[0])) + SumQty(SelectIn(rows, col, rest)) by {
        assert es[1..] == seq(|rest|, i requires 0 <= i < |rest| => Entry(rest[i], SumQty(Select(rows, col, rest[i]))));
        SumSelectIn(rows, col, rest);
      }
      assert multiset(SelectIn(rows, col, ks)) == multiset(SelectIn(rows, col, rest) + Select(rows, col, ks[0])) by {
        if ks[0] in rest {
          var j :| 0 <= j < |rest| && rest[j] == ks[0];
          AscendingDistinct(ks, 0, j + 1);
        }
        forall y ensures y in ks <==> y in rest || y == ks[0] {
          assert ks == [ks[0]] + rest;
        }
        SelectInSplit(rows, col, ks, rest, ks[0]);
      }
      SumQtyPermutation(SelectIn(rows, col, ks), SelectIn(rows, col, rest) + Select(rows, col, ks[0]));
      SumQtyAppend(SelectIn(rows, col, rest), Select(rows, col, ks[0]));
    }
  }

  lemma {:induction false} EmptySelectIn(rows: seq<Row>, col: Column, ks: seq<string>)
    requires ks == []
    ensures SelectIn(rows, col, ks) == []
  {
    if rows != [] {
      EmptySelectIn(rows[1..], col, ks);
    }
  }

  /** The totals of a groupby sum add up to the sum over the rows with a filled key;
      the rows with an empty key make up the difference. */
  lemma {:induction false} TotalsPartition(rows: seq<Row>, col: Column)
    ensures SumEntries(Totals(rows, col)) + SumQty(Absent(rows, col)) == SumQty(rows)
  {
    var ks := Keys(rows, col);
    SumSelectIn(rows, col, ks);
    SelectInCovers(rows, col, ks);
    PresentAbsentSum(rows, col);
  }

  /** Grouping a group again by its own key yields that one key. */
  lemma {:induction false} KeysOfGroup(rows: seq<Row>, col: Column, k: string)
    requires Select(rows, col, k) != []
    ensures Keys(Select(rows, col, k), col) == [k]
  {
    var g := Select(rows, col, k);
    forall y ensures y in Keys(g, col) <==> y in [k] {
      if y != k {
        NoKeySelect(g, col, y);
      } else {
        assert g[0] in Select(g, col, k) by { SelfSelect(g, col, k); }
      }
    }
    AscendingUnique(Keys(g, col), [k]);
  }

  lemma {:induction false} NoKeySelect(g: seq<Row>, col: Column, y: string)
    requires forall i :: 0 <= i < |g| ==> Get(g[i], col) != Some(y)
    ensures Select(g, col, y) == []
  {
    if g != [] {
      NoKeySelect(g[1..], col, y);
    }
  }

  /** Filtering distributes over concatenation. */
  lemma {:induction false} SelectAppend(a: seq<Row>, b: seq<Row>, col: Column, k: string)
    ensures Select(a + b, col, k) == Select(a, col, k) + Select(b, col, k)
  {
    if a == [] {
      assert a + b == b;
    } else {
      assert (a + b)[1..] == a[1..] + b;
      SelectAppend(a[1..], b, col, k);
    }
  }

  lemma {:induction false} SelfSelect(g: seq<Row>, col: Column, k: string)
    requires forall i :: 0 <= i < |g| ==> Get(g[i], col) == Some(k)
    ensures Select(g, col, k) == g
  {
    if g != [] {
      SelfSelect(g[1..], col, k);
      assert g == [g[0]] + g[1..];
    }
  }

  lemma {:induction false} NoneAbsent(g: seq<Row>, col: Column)
    requires forall i :: 0 <= i < |g| ==> Get(g[i], col).Some?
    ensures Absent(g, col) == []
  {
    if g != [] {
      NoneAbsent(g[1..], col);
    }
  }
}
