/** Python's ordering of `str` values: lexicographic by code point, a proper prefix
    coming first. Group keys are visited in this order. */
module StringOrder {

  predicate StrLt(a: string, b: string)
  {
    if a == [] then b != []
    else if b == [] then false
    else a[0] < b[0] || (a[0] == b[0] && StrLt(a[1..], b[1..]))
  }

  lemma {:induction false} StrLtIrreflexive(a: string)
    ensures !StrLt(a, a)
  {
    if a != [] {
      StrLtIrreflexive(a[1..]);
    }
  }

  lemma {:induction false} StrLtTransitive(a: string, b: string, c: string)
    requires StrLt(a, b) && StrLt(b, c)
    ensures StrLt(a, c)
  {
    if a != [] && a[0] == b[0] && b[0] == c[0] {
      StrLtTransitive(a[1..], b[1..], c[1..]);
    }
  }

  lemma {:induction false} StrLtTotal(a: string, b: string)
    requires a != b
    ensures StrLt(a, b) || StrLt(b, a)
  {
    if a != [] && b != [] && a[0] == b[0] {
      assert a == [a[0]] + a[1..] && b == [b[0]] + b[1..];
      StrLtTotal(a[1..], b[1..]);
    }
  }

  lemma {:induction false} StrLtAsymmetric(a: string, b: string)
    requires StrLt(a, b)
    ensures !StrLt(b, a)
  {
    if StrLt(b, a) {
      StrLtTransitive(a, b, a);
      StrLtIrreflexive(a);
    }
  }

  /** Strictly ascending: the order in which a sorted groupby yields its keys. */
  predicate Ascending(ks: seq<string>)
  {
    forall i, j :: 0 <= i < j < |ks| ==> StrLt(ks[i], ks[j])
  }

  lemma {:induction false} AscendingDistinct(ks: seq<string>, i: int, j: int)
    requires Ascending(ks) && 0 <= i < |ks| && 0 <= j < |ks| && i != j
    ensures ks[i] != ks[j]
  {
    if i < j {
      StrLtIrreflexive(ks[i]);
    } else {
      StrLtIrreflexive(ks[j]);
    }
  }

  /** The last key of an ascending list is not among the ones before it. */
  lemma {:induction false} AscendingLastFresh(ks: seq<string>)
    requires Ascending(ks) && ks != []
    ensures ks[|ks| - 1] !in ks[..|ks| - 1]
    ensures Ascending(ks[..|ks| - 1])
  {
    if ks[|ks| - 1] in ks[..|ks| - 1] {
      var i :| 0 <= i < |ks| - 1 && ks[i] == ks[|ks| - 1];
      AscendingDistinct(ks, i, |ks| - 1);
    }
  }

  /** Adds `k` to an ascending list of keys, keeping it ascending and duplicate-free. */
  function Insert(ks: seq<string>, k: string): (r: seq<string>)
    requires Ascending(ks)
    ensures Ascending(r)
    ensures forall x :: x in r <==> x in ks || x == k
  {
    if ks == [] then [k]
    else if k == ks[0] then ks
    else if StrLt(k, ks[0]) then
      InsertFirst(ks, k);
      [k] + ks
    else
      StrLtTotal(k, ks[0]);
      var rest := Insert(ks[1..], k);
      InsertAfter(ks, k, rest);
      [ks[0]] + rest
  }

  lemma {:induction false} InsertAfter(ks: seq<string>, k: string, rest: seq<string>)
    requires Ascending(ks) && ks != [] && StrLt(ks[0], k) && Ascending(rest)
    requires forall x :: x in rest <==> x in ks[1..] || x == k
    ensures Ascending([ks[0]] + rest)
  {
    forall j | 0 <= j < |rest| ensures StrLt(ks[0], rest[j]) {
      assert rest[j] in rest;
      if rest[j] != k {
        var i :| 0 <= i < |ks[1..]| && ks[1..][i] == rest[j];
        assert ks[i + 1] == rest[j];
      }
    }
  }

  lemma {:induction false} InsertFirst(ks: seq<string>, k: string)
    requires Ascending(ks) && ks != [] && StrLt(k, ks[0])
    ensures Ascending([k] + ks)
  {
    forall j | 0 < j < |ks| ensures StrLt(k, ks[j]) {
      StrLtTransitive(k, ks[0], ks[j]);
    }
  }

  /** An ascending list is determined by its elements. */
  lemma {:induction false} AscendingUnique(a: seq<string>, b: seq<string>)
    requires Ascending(a) && Ascending(b)
    requires forall x :: x in a <==> x in b
    ensures a == b
  {
    if a != [] {
      assert a[0] in a;
    }
    if b != [] {
      assert b[0] in b;
    }
    if a != [] && b != [] {
      if a[0] != b[0] {
        var i :| 0 <= i < |b| && b[i] == a[0];
        var j :| 0 <= j < |a| && a[j] == b[0];
        assert i > 0 && j > 0;
        StrLtAsymmetric(b[0], a[0]);
      }
      forall x ensures x in a[1..] <==> x in b[1..] {
        if x in a[1..] {
          var i :| 1 <= i < |a| && a[i] == x;
          AscendingDistinct(a, 0, i);
          assert x in b;
          if x == b[0] { assert false; }
        }
        if x in b[1..] {
          var i :| 1 <= i < |b| && b[i] == x;
          AscendingDistinct(b, 0, i);
          assert x in a;
          if x == a[0] { assert false; }
        }
      }
      AscendingUnique(a[1..], b[1..]);
      assert a == [a[0]] + a[1..] && b == [b[0]] + b[1..];
    }
  }
}
