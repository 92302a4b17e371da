/** Decimal text of integers: the `str()` of an int used in every label of the
    report, and the integer literals the quantity column is parsed from. */
module Decimal {
  import opened Opt

  predicate IsDigit(c: char) { '0' <= c <= '9' }

  predicate AllDigits(s: string) { forall i :: 0 <= i < |s| ==> IsDigit(s[i]) }

  function DigitChar(d: nat): (c: char)
    requires d < 10
    ensures IsDigit(c)
  {
    (('0' as int) + d) as char
  }

  function DigitValue(c: char): nat
    requires IsDigit(c)
  {
    (c as int) - ('0' as int)
  }

  /** Value of a non-empty digit string, most significant digit first. */
  function DigitsValue(s: string): nat
    requires AllDigits(s)
  {
    if s == [] then 0 else 10 * DigitsValue(s[..|s| - 1]) + DigitValue(s[|s| - 1])
  }

  /** Shortest decimal text of a natural number. */
  function ShowNat(n: nat): (r: string)
    ensures r != [] && AllDigits(r)
  {
    if n < 10 then [DigitChar(n)] else ShowNat(n / 10) + [DigitChar(n % 10)]
  }

  /** Decimal text of an integer, with a leading '-' when negative (Python's `str`). */
  function Show(n: int): (r: string)
    ensures forall i :: 0 <= i < |r| ==> IsDigit(r[i]) || r[i] == '-'
  {
    if n < 0 then "-" + ShowNat(-n) else ShowNat(n)
  }

  /** Position of the first '.' in `s`, or |s| when there is none. */
  function DotIndex(s: string): (i: nat)
    ensures i <= |s|
    ensures forall j :: 0 <= j < i ==> s[j] != '.'
    ensures i < |s| ==> s[i] == '.'
  {
    if s == [] || s[0] == '.' then 0 else 1 + DotIndex(s[1..])
  }

  /** An unsigned decimal numeral, digits with at most one '.', at least one digit in all;
      its value is the whole part, the fraction being cut off. */
  function ParseUnsigned(s: string): Option<nat>
  {
    var i := DotIndex(s);
    var whole := s[..i];
    var fraction := if i < |s| then s[i + 1..] else [];
    if AllDigits(whole) && AllDigits(fraction) && (whole != [] || fraction != []) then
      Some(DigitsValue(whole))
    else None
  }

  /** A decimal numeral with an optional '+' or '-' sign, converted to an integer by
      truncation toward zero, as a float is by a cast to int. Any other text does not
      parse in this model (exponents, "inf" and padded numerals among them). */
  function ParseNumber(s: string): Option<int>
  {
    if s != [] && (s[0] == '-' || s[0] == '+') then
      match ParseUnsigned(s[1..])
      case None => None
      case Some(v) => Some(if s[0] == '-' then -(v as int) else v)
    else ParseUnsigned(s)
  }

  /** The texts an unsigned numeral is made of, stated character by character: only
      digits and '.', no two '.', and at least one digit. */
  predicate UnsignedNumeral(u: string)
  {
    (forall i :: 0 <= i < |u| ==> IsDigit(u[i]) || u[i] == '.')
    && (forall i, j :: 0 <= i < j < |u| && u[i] == '.' ==> u[j] != '.')
    && (exists i :: 0 <= i < |u| && IsDigit(u[i]))
  }

  /** An unsigned numeral, optionally after a leading '+' or '-'. */
  predicate Numeral(s: string)
  {
    if s != [] && (s[0] == '-' || s[0] == '+') then UnsignedNumeral(s[1..]) else UnsignedNumeral(s)
  }

  /** `ParseUnsigned` accepts exactly the unsigned numerals. */
  lemma {:induction false} ParseUnsignedDefined(u: string)
    ensures ParseUnsigned(u).Some? <==> UnsignedNumeral(u)
  {
    var d := DotIndex(u);
    var whole := u[..d];
    var fraction := if d < |u| then u[d + 1..] else [];
    if ParseUnsigned(u).Some? {
      assert AllDigits(whole) && AllDigits(fraction) && (whole != [] || fraction != []);
      forall i | 0 <= i < d ensures IsDigit(u[i]) {
        assert u[i] == whole[i];
      }
      forall i | d < i < |u| ensures IsDigit(u[i]) {
        assert u[i] == fraction[i - d - 1];
      }
      if whole != [] {
        assert IsDigit(u[0]) by { assert u[0] == whole[0]; }
      } else {
        assert IsDigit(u[d + 1]) by { assert u[d + 1] == fraction[0]; }
      }
    }
    if UnsignedNumeral(u) {
      forall i | 0 <= i < |whole| ensures IsDigit(whole[i]) {
        assert whole[i] == u[i];
      }
      forall i | 0 <= i < |fraction| ensures IsDigit(fraction[i]) {
        assert fraction[i] == u[d + 1 + i];
      }
      var k :| 0 <= k < |u| && IsDigit(u[k]);
      if k < d {
        assert whole != [];
      } else {
        assert k > d && fraction[k - d - 1] == u[k];
      }
    }
  }

  /** `ParseNumber` accepts exactly the numerals; every other text is rejected. */
  lemma {:induction false} ParseNumberDefined(s: string)
    ensures ParseNumber(s).Some? <==> Numeral(s)
  {
    if s != [] && (s[0] == '-' || s[0] == '+') {
      ParseUnsignedDefined(s[1..]);
    } else {
      ParseUnsignedDefined(s);
    }
  }

  lemma {:induction false} ShowNatValue(n: nat)
    ensures DigitsValue(ShowNat(n)) == n
  {
    if n >= 10 {
      var s := ShowNat(n);
      assert s[..|s| - 1] == ShowNat(n / 10);
      ShowNatValue(n / 10);
    }
  }

  lemma {:induction false} NoDot(s: string)
    requires AllDigits(s)
    ensures DotIndex(s) == |s|
  {
    if DotIndex(s) < |s| {
      assert false;
    }
  }

  lemma {:induction false} DotAfter(a: string, b: string)
    requires AllDigits(a)
    ensures DotIndex(a + b) == |a| + DotIndex(b)
  {
    if a != [] {
      assert (a + b)[0] == a[0] && (a + b)[1..] == a[1..] + b;
      DotAfter(a[1..], b);
    } else {
      assert a + b == b;
    }
  }

  /** A digit string, alone or followed by '.' and more digits, reads as its whole part. */
  lemma {:induction false} ParseDigits(d: string, fraction: string)
    requires d != [] && AllDigits(d) && AllDigits(fraction)
    ensures ParseUnsigned(d) == Some(DigitsValue(d))
    ensures ParseUnsigned(d + "." + fraction) == Some(DigitsValue(d))
  {
    NoDot(d);
    assert d[..|d|] == d;
    var u := d + "." + fraction;
    DotAfter(d, "." + fraction);
    assert u == d + ("." + fraction);
    assert u[..|d|] == d && u[|d| + 1..] == fraction;
  }

  lemma {:induction false} ParseNegative(u: string)
    ensures ParseNumber("-" + u) == match ParseUnsigned(u) { case None => None case Some(v) => Some(-(v as int)) }
  {
    assert ("-" + u)[0] == '-' && ("-" + u)[1..] == u;
  }

  lemma {:induction false} ParseNonNegative(u: string)
    requires u != [] && IsDigit(u[0])
    ensures ParseNumber(u) == match ParseUnsigned(u) { case None => None case Some(v) => Some(v as int) }
  {
  }

  /** Parsing the text of any integer, negative ones included, gives it back. */
  lemma {:induction false} ParseShow(n: int)
    ensures ParseNumber(Show(n)) == Some(n)
  {
    var digits := ShowNat(if n < 0 then -n else n);
    ParseDigits(digits, "");
    ShowNatValue(if n < 0 then -n else n);
    if n < 0 {
      ParseNegative(digits);
    } else {
      ParseNonNegative(digits);
    }
  }

  /** A fractional part is cut off: the text of `n` followed by '.' and digits parses
      as `n`, so -3.7 gives -3 and 3.7 gives 3. */
  lemma {:induction false} ParseTruncates(n: int, fraction: string)
    requires AllDigits(fraction)
    ensures ParseNumber(Show(n) + "." + fraction) == Some(n)
  {
    var digits := ShowNat(if n < 0 then -n else n);
    ParseDigits(digits, fraction);
    ShowNatValue(if n < 0 then -n else n);
    var u := digits + "." + fraction;
    if n < 0 {
      assert Show(n) + "." + fraction == "-" + u;
      ParseNegative(u);
    } else {
      assert Show(n) + "." + fraction == u;
      assert u[0] == digits[0];
      ParseNonNegative(u);
    }
  }
}
