/** Python's `sub in s` on strings: substring search. */
module Substring {

  predicate Contains(s: string, sub: string)
    decreases |s|
  {
    |sub| <= |s| && (s[..|sub|] == sub || (s != [] && Contains(s[1..], sub)))
  }

  /** Extending the text on the right keeps every occurrence. */
  lemma {:induction false} ContainsExtendRight(s: string, t: string, sub: string)
    requires Contains(s, sub)
    ensures Contains(s + t, sub)
  {
    if s[..|sub|] != sub {
      ContainsExtendRight(s[1..], t, sub);
      assert (s + t)[1..] == s[1..] + t;
    } else {
      assert (s + t)[..|sub|] == s[..|sub|];
    }
  }

  /** Extending the text on the left keeps every occurrence. */
  lemma {:induction false} ContainsExtendLeft(p: string, t: string, sub: string)
    requires Contains(t, sub)
    ensures Contains(p + t, sub)
  {
    if p == [] {
      assert p + t == t;
    } else {
      ContainsExtendLeft(p[1..], t, sub);
      assert (p + t)[1..] == p[1..] + t;
    }
  }

  /** A text none of whose characters occurs in `sub` cannot contain `sub`. */
  lemma {:induction false} DisjointNotContains(t: string, sub: string)
    requires sub != []
    requires forall j :: 0 <= j < |t| ==> t[j] !in sub
    ensures !Contains(t, sub)
  {
    if |sub| <= |t| {
      assert t[..|sub|][0] == t[0] && t[0] !in sub;
      assert sub[0] in sub;
      DisjointNotContains(t[1..], sub);
    }
  }

  /** An occurrence cannot reach into a right part made of characters foreign to `sub`. */
  lemma {:induction false} ContainsDropRight(s: string, t: string, sub: string)
    requires sub != []
    requires forall j :: 0 <= j < |t| ==> t[j] !in sub
    requires Contains(s + t, sub)
    ensures Contains(s, sub)
  {
    if s == [] {
      assert s + t == t;
      DisjointNotContains(t, sub);
    } else {
      if |s| < |sub| {
        // the prefix of length |sub| ends inside t, whose characters are not in sub
        var k := |sub| - 1;
        assert (s + t)[..|sub|][k] == t[k - |s|];
        assert t[k - |s|] !in sub && sub[k] in sub;
      } else {
        assert (s + t)[..|sub|] == s[..|sub|];
      }
      if |s| < |sub| || s[..|sub|] != sub {
        assert (s + t)[1..] == s[1..] + t;
        ContainsDropRight(s[1..], t, sub);
      }
    }
  }

  /** An occurrence cannot start in a left part that lacks the first character of `sub`. */
  lemma {:induction false} ContainsDropLeft(p: string, t: string, sub: string)
    requires sub != []
    requires forall j :: 0 <= j < |p| ==> p[j] != sub[0]
    requires Contains(p + t, sub)
    ensures Contains(t, sub)
  {
    if p == [] {
      assert p + t == t;
    } else {
      assert (p + t)[..|sub|][0] == p[0] != sub[0];
      assert (p + t)[1..] == p[1..] + t;
      ContainsDropLeft(p[1..], t, sub);
    }
  }
}
