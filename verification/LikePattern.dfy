/** Search terms inside LIKE patterns. */
module LikePattern {
  import opened Names

  /** Every occurrence of one character replaced. */
  function ReplaceAll(s: string, from: char, into: string): string {
    if s == [] then [] else (if s[0] == from then into else [s[0]]) + ReplaceAll(s[1..], from, into)
  }

  function EscapeLikePattern(s: string): string {
    ReplaceAll(ReplaceAll(ReplaceAll(s, '\\', "\\\\"), '%', "\\%"), '_', "\\_")
  }

  // ---------------------------------------------------------------- the three passes are one

  function EscapeChar(c: char): string { if c == '\\' || c == '%' || c == '_' then ['\\', c] else [c] }

  function EscapeEach(s: string): string {
    if s == [] then [] else EscapeChar(s[0]) + EscapeEach(s[1..])
  }

  lemma {:induction false} ReplaceAllOfSum(a: string, b: string, c: char, r: string)
    ensures ReplaceAll(a + b, c, r) == ReplaceAll(a, c, r) + ReplaceAll(b, c, r)
  {
    if a == [] {
      assert a + b == b;
    } else {
      assert (a + b)[1..] == a[1..] + b;
      ReplaceAllOfSum(a[1..], b, c, r);
    }
  }

  lemma ReplaceAllOfChar(d: char, c: char, r: string)
    ensures ReplaceAll([d], c, r) == if d == c then r else [d]
  {
    assert [d][1..] == [];
  }

  lemma EscapeOfChar(c: char)
    ensures EscapeLikePattern([c]) == EscapeChar(c)
  {
    ReplaceAllOfChar(c, '\\', "\\\\");
    if c == '\\' {
      ReplaceAllOfSum(['\\'], ['\\'], '%', "\\%");
      ReplaceAllOfSum(['\\'], ['\\'], '_', "\\_");
      ReplaceAllOfChar('\\', '%', "\\%");
      ReplaceAllOfChar('\\', '_', "\\_");
    } else {
      ReplaceAllOfChar(c, '%', "\\%");
      ReplaceAllOfChar(c, '_', "\\_");
      if c == '%' {
        ReplaceAllOfSum(['\\'], ['%'], '_', "\\_");
        ReplaceAllOfChar('\\', '_', "\\_");
      }
    }
  }

  /** In this order the passes never escape what another pass has written. */
  lemma {:induction false} PassesAreOne(s: string)
    ensures EscapeLikePattern(s) == EscapeEach(s)
  {
    if s != [] {
      PassesAreOne(s[1..]);
      EscapeOfChar(s[0]);
      assert s == [s[0]] + s[1..];
      var a, b := ReplaceAll([s[0]], '\\', "\\\\"), ReplaceAll(s[1..], '\\', "\\\\");
      ReplaceAllOfSum([s[0]], s[1..], '\\', "\\\\");
      ReplaceAllOfSum(a, b, '%', "\\%");
      ReplaceAllOfSum(ReplaceAll(a, '%', "\\%"), ReplaceAll(b, '%', "\\%"), '_', "\\_");
    }
  }

  // ---------------------------------------------------------------- nothing is lost

  function Unescape(s: string): string {
    if s == [] then []
    else if s[0] == '\\' && |s| > 1 then [s[1]] + Unescape(s[2..])
    else [s[0]] + Unescape(s[1..])
  }

  lemma {:induction false} UnescapeUndoes(s: string)
    ensures Unescape(EscapeEach(s)) == s
  {
    if s != [] {
      UnescapeUndoes(s[1..]);
      assert EscapeEach(s)[|EscapeChar(s[0])|..] == EscapeEach(s[1..]);
    }
  }

  lemma EscapeIsInjective(s: string, t: string)
    ensures EscapeLikePattern(s) == EscapeLikePattern(t) <==> s == t
  {
    PassesAreOne(s);
    PassesAreOne(t);
    UnescapeUndoes(s);
    UnescapeUndoes(t);
  }

  // ---------------------------------------------------------------- what the pattern matches

  /** LIKE with the backslash as its escape character, on characters as they are. */
  predicate Like(p: string, t: string)
    decreases |p| + |t|
  {
    if p == [] then t == []
    else if p[0] == '%' then Like(p[1..], t) || (t != [] && Like(p, t[1..]))
    else if t == [] then false
    else if p[0] == '_' then Like(p[1..], t[1..])
    else if p[0] == '\\' && |p| > 1 then t[0] == p[1] && Like(p[2..], t[1..])
    else t[0] == p[0] && Like(p[1..], t[1..])
  }

  lemma EscapedCharMatchesItself(c: char, q: string, t: string)
    ensures Like(EscapeChar(c) + q, t) <==> t != [] && t[0] == c && Like(q, t[1..])
  {
    assert (EscapeChar(c) + q)[|EscapeChar(c)|..] == q;
  }

  lemma PrefixSteps(s: string, t: string)
    requires s != [] && t != []
    ensures s <= t <==> s[0] == t[0] && s[1..] <= t[1..]
    ensures s <= t ==> t[1..][|s| - 1..] == t[|s|..]
  {
    if s[0] == t[0] && s[1..] <= t[1..] {
      assert s == [s[0]] + s[1..] && t == [t[0]] + t[1..];
    }
  }

  /** An escaped text matches itself and nothing else, whatever comes after it. */
  lemma {:induction false} EscapedMatchesItself(s: string, p: string, t: string)
    ensures Like(EscapeEach(s) + p, t) <==> s <= t && Like(p, t[|s|..])
  {
    if s == [] {
      assert EscapeEach(s) + p == p && t[0..] == t;
    } else {
      var q := EscapeEach(s[1..]) + p;
      assert EscapeEach(s) + p == EscapeChar(s[0]) + q;
      EscapedCharMatchesItself(s[0], q, t);
      if t != [] {
        EscapedMatchesItself(s[1..], p, t[1..]);
        PrefixSteps(s, t);
      }
    }
  }

  lemma {:induction false} PercentMatchesAll(t: string)
    ensures Like("%", t)
  {
    assert "%"[1..] == "";
    if t != [] {
      PercentMatchesAll(t[1..]);
    }
  }

  lemma {:induction false} PercentSkips(p: string, t: string)
    ensures Like("%" + p, t) <==> exists i :: 0 <= i <= |t| && Like(p, t[i..])
  {
    assert ("%" + p)[1..] == p && t[0..] == t;
    if t != [] {
      PercentSkips(p, t[1..]);
      forall i | 0 <= i < |t| ensures t[1..][i..] == t[i + 1..] {
      }
      if i :| 0 <= i <= |t| && Like(p, t[i..]) {
        if i > 0 {
          assert Like(p, t[1..][i - 1..]);
        }
      }
    }
  }

  /** The pattern of a search matches a text exactly when the text contains the term. */
  lemma SearchIsContains(s: string, t: string)
    ensures Like("%" + EscapeLikePattern(s) + "%", t) <==> Contains(t, s)
  {
    PassesAreOne(s);
    var p := EscapeEach(s) + "%";
    assert "%" + EscapeLikePattern(s) + "%" == "%" + p;
    PercentSkips(p, t);
    forall i | 0 <= i <= |t| ensures Like(p, t[i..]) <==> StandsAt(t, i, s) {
      EscapedMatchesItself(s, "%", t[i..]);
      if s <= t[i..] {
        PercentMatchesAll(t[i..][|s|..]);
        assert t[i..][..|s|] == t[i..i + |s|];
      } else if i + |s| <= |t| {
        assert t[i..i + |s|] == t[i..][..|s|];
      }
    }
  }
}
