/** Exactly which lists of tags come back from their stored form. */
module TagRoundTrip {
  import opened TagList
  import Names

  predicate Good(t: string) { t != "" && ',' !in t && Plain(t) }

  ghost predicate AllGood(tags: seq<string>) { forall t :: t in tags ==> Good(t) }

  predicate NoLeadingSpace(t: string) { t != "" ==> !IsSpace(t[0]) }

  predicate NoTrailingSpace(t: string) { t != "" ==> !IsSpace(t[|t| - 1]) }

  ghost predicate Storable(tags: seq<string>) {
    AllGood(tags) && (tags != [] ==> NoLeadingSpace(tags[0]) && NoTrailingSpace(tags[|tags| - 1]))
  }

  // ---------------------------------------------------------------- what never comes back

  ghost predicate Splits(parts: seq<string>) { forall p :: p in parts ==> ',' !in p }

  lemma {:induction false} PartsHaveNoComma(s: string)
    ensures Splits(Split(s))
  {
    if s != [] {
      PartsHaveNoComma(s[1..]);
    }
  }

  lemma {:induction false} TrimLeftIsPart(s: string, cut: Cut, c: char)
    requires c !in s
    ensures c !in TrimLeft(s, cut)
  {
    if s != [] && cut(s[0]) {
      TrimLeftIsPart(s[1..], cut, c);
    }
  }

  lemma {:induction false} TrimRightIsPart(s: string, cut: Cut, c: char)
    requires c !in s
    ensures c !in TrimRight(s, cut)
  {
    if s != [] && cut(s[|s| - 1]) {
      TrimRightIsPart(s[..|s| - 1], cut, c);
    }
  }

  lemma CleaningAddsNoComma(part: string)
    requires ',' !in part
    ensures ',' !in Cleaned(part)
  {
    TrimLeftIsPart(part, IsSpace, ',');
    TrimRightIsPart(TrimLeft(part, IsSpace), IsSpace, ',');
    TrimLeftIsPart(Trim(part, IsSpace), IsQuote, ',');
    TrimRightIsPart(TrimLeft(Trim(part, IsSpace), IsQuote), IsQuote, ',');
  }

  lemma {:induction false} KeptHaveNoComma(parts: seq<string>)
    requires Splits(parts)
    ensures forall t :: t in Kept(parts) ==> t != "" && ',' !in t
  {
    if parts != [] {
      assert parts[0] in parts;
      CleaningAddsNoComma(parts[0]);
      assert Splits(parts[1..]) by {
        assert forall p :: p in parts[1..] ==> p in parts;
      }
      KeptHaveNoComma(parts[1..]);
    }
  }

  lemma OnlyGoodTagsReturn(tags: seq<string>)
    requires Tags(Stored(tags)) == tags
    ensures AllGood(tags)
  {
    OnlyPlainTagsReturn(tags);
    var text := Trim(Stored(tags), IsQuote);
    PartsHaveNoComma(text);
    KeptHaveNoComma(Split(text));
  }

  // ---------------------------------------------------------------- the text of good tags

  /** The stored text of good tags, without its last quote. */
  function Inner(tags: seq<string>): string
    requires tags != []
  {
    if |tags| == 1 then "\"" + tags[0] else "\"" + tags[0] + "\"" + "," + Inner(tags[1..])
  }

  lemma GoodRest(tags: seq<string>)
    requires AllGood(tags) && tags != []
    ensures Good(tags[0]) && AllGood(tags[1..])
  {
    assert tags[0] in tags;
    assert forall t :: t in tags[1..] ==> t in tags;
  }

  lemma GoodHasNoQuote(t: string)
    requires Plain(t)
    ensures '"' !in t
  {
    assert Escaped('"');
  }

  lemma LastQuoteMoves(a: string, b: string)
    ensures a + (b + "\"") == (a + b) + "\""
  {
  }

  lemma {:induction false} InnerIsText(tags: seq<string>)
    requires tags != [] && AllGood(tags)
    ensures Joined(tags) == Inner(tags) + "\""
  {
    GoodRest(tags);
    EscapingAddsSlashes(tags[0]);
    if |tags| > 1 {
      InnerIsText(tags[1..]);
      LastQuoteMoves("\"" + tags[0] + "\"" + ",", Inner(tags[1..]));
    }
  }

  lemma {:induction false} InnerEnds(tags: seq<string>)
    requires tags != [] && AllGood(tags)
    ensures |Inner(tags)| >= 2 && Inner(tags)[0] == '"' && Inner(tags)[1] != '"'
      && Inner(tags)[|Inner(tags)| - 1] != '"'
  {
    GoodRest(tags);
    GoodHasNoQuote(tags[0]);
    assert tags[0][0] in tags[0] && tags[0][|tags[0]| - 1] in tags[0];
    if |tags| > 1 {
      InnerEnds(tags[1..]);
    }
  }

  lemma TrimDropsOne(a: char, s: string, b: char, cut: Cut)
    requires s != [] && cut(a) && cut(b) && !cut(s[0]) && !cut(s[|s| - 1])
    ensures Trim([a] + s + [b], cut) == s
  {
    var t := [a] + s + [b];
    assert t[1..] == s + [b];
    assert TrimLeft(t, cut) == TrimLeft(t[1..], cut) == s + [b];
    assert (s + [b])[..|s|] == s;
    assert TrimRight(s + [b], cut) == TrimRight(s, cut) == s;
  }

  lemma TextOfGoodTags(tags: seq<string>)
    requires tags != [] && AllGood(tags)
    ensures Trim(Stored(tags), IsQuote) == Inner(tags)[1..]
  {
    InnerIsText(tags);
    InnerEnds(tags);
    var inner := Inner(tags);
    TrimDropsOne('[', Joined(tags), ']', IsBracket);
    TrimDropsOne('"', inner[1..], '"', IsQuote);
    assert ['"'] + inner[1..] + ['"'] == inner + "\"";
  }

  // ---------------------------------------------------------------- its parts

  lemma {:induction false} SplitAtComma(part: string, rest: string)
    requires ',' !in part
    ensures Split(part + "," + rest) == [part] + Split(rest)
  {
    var s := part + "," + rest;
    if part == [] {
      assert s[1..] == rest;
    } else {
      assert part[0] in part && s[0] == part[0] && [part[0]] + part[1..] == part;
      assert s[1..] == part[1..] + "," + rest;
      SplitAtComma(part[1..], rest);
    }
  }

  lemma {:induction false} SplitWithoutComma(part: string)
    requires ',' !in part
    ensures Split(part) == [part]
  {
    if part != [] {
      assert part[0] in part && [part[0]] + part[1..] == part;
      SplitWithoutComma(part[1..]);
    }
  }

  lemma QuotedHasNoComma(t: string)
    requires ',' !in t
    ensures ',' !in "\"" + t + "\"" && ',' !in t + "\""
  {
  }

  lemma WithoutFirstQuote(t: string, rest: string)
    ensures ("\"" + t + "\"" + "," + rest)[1..] == t + "\"" + "," + rest
  {
  }

  lemma FirstPart(tags: seq<string>)
    requires |tags| > 1 && AllGood(tags)
    ensures Split(Inner(tags)) == ["\"" + tags[0] + "\""] + Split(Inner(tags[1..]))
    ensures Split(Inner(tags)[1..]) == [tags[0] + "\""] + Split(Inner(tags[1..]))
  {
    GoodRest(tags);
    var t, rest := tags[0], Inner(tags[1..]);
    QuotedHasNoComma(t);
    WithoutFirstQuote(t, rest);
    SplitAtComma("\"" + t + "\"", rest);
    SplitAtComma(t + "\"", rest);
  }

  // ---------------------------------------------------------------- its cleaned parts

  lemma {:induction false} TrimLeftOfSum(s: string, t: string, cut: Cut)
    requires t != [] && !cut(t[0])
    ensures TrimLeft(s + t, cut) == TrimLeft(s, cut) + t
  {
    if s == [] {
      assert s + t == t;
    } else {
      assert (s + t)[1..] == s[1..] + t;
      if cut(s[0]) {
        TrimLeftOfSum(s[1..], t, cut);
      }
    }
  }

  lemma {:induction false} TrimRightOfSum(s: string, t: string, cut: Cut)
    requires s != [] && !cut(s[|s| - 1])
    ensures TrimRight(s + t, cut) == s + TrimRight(t, cut)
  {
    if t == [] {
      assert s + t == s;
    } else {
      assert (s + t)[..|s + t| - 1] == s + t[..|t| - 1];
      if cut(t[|t| - 1]) {
        TrimRightOfSum(s, t[..|t| - 1], cut);
      }
    }
  }

  lemma {:induction false} TrimmingNothing(s: string, cut: Cut)
    requires forall c :: c in s ==> !cut(c)
    ensures TrimLeft(s, cut) == s && TrimRight(s, cut) == s
  {
  }

  lemma {:induction false} TrimmedIsShorter(s: string, cut: Cut)
    ensures |TrimLeft(s, cut)| <= |s| && (|TrimLeft(s, cut)| == |s| <==> s == [] || !cut(s[0]))
    ensures |TrimRight(s, cut)| <= |s| && (|TrimRight(s, cut)| == |s| <==> s == [] || !cut(s[|s| - 1]))
  {
    if s != [] && cut(s[0]) {
      TrimmedIsShorter(s[1..], cut);
    }
    if s != [] && cut(s[|s| - 1]) {
      TrimmedIsShorter(s[..|s| - 1], cut);
    }
  }

  lemma MiddleIsKept(t: string)
    requires Good(t)
    ensures Cleaned("\"" + t + "\"") == t
  {
    GoodHasNoQuote(t);
    var s := "\"" + t + "\"";
    assert TrimLeft(s, IsSpace) == s && TrimRight(s, IsSpace) == s;
    TrimDropsOne('"', t, '"', IsQuote);
  }

  lemma FirstIsTrimmed(t: string)
    requires Good(t)
    ensures Cleaned(t + "\"") == TrimLeft(t, IsSpace)
  {
    GoodHasNoQuote(t);
    TrimLeftOfSum(t, "\"", IsSpace);
    var u := TrimLeft(t, IsSpace);
    TrimLeftIsPart(t, IsSpace, '"');
    assert TrimRight(u + "\"", IsSpace) == u + "\"";
    TrimmingNothing(u, IsQuote);
    assert (u + "\"")[..|u|] == u;
    if u == [] {
      assert u + "\"" == "\"";
      assert TrimLeft("\"", IsQuote) == [];
    } else {
      assert TrimLeft(u + "\"", IsQuote) == u + "\"";
      assert TrimRight(u + "\"", IsQuote) == TrimRight(u, IsQuote);
    }
  }

  lemma LastIsTrimmed(t: string)
    requires Good(t)
    ensures Cleaned("\"" + t) == TrimRight(t, IsSpace)
  {
    GoodHasNoQuote(t);
    TrimRightOfSum("\"", t, IsSpace);
    var u := TrimRight(t, IsSpace);
    TrimRightIsPart(t, IsSpace, '"');
    assert TrimLeft("\"" + t, IsSpace) == "\"" + t;
    TrimmingNothing(u, IsQuote);
    assert ("\"" + u)[1..] == u;
    assert TrimLeft("\"" + u, IsQuote) == TrimLeft(u, IsQuote) == u;
  }

  lemma OnlyIsTrimmed(t: string)
    requires Good(t)
    ensures Cleaned(t) == Trim(t, IsSpace)
  {
    GoodHasNoQuote(t);
    TrimLeftIsPart(t, IsSpace, '"');
    TrimRightIsPart(TrimLeft(t, IsSpace), IsSpace, '"');
    TrimmingNothing(Trim(t, IsSpace), IsQuote);
  }

  // ---------------------------------------------------------------- the round trip

  /** All tags but the first. */
  lemma {:induction false} RestReturns(tags: seq<string>)
    requires tags != [] && AllGood(tags)
    ensures var kept := Kept(Split(Inner(tags)));
            |kept| <= |tags| && (kept == tags <==> NoTrailingSpace(tags[|tags| - 1]))
  {
    GoodRest(tags);
    if |tags| == 1 {
      SplitWithoutComma("\"" + tags[0]);
      LastIsTrimmed(tags[0]);
      TrimmedIsShorter(tags[0], IsSpace);
    } else {
      FirstPart(tags);
      MiddleIsKept(tags[0]);
      RestReturns(tags[1..]);
      assert tags == [tags[0]] + tags[1..];
    }
  }

  lemma OneReturns(t: string)
    requires Good(t)
    ensures Kept(Split(t)) == [t] <==> NoLeadingSpace(t) && NoTrailingSpace(t)
  {
    TrimmedIsShorter(t, IsSpace);
    TrimmedIsShorter(TrimLeft(t, IsSpace), IsSpace);
    OnlyIsTrimmed(t);
    SplitWithoutComma(t);
    assert Kept([t]) == Keep(t) + Kept([]) by {
      assert [t][1..] == [];
    }
  }

  lemma GoodTagsReturn(tags: seq<string>)
    requires tags != [] && AllGood(tags)
    ensures Tags(Stored(tags)) == tags <==> NoLeadingSpace(tags[0]) && NoTrailingSpace(tags[|tags| - 1])
  {
    GoodRest(tags);
    TextOfGoodTags(tags);
    if |tags| == 1 {
      assert Inner(tags)[1..] == tags[0] && tags == [tags[0]];
      OneReturns(tags[0]);
    } else {
      ManyReturn(tags);
    }
  }

  lemma ManyReturn(tags: seq<string>)
    requires |tags| > 1 && AllGood(tags)
    ensures Kept(Split(Inner(tags)[1..])) == tags <==> NoLeadingSpace(tags[0]) && NoTrailingSpace(tags[|tags| - 1])
  {
    GoodRest(tags);
    FirstPart(tags);
    FirstIsTrimmed(tags[0]);
    TrimmedIsShorter(tags[0], IsSpace);
    RestReturns(tags[1..]);
    assert tags == [tags[0]] + tags[1..];
  }

  lemma NoTagsReturn()
    ensures Tags(Stored([])) == []
  {
    assert "[" + Joined([]) + "]" == "[]" && "[]"[1..] == "]" && "]"[1..] == "";
    assert TrimLeft("[]", IsBracket) == TrimLeft("]", IsBracket) == TrimLeft("", IsBracket) == "";
    assert Stored([]) == "" && Split("") == [""];
    assert Keep("") == [] && Kept([]) == [] && [""][1..] == [];
  }

  /** A list comes back exactly when no tag is empty, holds a comma or a character that JSON
      escapes, and white space neither begins the first tag nor ends the last. */
  lemma RoundTripsExactlyWhen(tags: seq<string>)
    ensures Tags(Stored(tags)) == tags <==> Storable(tags)
  {
    if tags == [] {
      NoTagsReturn();
    } else if AllGood(tags) {
      GoodTagsReturn(tags);
    } else if Tags(Stored(tags)) == tags {
      OnlyGoodTagsReturn(tags);
    }
  }

  lemma ValidIsGood(t: string)
    requires Names.ValidName(t)
    ensures Good(t) && NoLeadingSpace(t) && NoTrailingSpace(t)
  {
    assert forall c :: Names.NameChar(c) ==> c != ',' && !Escaped(c) && !IsSpace(c);
  }

  /** In particular every list of names that validateName accepts. */
  lemma ValidNamesReturn(tags: seq<string>)
    requires forall t :: t in tags ==> Names.ValidName(t)
    ensures Tags(Stored(tags)) == tags
  {
    forall t | t in tags ensures Good(t) && NoLeadingSpace(t) && NoTrailingSpace(t) {
      ValidIsGood(t);
    }
    RoundTripsExactlyWhen(tags);
  }

  /** The condition, character by character. */
  lemma StorableMeans(tags: seq<string>)
    ensures Storable(tags) <==>
              && (forall t :: t in tags ==> t != "" && forall c :: c in t ==>
                    c >= ' ' && c != ',' && c != '"' && c != '\\' && c != '<' && c != '>' && c != '&'
                    && c != '\U{2028}' && c != '\U{2029}')
              && (tags != [] && tags[0] != "" ==> !IsSpace(tags[0][0]))
              && (tags != [] && tags[|tags| - 1] != "" ==> !IsSpace(tags[|tags| - 1][|tags[|tags| - 1]| - 1]))
  {
    forall t | t in tags ensures Good(t) <==> t != "" && forall c :: c in t ==>
                                   c >= ' ' && c != ',' && c != '"' && c != '\\' && c != '<' && c != '>' && c != '&'
                                   && c != '\U{2028}' && c != '\U{2029}' {
    }
  }
}
