/** The tags of a mirror run are stored as the text of a JSON array without its brackets, and
    read back by splitting at commas. */
module TagList {
  // ---------------------------------------------------------------- trimming and splitting

  type Cut = char -> bool

  function TrimLeft(s: string, cut: Cut): string {
    if s != [] && cut(s[0]) then TrimLeft(s[1..], cut) else s
  }

  function TrimRight(s: string, cut: Cut): string {
    if s != [] && cut(s[|s| - 1]) then TrimRight(s[..|s| - 1], cut) else s
  }

  function Trim(s: string, cut: Cut): string { TrimRight(TrimLeft(s, cut), cut) }

  predicate IsQuote(c: char) { c == '"' }

  predicate IsBracket(c: char) { c == '[' || c == ']' }

  /** White space as Unicode has it. */
  predicate IsSpace(c: char) {
    || '\t' <= c <= '\r' || c == ' ' || c == '\U{85}' || c == '\U{A0}' || c == '\U{1680}'
    || '\U{2000}' <= c <= '\U{200A}' || c == '\U{2028}' || c == '\U{2029}' || c == '\U{202F}' || c == '\U{205F}'
      || c == '\U{3000}'
  }

  function Split(s: string): (r: seq<string>)
    ensures r != []
  {
    if s == [] then [[]]
    else
      var rest := Split(s[1..]);
      if s[0] == ',' then [[]] + rest else [[s[0]] + rest[0]] + rest[1..]
  }

  // ---------------------------------------------------------------- writing

  function HexDigit(n: nat): (d: char)
    requires n < 16
    ensures '0' <= d <= '9' || 'a' <= d <= 'f'
  {
    if n < 10 then '0' + n as char else 'a' + (n - 10) as char
  }

  function Hex(n: nat): (r: string)
    ensures '\\' !in r
  {
    [HexDigit(n / 4096 % 16), HexDigit(n / 256 % 16), HexDigit(n / 16 % 16), HexDigit(n % 16)]
  }

  /** What stands for one character between the quotes of a JSON string. */
  function Escape(c: char): string {
    if c == '"' then "\\\""
    else if c == '\\' then "\\\\"
    else if c == '\n' then "\\n"
    else if c == '\r' then "\\r"
    else if c == '\t' then "\\t"
    else if c == '\U{8}' then "\\b"
    else if c == '\U{C}' then "\\f"
    else if c < ' ' || c == '<' || c == '>' || c == '&' || c == '\U{2028}' || c == '\U{2029}' then "\\u" + Hex(c as int)
    else [c]
  }

  predicate Escaped(c: char) {
    c < ' ' || c == '"' || c == '\\' || c == '<' || c == '>' || c == '&' || c == '\U{2028}' || c == '\U{2029}'
  }

  function EscapeAll(s: string): string {
    if s == [] then [] else Escape(s[0]) + EscapeAll(s[1..])
  }

  function Quoted(s: string): string { "\"" + EscapeAll(s) + "\"" }

  function Joined(tags: seq<string>): string {
    if tags == [] then []
    else if |tags| == 1 then Quoted(tags[0])
    else Quoted(tags[0]) + "," + Joined(tags[1..])
  }

  function Stored(tags: seq<string>): string { Trim("[" + Joined(tags) + "]", IsBracket) }

  // ---------------------------------------------------------------- reading

  function Cleaned(part: string): string { Trim(Trim(part, IsSpace), IsQuote) }

  function Keep(part: string): seq<string> { if Cleaned(part) == "" then [] else [Cleaned(part)] }

  function Kept(parts: seq<string>): seq<string> {
    if parts == [] then [] else Keep(parts[0]) + Kept(parts[1..])
  }

  function Tags(csv: string): seq<string> { Kept(Split(Trim(csv, IsQuote))) }

  method SplitTags(csv: string) returns (tags: seq<string>)
    ensures tags == Tags(csv)
  {
    tags := [];
    var parts := Split(Trim(csv, IsQuote));
    for i := 0 to |parts|
      invariant tags + Kept(parts[i..]) == Kept(parts)
    {
      KeptUnrolls(tags, parts, i);
      var t := Cleaned(parts[i]);
      if t != "" {
        tags := tags + [t];
      }
    }
  }

  lemma KeptUnrolls(tags: seq<string>, parts: seq<string>, i: nat)
    requires i < |parts|
    ensures tags + Kept(parts[i..])
      == (if Cleaned(parts[i]) == "" then tags else tags + [Cleaned(parts[i])]) + Kept(parts[i + 1..])
  {
    assert parts[i..][1..] == parts[i + 1..];
  }

  // ---------------------------------------------------------------- nothing escapes notice

  function Slashes(s: string): nat {
    if s == [] then 0 else (if s[0] == '\\' then 1 else 0) + Slashes(s[1..])
  }

  lemma {:induction false} SlashesOfSum(a: string, b: string)
    ensures Slashes(a + b) == Slashes(a) + Slashes(b)
  {
    if a == [] {
      assert a + b == b;
    } else {
      assert (a + b)[1..] == a[1..] + b;
      SlashesOfSum(a[1..], b);
    }
  }

  lemma {:induction false} NoSlashes(s: string)
    requires '\\' !in s
    ensures Slashes(s) == 0
  {
    if s != [] {
      NoSlashes(s[1..]);
    }
  }

  function Total(ss: seq<string>): nat {
    if ss == [] then 0 else Slashes(ss[0]) + Total(ss[1..])
  }

  lemma {:induction false} TotalOfSum(a: seq<string>, b: seq<string>)
    ensures Total(a + b) == Total(a) + Total(b)
  {
    if a == [] {
      assert a + b == b;
    } else {
      assert (a + b)[1..] == a[1..] + b;
      TotalOfSum(a[1..], b);
    }
  }

  lemma SlashesOf(c: char, s: string)
    ensures Slashes([c] + s) == Slashes(s + [c]) == Slashes(s) + if c == '\\' then 1 else 0
  {
    SlashesOfSum([c], s);
    SlashesOfSum(s, [c]);
    assert [c][1..] == [];
  }

  lemma {:induction false} TrimLeftKeepsSlashes(s: string, cut: Cut)
    requires !cut('\\')
    ensures Slashes(TrimLeft(s, cut)) == Slashes(s)
  {
    if s != [] && cut(s[0]) {
      SlashesOf(s[0], s[1..]);
      assert s == [s[0]] + s[1..];
      TrimLeftKeepsSlashes(s[1..], cut);
    }
  }

  lemma {:induction false} TrimRightKeepsSlashes(s: string, cut: Cut)
    requires !cut('\\')
    ensures Slashes(TrimRight(s, cut)) == Slashes(s)
  {
    if s != [] && cut(s[|s| - 1]) {
      SlashesOf(s[|s| - 1], s[..|s| - 1]);
      assert s == s[..|s| - 1] + [s[|s| - 1]];
      TrimRightKeepsSlashes(s[..|s| - 1], cut);
    }
  }

  lemma TrimKeepsSlashes(s: string, cut: Cut)
    requires !cut('\\')
    ensures Slashes(Trim(s, cut)) == Slashes(s)
  {
    TrimLeftKeepsSlashes(s, cut);
    TrimRightKeepsSlashes(TrimLeft(s, cut), cut);
  }

  lemma {:induction false} SplitKeepsSlashes(s: string)
    ensures Total(Split(s)) == Slashes(s)
  {
    if s != [] {
      SplitKeepsSlashes(s[1..]);
      SlashesOf(s[0], s[1..]);
      assert s == [s[0]] + s[1..];
      var rest := Split(s[1..]);
      if s[0] == ',' {
        TotalOfSum([[]], rest);
      } else {
        SlashesOf(s[0], rest[0]);
      }
    }
  }

  lemma KeepingKeepsSlashes(part: string)
    ensures Total(Keep(part)) == Slashes(part)
  {
    TrimKeepsSlashes(part, IsSpace);
    TrimKeepsSlashes(Trim(part, IsSpace), IsQuote);
  }

  lemma {:induction false} KeptKeepsSlashes(parts: seq<string>)
    ensures Total(Kept(parts)) == Total(parts)
  {
    if parts != [] {
      KeptKeepsSlashes(parts[1..]);
      KeepingKeepsSlashes(parts[0]);
      TotalOfSum(Keep(parts[0]), Kept(parts[1..]));
    }
  }

  lemma EscapeAddsSlashes(c: char)
    ensures Slashes(Escape(c)) == (if c == '\\' then 1 else 0) + (if Escaped(c) then 1 else 0)
    ensures !Escaped(c) ==> Escape(c) == [c]
  {
    if Escaped(c) {
      var code := if c == '\\' then "" else Escape(c)[1..];
      NoSlashes(code);
      SlashesOf('\\', code);
      SlashesOf('\\', "\\");
      SlashesOf('\\', "");
      assert Escape(c) == ['\\'] + if c == '\\' then "\\" else code;
    } else {
      SlashesOf(c, "");
      assert [c] == [c] + "";
    }
  }

  predicate Plain(s: string) { forall c :: c in s ==> !Escaped(c) }

  lemma {:induction false} EscapingAddsSlashes(s: string)
    ensures Slashes(EscapeAll(s)) >= Slashes(s)
    ensures Slashes(EscapeAll(s)) == Slashes(s) <==> Plain(s)
    ensures Plain(s) ==> EscapeAll(s) == s
  {
    if s != [] {
      EscapeAddsSlashes(s[0]);
      EscapingAddsSlashes(s[1..]);
      SlashesOf(s[0], s[1..]);
      SlashesOfSum(Escape(s[0]), EscapeAll(s[1..]));
      assert s == [s[0]] + s[1..];
    }
  }

  predicate AllPlain(tags: seq<string>) { forall t :: t in tags ==> Plain(t) }

  lemma QuotedSlashes(tag: string, rest: string)
    ensures Slashes(Quoted(tag)) == Slashes(EscapeAll(tag))
    ensures Slashes(Quoted(tag) + "," + rest) == Slashes(EscapeAll(tag)) + Slashes(rest)
  {
    NoSlashes("\"");
    NoSlashes(",");
    SlashesOfSum("\"", EscapeAll(tag));
    SlashesOfSum("\"" + EscapeAll(tag), "\"");
    SlashesOfSum(Quoted(tag), ",");
    SlashesOfSum(Quoted(tag) + ",", rest);
  }

  lemma {:induction false} JoiningAddsSlashes(tags: seq<string>)
    ensures Slashes(Joined(tags)) >= Total(tags)
    ensures Slashes(Joined(tags)) == Total(tags) ==> AllPlain(tags)
  {
    if tags != [] {
      EscapingAddsSlashes(tags[0]);
      JoiningAddsSlashes(tags[1..]);
      QuotedSlashes(tags[0], Joined(tags[1..]));
      assert tags == [tags[0]] + tags[1..];
    }
  }

  lemma OnlyPlainTagsReturn(tags: seq<string>)
    requires Tags(Stored(tags)) == tags
    ensures AllPlain(tags)
  {
    var csv := Stored(tags);
    SlashesOf('[', Joined(tags));
    SlashesOf(']', "[" + Joined(tags));
    TrimKeepsSlashes("[" + Joined(tags) + "]", IsBracket);
    TrimKeepsSlashes(csv, IsQuote);
    SplitKeepsSlashes(Trim(csv, IsQuote));
    KeptKeepsSlashes(Split(Trim(csv, IsQuote)));
    JoiningAddsSlashes(tags);
  }
}
