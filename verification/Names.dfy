/** The names that may become git references or remote names. */
module Names {

  predicate StandsAt(s: string, i: nat, sub: string) {
    i + |sub| <= |s| && s[i..i + |sub|] == sub
  }

  predicate Contains(s: string, sub: string) {
    exists i :: 0 <= i <= |s| && StandsAt(s, i, sub)
  }

  predicate HasSuffix(s: string, suffix: string) {
    |suffix| <= |s| && s[|s| - |suffix|..] == suffix
  }

  predicate NameChar(c: char) {
    'a' <= c <= 'z' || 'A' <= c <= 'Z' || '0' <= c <= '9' || c == '.' || c == '_' || c == '-' || c == '/'
  }

  /** validateName accepts the name. */
  predicate ValidName(name: string) {
    && name != ""
    && name[0] != '-'
    && !Contains(name, "..") && !Contains(name, "@{")
    && (forall c :: c in name ==> NameChar(c))
    && !HasSuffix(name, ".lock") && !HasSuffix(name, "/") && !HasSuffix(name, ".")
  }

  /** What the characters of an option, a refspec, a revision or a pattern are. */
  predicate Special(c: char) {
    c <= ' ' || c == ':' || c == '+' || c == '^' || c == '~' || c == '*' || c == '?' || c == '[' || c == '\\'
      || c == '@' || c == '{'
  }

  /** A valid name cannot be taken for an option, and means nothing but itself in a refspec:
      "refs/tags/" + name + ":refs/tags/" + name has one colon, and no pattern in it. */
  lemma ValidNamesAreLiteral(name: string)
    requires ValidName(name)
    ensures name != "" && name[0] != '-' && forall c :: c in name ==> !Special(c)
    ensures name[|name| - 1] != '/' && name[|name| - 1] != '.'
    ensures forall i :: 0 <= i < |name| - 1 ==> !(name[i] == '.' && name[i + 1] == '.')
  {
    forall i | 0 <= i < |name| - 1 ensures !(name[i] == '.' && name[i + 1] == '.') {
      assert !StandsAt(name, i, "..");
      assert name[i..i + 2] == [name[i], name[i + 1]];
    }
    assert name[|name| - 1..] == [name[|name| - 1]];
  }

  predicate TwoDotsAt(name: string, i: nat) {
    i + 1 < |name| && name[i] == '.' && name[i + 1] == '.'
  }

  lemma TwoDotsStand(name: string, i: nat)
    ensures StandsAt(name, i, "..") <==> TwoDotsAt(name, i)
  {
    if i + 2 <= |name| {
      assert name[i..i + 2] == [name[i], name[i + 1]];
    }
  }

  lemma TwoDotsMean(name: string)
    ensures Contains(name, "..") <==> exists i: nat :: TwoDotsAt(name, i)
  {
    if i :| 0 <= i <= |name| && StandsAt(name, i, "..") {
      TwoDotsStand(name, i);
    }
    if i: nat :| TwoDotsAt(name, i) {
      TwoDotsStand(name, i);
    }
  }

  lemma AtBraceHasAt(name: string)
    ensures Contains(name, "@{") ==> '@' in name
  {
    forall i | 0 <= i <= |name| && StandsAt(name, i, "@{") ensures '@' in name {
      assert name[i..i + 2][0] == name[i];
    }
  }

  lemma SuffixIsLast(name: string, c: char)
    ensures HasSuffix(name, [c]) <==> |name| > 0 && name[|name| - 1] == c
  {
    if |name| > 0 {
      assert name[|name| - 1..] == [name[|name| - 1]];
    }
  }

  /** Exactly the names of letters, digits, ".", "_", "-" and "/" that do not begin with "-", have no
      two dots in a row, and do not end in "/", "." or ".lock". */
  lemma ValidExactlyWhen(name: string)
    ensures ValidName(name) <==>
              && |name| > 0 && name[0] != '-'
              && (forall c :: c in name ==>
                    'a' <= c <= 'z' || 'A' <= c <= 'Z' || '0' <= c <= '9' || c == '.' || c == '_' || c == '-'
                      || c == '/')
              && (forall i: nat :: !TwoDotsAt(name, i))
              && name[|name| - 1] != '/' && name[|name| - 1] != '.'
              && (|name| < 5 || name[|name| - 5..] != ".lock")
  {
    TwoDotsMean(name);
    AtBraceHasAt(name);
    SuffixIsLast(name, '/');
    SuffixIsLast(name, '.');
    assert "/" == ['/'] && "." == ['.'] && !NameChar('@');
  }

  /** Version tags are valid. */
  lemma VersionsAreValid()
    ensures ValidName("v1.2.3")
  {
    var v := "v1.2.3";
    assert forall i :: 0 <= i < 5 ==> !(v[i] == '.' && v[i + 1] == '.') && v[i] != '@';
    forall i | 0 <= i <= 6 ensures !StandsAt(v, i, "..") && !StandsAt(v, i, "@{") {
      if i + 2 <= 6 {
        assert v[i..i + 2] == [v[i], v[i + 1]];
      }
    }
  }
}
