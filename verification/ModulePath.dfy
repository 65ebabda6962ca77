/** The rewriting of a module path in file contents: what the regular expression does, byte
    by byte, and what it is meant to do. */
module ModulePath {

  type Byte = b: int | 0 <= b < 256
  type Bytes = seq<Byte>

  /** The class [a-zA-Z0-9_.-]. */
  predicate InClass(b: Byte) {
    || 'a' as int <= b <= 'z' as int
    || 'A' as int <= b <= 'Z' as int
    || '0' as int <= b <= '9' as int
    || b == '_' as int || b == '.' as int || b == '-' as int
  }

  predicate Cont(s: Bytes, i: nat, lo: Byte, hi: Byte) {
    i < |s| && lo <= s[i] <= hi
  }

  /** The width of the first character as Go decodes UTF-8: 1 for a byte that starts none. */
  function RuneWidth(s: Bytes): (w: nat)
    requires s != []
    ensures 1 <= w <= |s| && (s[0] < 128 ==> w == 1)
  {
    var b := s[0];
    if 0xC2 <= b <= 0xDF then (if Cont(s, 1, 0x80, 0xBF) then 2 else 1)
    else if 0xE0 <= b <= 0xEF then
      var lo: Byte := if b == 0xE0 then 0xA0 else 0x80;
      var hi: Byte := if b == 0xED then 0x9F else 0xBF;
      if Cont(s, 1, lo, hi) && Cont(s, 2, 0x80, 0xBF) then 3 else 1
    else if 0xF0 <= b <= 0xF4 then
      var lo: Byte := if b == 0xF0 then 0x90 else 0x80;
      var hi: Byte := if b == 0xF4 then 0x8F else 0xBF;
      if Cont(s, 1, lo, hi) && Cont(s, 2, 0x80, 0xBF) && Cont(s, 3, 0x80, 0xBF) then 4 else 1
    else 1
  }

  predicate StartsWith(data: Bytes, p: Bytes) {
    |p| <= |data| && data[..|p|] == p
  }

  predicate Contains(data: Bytes, p: Bytes) {
    exists i :: 0 <= i <= |data| && StartsWith(data[i..], p)
  }

  /** source stands at the front, followed by the end of the text or a byte outside the class. */
  predicate Bounded(data: Bytes, source: Bytes) {
    StartsWith(data, source) && (|data| == |source| || !InClass(data[|source|]))
  }

  predicate BoundedAt(data: Bytes, i: nat, source: Bytes) {
    i <= |data| && Bounded(data[i..], source)
  }

  // ---------------------------------------------------------------- the expression

  /** ReplaceAll of (source)([^a-zA-Z0-9_.-]|$) by target$2: a match takes the character
      after source with it, and the search goes on behind that character. */
  function ReplaceMatches(data: Bytes, source: Bytes, target: Bytes): Bytes
    requires source != []
    decreases |data|
  {
    if data == [] then []
    else if Bounded(data, source) then
      var rest := data[|source|..];
      var w := if rest == [] then 0 else RuneWidth(rest);
      target + rest[..w] + ReplaceMatches(rest[w..], source, target)
    else data[..1] + ReplaceMatches(data[1..], source, target)
  }

  /** rewriteModulePath, for a target without '$'. */
  function Rewrite(data: Bytes, source: Bytes, target: Bytes): Bytes {
    if source == [] || target == [] || !Contains(data, source) then data
    else ReplaceMatches(data, source, target)
  }

  // ---------------------------------------------------------------- the intention

  /** Replaces the leftmost, non-overlapping bounded occurrences of source, and looks at the
      byte behind each of them without taking it. */
  function ReplaceBounded(data: Bytes, source: Bytes, target: Bytes): Bytes
    requires source != []
    decreases |data|
  {
    if data == [] then []
    else if Bounded(data, source) then target + ReplaceBounded(data[|source|..], source, target)
    else data[..1] + ReplaceBounded(data[1..], source, target)
  }

  lemma {:induction false} KeptPrefix(data: Bytes, source: Bytes, target: Bytes, k: nat)
    requires source != [] && k <= |data|
    requires forall i :: 0 <= i < k ==> !BoundedAt(data, i, source)
    ensures ReplaceBounded(data, source, target) == data[..k] + ReplaceBounded(data[k..], source, target)
  {
    if k > 0 {
      assert data[0..] == data && !BoundedAt(data, 0, source);
      forall i | 0 <= i < k - 1 ensures !BoundedAt(data[1..], i, source) {
        assert data[1..][i..] == data[i + 1..];
        assert !BoundedAt(data, i + 1, source);
      }
      KeptPrefix(data[1..], source, target, k - 1);
      var rest := ReplaceBounded(data[k..], source, target);
      assert data[1..][k - 1..] == data[k..];
      assert data[..1] + data[1..][..k - 1] == data[..k];
      assert data[..1] + (data[1..][..k - 1] + rest) == data[..1] + data[1..][..k - 1] + rest;
    } else {
      assert data[0..] == data;
    }
  }

  lemma {:induction false} KeptByMatches(data: Bytes, source: Bytes, target: Bytes)
    requires source != [] && (forall i :: 0 <= i < |data| ==> !BoundedAt(data, i, source))
    ensures ReplaceMatches(data, source, target) == data
  {
    if data != [] {
      assert data[0..] == data && !BoundedAt(data, 0, source);
      forall i | 0 <= i < |data| - 1 ensures !BoundedAt(data[1..], i, source) {
        assert data[1..][i..] == data[i + 1..];
        assert !BoundedAt(data, i + 1, source);
      }
      KeptByMatches(data[1..], source, target);
    }
  }

  /** No occurrence begins inside the character that ends a match, if source begins with a
      byte of the class. */
  lemma {:induction false} MatchesAreBounded(data: Bytes, source: Bytes, target: Bytes)
    requires source != [] && InClass(source[0])
    ensures ReplaceMatches(data, source, target) == ReplaceBounded(data, source, target)
    decreases |data|
  {
    if data == [] {
    } else if Bounded(data, source) {
      var rest := data[|source|..];
      if rest != [] {
        var w := RuneWidth(rest);
        forall i | 0 <= i < w ensures !BoundedAt(rest, i, source) {
          NotInsideRune(rest, i);
        }
        KeptPrefix(rest, source, target, w);
        MatchesAreBounded(rest[w..], source, target);
      }
    } else {
      MatchesAreBounded(data[1..], source, target);
    }
  }

  /** The bytes of a character that starts outside the class are all outside it. */
  lemma NotInsideRune(s: Bytes, i: nat)
    requires s != [] && !InClass(s[0]) && i < RuneWidth(s)
    ensures !InClass(s[i])
  {
  }

  lemma UncontainedIsKept(data: Bytes, source: Bytes, target: Bytes)
    requires source != [] && !Contains(data, source)
    ensures ReplaceBounded(data, source, target) == data && ReplaceMatches(data, source, target) == data
  {
    forall i | 0 <= i < |data| ensures !BoundedAt(data, i, source) {
    }
    KeptPrefix(data, source, target, |data|);
    KeptByMatches(data, source, target);
  }

  /** One replacement at the front. */
  lemma ReplaceFront(source: Bytes, rest: Bytes, target: Bytes)
    requires source != [] && Bounded(source + rest, source)
    ensures ReplaceBounded(source + rest, source, target) == target + ReplaceBounded(rest, source, target)
    ensures var w := if rest == [] then 0 else RuneWidth(rest);
            ReplaceMatches(source + rest, source, target)
              == target + rest[..w] + ReplaceMatches(rest[w..], source, target)
  {
    assert (source + rest)[|source|..] == rest;
  }

  lemma {:induction false} SameIsKept(data: Bytes, source: Bytes)
    requires source != []
    ensures ReplaceBounded(data, source, source) == data
    decreases |data|
  {
    if data != [] {
      if Bounded(data, source) {
        var rest := data[|source|..];
        assert source + rest == data;
        ReplaceFront(source, rest, source);
        SameIsKept(rest, source);
      } else {
        SameIsKept(data[1..], source);
        assert data[..1] + data[1..] == data;
      }
    }
  }

  lemma {:induction false} SameIsMatched(data: Bytes, source: Bytes)
    requires source != []
    ensures ReplaceMatches(data, source, source) == data
    decreases |data|
  {
    if data != [] {
      if Bounded(data, source) {
        var rest := data[|source|..];
        assert source + rest == data;
        ReplaceFront(source, rest, source);
        var w := if rest == [] then 0 else RuneWidth(rest);
        SameIsMatched(rest[w..], source);
        Rejoin(source, rest, w);
      } else {
        SameIsMatched(data[1..], source);
        assert data[..1] + data[1..] == data;
      }
    }
  }

  lemma Rejoin(a: Bytes, b: Bytes, w: nat)
    requires w <= |b|
    ensures a + b[..w] + b[w..] == a + b
  {
  }

  /** rewriteModulePath replaces exactly the bounded occurrences, on all data, if and only if
      source begins with a byte of the class (or there is nothing to rewrite). */
  lemma RewriteIsIntended(source: Bytes, target: Bytes)
    requires source != [] && target != []
    ensures (forall data :: Rewrite(data, source, target) == ReplaceBounded(data, source, target)) <==>
      InClass(source[0]) || source == target
  {
    if InClass(source[0]) || source == target {
      forall data ensures Rewrite(data, source, target) == ReplaceBounded(data, source, target) {
        if !Contains(data, source) {
          UncontainedIsKept(data, source, target);
        } else if source == target {
          SameIsKept(data, source);
          SameIsMatched(data, source);
        } else {
          MatchesAreBounded(data, source, target);
        }
      }
    } else {
      DoubledSourceTellsApart(source, target);
    }
  }

  /** Two adjacent occurrences of a source such as "/a": the first match takes the separator
      the second one starts with. */
  lemma DoubledByMatches(source: Bytes, target: Bytes)
    requires source != [] && !InClass(source[0])
    ensures ReplaceMatches(source + source, source, target) == target + source
  {
    var w := RuneWidth(source);
    var tail := source[w..];
    ReplaceFront(source, source, target);
    forall i | 0 <= i < |tail| ensures !BoundedAt(tail, i, source) {
    }
    KeptByMatches(tail, source, target);
    Rejoin(target, source, w);
  }

  lemma DoubledByIntention(source: Bytes, target: Bytes)
    requires source != [] && !InClass(source[0])
    ensures ReplaceBounded(source + source, source, target) == target + target
  {
    ReplaceFront(source, source, target);
    assert source + [] == source;
    ReplaceFront(source, [], target);
    assert target + [] == target;
  }

  lemma DoubledSourceTellsApart(source: Bytes, target: Bytes)
    requires source != [] && target != [] && !InClass(source[0]) && source != target
    ensures Rewrite(source + source, source, target) == target + source
    ensures ReplaceBounded(source + source, source, target) == target + target
    ensures Rewrite(source + source, source, target) != ReplaceBounded(source + source, source, target)
  {
    DoubledByMatches(source, target);
    DoubledByIntention(source, target);
    assert (source + source)[0..] == source + source && StartsWith((source + source)[0..], source);
    assert (target + source)[|target|..] == source && (target + target)[|target|..] == target;
  }

  /** The class, byte by byte: '-' and '.', the digits, the capitals, '_', the small letters. */
  lemma ClassExactly(b: Byte)
    ensures InClass(b) <==> b == 45 || b == 46 || 48 <= b <= 57 || 65 <= b <= 90 || b == 95 || 97 <= b <= 122
  {
  }

  lemma ShiftedIsOneByte(source: Bytes, b: Byte)
    requires source != [] && (source + [b])[1..] == source
    ensures forall i :: 0 <= i < |source| ==> source[i] == b
  {
    var i := |source| - 1;
    assert source[i] == (source + [b])[1..][i];
    while i > 0
      invariant 0 <= i < |source| && forall k :: i <= k < |source| ==> source[k] == b
    {
      assert source[i - 1] == (source + [b])[1..][i - 1];
      i := i - 1;
    }
  }

  lemma InClassIsKept(source: Bytes, target: Bytes, b: Byte)
    requires source != [] && InClass(b) && exists i :: 0 <= i < |source| && source[i] != b
    ensures ReplaceBounded(source + [b], source, target) == source + [b]
  {
    var data := source + [b];
    forall i | 0 <= i < |data| ensures !BoundedAt(data, i, source) {
      if i == 0 {
        assert data[0..] == data && data[|source|] == b;
      } else if i == 1 && BoundedAt(data, i, source) {
        assert data[1..][..|source|] == data[1..];
        ShiftedIsOneByte(source, b);
      }
    }
    KeptPrefix(data, source, target, |data|);
    assert data[|data|..] == [] && data[..|data|] == data;
  }

  lemma SeparatorIsKept(source: Bytes, target: Bytes, b: Byte)
    requires source != [] && InClass(source[0]) && !InClass(b)
    ensures ReplaceBounded(source + [b], source, target) == target + [b]
  {
    assert (source + [b])[..|source|] == source;
    ReplaceFront(source, [b], target);
    assert !Bounded([b], source);
    assert [b][1..] == [] && [b][..1] == [b];
    assert ReplaceBounded([b], source, target) == [b] + ReplaceBounded([], source, target) == [b];
  }

  /** A longer name is not taken for the source: followed by a letter, a digit, '-', '.' or '_' the
      source stays, followed by anything else, such as '/', or by the end it is replaced. */
  lemma LongerNamesStay(source: Bytes, target: Bytes, b: Byte)
    requires source != [] && target != [] && InClass(source[0]) && exists i :: 0 <= i < |source| && source[i] != b
    ensures Rewrite(source + [b], source, target) ==
              if b == 45 || b == 46 || 48 <= b <= 57 || 65 <= b <= 90 || b == 95 || 97 <= b <= 122 then source + [b]
              else target + [b]
    ensures Rewrite(source, source, target) == target
  {
    RewriteIsIntended(source, target);
    if InClass(b) {
      InClassIsKept(source, target, b);
    } else {
      SeparatorIsKept(source, target, b);
    }
    assert source + [] == source && target + [] == target;
    ReplaceFront(source, [], target);
  }

  // ---------------------------------------------------------------- what is replaced

  /** The positions, from the given one on, at which occurrences are replaced. */
  function Replaced(data: Bytes, from: nat, source: Bytes): (ps: seq<nat>)
    requires source != [] && from <= |data|
    ensures forall k :: 0 <= k < |ps| ==> from <= ps[k] && ps[k] + |source| <= |data|
    decreases |data| - from
  {
    if from == |data| then []
    else if BoundedAt(data, from, source) then [from] + Replaced(data, from + |source|, source)
    else Replaced(data, from + 1, source)
  }

  /** data with target in place of the |source| bytes at each of the positions ps. */
  ghost function Splice(data: Bytes, from: nat, ps: seq<nat>, width: nat, target: Bytes): Bytes
    requires from <= |data|
    requires forall k :: 0 <= k < |ps| ==> from <= ps[k] && ps[k] + width <= |data|
    requires Spaced(ps, width)
    decreases |ps|
  {
    if ps == [] then data[from..]
    else data[from..ps[0]] + target + Splice(data, ps[0] + width, ps[1..], width, target)
  }

  ghost predicate Spaced(ps: seq<nat>, width: nat) {
    forall j, k :: 0 <= j < k < |ps| ==> ps[j] + width <= ps[k]
  }

  /** Position i lies in one of the occurrences that start at ps. */
  predicate Covers(ps: seq<nat>, i: nat, width: nat) {
    ps != [] && (ps[0] <= i < ps[0] + width || Covers(ps[1..], i, width))
  }

  lemma {:induction false} CoveredAt(ps: seq<nat>, i: nat, width: nat) returns (k: nat)
    requires Covers(ps, i, width)
    ensures k < |ps| && ps[k] <= i < ps[k] + width
  {
    if ps[0] <= i < ps[0] + width { return 0; }
    k := CoveredAt(ps[1..], i, width);
    k := k + 1;
  }

  /** The replaced occurrences are bounded, do not overlap, and leave out no bounded
      occurrence except one that overlaps a replaced one to its left. */
  ghost predicate Leftmost(data: Bytes, source: Bytes, ps: seq<nat>) {
    && (forall k :: 0 <= k < |ps| ==> BoundedAt(data, ps[k], source))
    && Spaced(ps, |source|)
    && (forall i: nat :: BoundedAt(data, i, source) ==> Covers(ps, i, |source|))
  }

  lemma SliceSplits(data: Bytes, from: nat, mid: nat, to: nat)
    requires from <= mid <= to <= |data|
    ensures data[from..to] == data[from..mid] + data[mid..to]
  {
  }

  lemma CatAssociates(a: Bytes, b: Bytes, c: Bytes, d: Bytes)
    ensures ((a + b) + c) + d == a + ((b + c) + d)
  {
  }

  lemma {:induction false} SpliceSkips(data: Bytes, from: nat, to: nat, ps: seq<nat>, width: nat, target: Bytes)
    requires from <= to <= |data|
    requires forall k :: 0 <= k < |ps| ==> to <= ps[k] && ps[k] + width <= |data|
    requires Spaced(ps, width)
    ensures Splice(data, from, ps, width, target) == data[from..to] + Splice(data, to, ps, width, target)
  {
    if ps == [] {
      SliceSplits(data, from, to, |data|);
    } else {
      SliceSplits(data, from, to, ps[0]);
      CatAssociates(data[from..to], data[to..ps[0]], target, Splice(data, ps[0] + width, ps[1..], width, target));
    }
  }

  lemma SpliceTakes(data: Bytes, from: nat, ps: seq<nat>, width: nat, target: Bytes)
    requires from + width <= |data|
    requires forall k :: 0 <= k < |ps| ==> from + width <= ps[k] && ps[k] + width <= |data|
    requires Spaced(ps, width)
    ensures Spaced([from] + ps, width)
    ensures Splice(data, from, [from] + ps, width, target) == target + Splice(data, from + width, ps, width, target)
  {
    assert ([from] + ps)[1..] == ps;
    assert data[from..from] == [];
  }

  lemma SpacedBehind(from: nat, ps: seq<nat>, width: nat)
    requires Spaced(ps, width) && forall k :: 0 <= k < |ps| ==> from + width <= ps[k]
    ensures Spaced([from] + ps, width)
  {
  }

  lemma {:induction false} ReplacedAreSpaced(data: Bytes, from: nat, source: Bytes)
    requires source != [] && from <= |data|
    ensures Spaced(Replaced(data, from, source), |source|)
    decreases |data| - from
  {
    if from < |data| {
      if BoundedAt(data, from, source) {
        ReplacedAreSpaced(data, from + |source|, source);
        SpacedBehind(from, Replaced(data, from + |source|, source), |source|);
      } else {
        ReplacedAreSpaced(data, from + 1, source);
      }
    }
  }

  lemma {:induction false} ReplacedAreBounded(data: Bytes, from: nat, source: Bytes, p: nat)
    requires source != [] && from <= |data| && p in Replaced(data, from, source)
    ensures BoundedAt(data, p, source)
    decreases |data| - from
  {
    if BoundedAt(data, from, source) {
      if p != from {
        ReplacedAreBounded(data, from + |source|, source, p);
      }
    } else {
      ReplacedAreBounded(data, from + 1, source, p);
    }
  }

  lemma {:induction false} ReplacedCover(data: Bytes, from: nat, source: Bytes, i: nat)
    requires source != [] && from <= i <= |data| && BoundedAt(data, i, source)
    ensures Covers(Replaced(data, from, source), i, |source|)
    decreases |data| - from
  {
    if BoundedAt(data, from, source) {
      var rest := Replaced(data, from + |source|, source);
      assert ([from] + rest)[1..] == rest;
      if from + |source| <= i {
        ReplacedCover(data, from + |source|, source, i);
      }
    } else {
      ReplacedCover(data, from + 1, source, i);
    }
  }

  lemma ReplacedIsLeftmost(data: Bytes, source: Bytes)
    requires source != []
    ensures Leftmost(data, source, Replaced(data, 0, source))
  {
    var ps := Replaced(data, 0, source);
    ReplacedAreSpaced(data, 0, source);
    forall k | 0 <= k < |ps| ensures BoundedAt(data, ps[k], source) {
      ReplacedAreBounded(data, 0, source, ps[k]);
    }
    forall i: nat | BoundedAt(data, i, source) ensures Covers(ps, i, |source|) {
      ReplacedCover(data, 0, source, i);
    }
  }

  /** From position from on, ReplaceBounded splices in target at the positions ps. */
  ghost predicate Spliced(data: Bytes, from: nat, ps: seq<nat>, source: Bytes, target: Bytes)
    requires source != []
  {
    && from <= |data|
    && (forall k :: 0 <= k < |ps| ==> from <= ps[k] && ps[k] + |source| <= |data|)
    && Spaced(ps, |source|)
    && ReplaceBounded(data[from..], source, target) == Splice(data, from, ps, |source|, target)
  }

  lemma ReplaceHere(data: Bytes, from: nat, source: Bytes, target: Bytes)
    requires source != [] && from < |data| && BoundedAt(data, from, source)
    ensures ReplaceBounded(data[from..], source, target)
      == target + ReplaceBounded(data[from + |source|..], source, target)
  {
    assert data[from..][|source|..] == data[from + |source|..];
  }

  lemma ReplaceLater(data: Bytes, from: nat, source: Bytes, target: Bytes)
    requires source != [] && from < |data| && !BoundedAt(data, from, source)
    ensures ReplaceBounded(data[from..], source, target)
      == data[from..from + 1] + ReplaceBounded(data[from + 1..], source, target)
  {
    assert data[from..][1..] == data[from + 1..];
    assert data[from..][..1] == data[from..from + 1];
  }

  lemma TakeStep(data: Bytes, from: nat, rest: seq<nat>, source: Bytes, target: Bytes)
    requires source != [] && from < |data| && BoundedAt(data, from, source)
      && Spliced(data, from + |source|, rest, source, target)
    ensures Spliced(data, from, [from] + rest, source, target)
  {
    ReplaceHere(data, from, source, target);
    SpliceTakes(data, from, rest, |source|, target);
  }

  lemma SkipStep(data: Bytes, from: nat, ps: seq<nat>, source: Bytes, target: Bytes)
    requires source != [] && from < |data| && !BoundedAt(data, from, source)
      && Spliced(data, from + 1, ps, source, target)
    ensures Spliced(data, from, ps, source, target)
  {
    ReplaceLater(data, from, source, target);
    SpliceSkips(data, from, from + 1, ps, |source|, target);
  }

  lemma {:induction false} SplicedAtReplaced(data: Bytes, from: nat, source: Bytes, target: Bytes)
    requires source != [] && from <= |data|
    ensures Spliced(data, from, Replaced(data, from, source), source, target)
    decreases |data| - from
  {
    if from == |data| {
    } else if BoundedAt(data, from, source) {
      SplicedAtReplaced(data, from + |source|, source, target);
      TakeStep(data, from, Replaced(data, from + |source|, source), source, target);
    } else {
      SplicedAtReplaced(data, from + 1, source, target);
      SkipStep(data, from, Replaced(data, from + 1, source), source, target);
    }
  }

  /** Meaning of ReplaceBounded: target is spliced in at the leftmost, non-overlapping
      bounded occurrences of source, and every other byte stays. */
  lemma ReplacesLeftmost(data: Bytes, source: Bytes, target: Bytes)
    requires source != []
    ensures Leftmost(data, source, Replaced(data, 0, source))
    ensures ReplaceBounded(data, source, target) == Splice(data, 0, Replaced(data, 0, source), |source|, target)
  {
    ReplacedIsLeftmost(data, source);
    SplicedAtReplaced(data, 0, source, target);
    assert data[0..] == data;
  }

  /** At most one list of positions is leftmost, so this pins down the result. */
  lemma LeftmostIsUnique(data: Bytes, source: Bytes, ps: seq<nat>, qs: seq<nat>)
    requires source != [] && Leftmost(data, source, ps) && Leftmost(data, source, qs)
    ensures ps == qs
  {
    AgreeUpTo(data, source, ps, qs, |ps|);
    AgreeUpTo(data, source, qs, ps, |qs|);
  }

  lemma {:induction false} AgreeUpTo(data: Bytes, source: Bytes, ps: seq<nat>, qs: seq<nat>, n: nat)
    requires source != [] && Leftmost(data, source, ps) && Leftmost(data, source, qs)
    requires n <= |ps|
    ensures n <= |qs| && forall j :: 0 <= j < n ==> ps[j] == qs[j]
  {
    if n > 0 {
      AgreeUpTo(data, source, ps, qs, n - 1);
      NextAgrees(data, source, ps, qs, n - 1);
      NextAgrees(data, source, qs, ps, n - 1);
    }
  }

  lemma NextAgrees(data: Bytes, source: Bytes, ps: seq<nat>, qs: seq<nat>, n: nat)
    requires source != [] && Leftmost(data, source, ps) && Leftmost(data, source, qs)
    requires n < |ps| && n <= |qs| && forall j :: 0 <= j < n ==> ps[j] == qs[j]
    ensures n < |qs| && qs[n] <= ps[n]
  {
    assert BoundedAt(data, ps[n], source);
    var k := CoveredAt(qs, ps[n], |source|);
  }
}
