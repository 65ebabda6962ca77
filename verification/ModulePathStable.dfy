/** Exactly when the rewriting leaves nothing to rewrite, so that doing it again changes
    nothing, for a source that begins with a byte of the class. */
module ModulePathStable {
  import opened ModulePath

  // ---------------------------------------------------------------- how a source can come back

  /** The last n bytes of target begin source, which could go on behind a separator. */
  predicate EndsInto(source: Bytes, target: Bytes, n: nat) {
    0 < n < |source| && n <= |target| && target[|target| - n..] == source[..n] && !InClass(source[n])
  }

  /** How many bytes of target stand in source from position x on, if it runs into target there. */
  function Shared(source: Bytes, target: Bytes, x: nat): (t: nat)
    requires x <= |source|
    ensures t <= |target| && x + t <= |source| && (t == |target| || x + t == |source|)
  {
    if |source| - x <= |target| then |source| - x else |target|
  }

  /** The first x bytes of source, kept in front of a replaced source, run into its target:
      source goes on in target up to a separator, or up to the end of target and behind it.
      They are kept only if no earlier source stands there, which would be replaced first. */
  predicate RunsInto(source: Bytes, target: Bytes, x: nat) {
    && 0 < x <= |source|
    && var t := Shared(source, target, x);
      && source[x..x + t] == target[..t]
      && (t < |target| ==> !InClass(target[t]))
      && (x + t < |source| ==> !InClass(source[x + t]))
      && (forall q :: 0 <= q < x ==> !BoundedAt(source[..x] + source, q, source))
  }

  /** target neither holds a bounded source nor can be completed to one. */
  ghost predicate Separate(source: Bytes, target: Bytes) {
    && (forall o: nat :: !BoundedAt(target, o, source))
    && (forall n: nat :: !EndsInto(source, target, n))
    && (forall x: nat :: !RunsInto(source, target, x))
  }

  /** No result holds a bounded source. */
  ghost predicate LeavesNothing(source: Bytes, target: Bytes) {
    forall data, i: nat :: !BoundedAt(Rewrite(data, source, target), i, source)
  }

  ghost predicate Idempotent(source: Bytes, target: Bytes) {
    forall data :: Rewrite(Rewrite(data, source, target), source, target) == Rewrite(data, source, target)
  }

  // ---------------------------------------------------------------- separate paths leave nothing

  /** What follows a replaced source begins with a separator, and keeps it. */
  lemma SeparatorStays(rest: Bytes, source: Bytes, target: Bytes)
    requires source != [] && InClass(source[0]) && (rest != [] ==> !InClass(rest[0]))
    ensures var out := ReplaceBounded(rest, source, target); out != [] ==> rest != [] && out[0] == rest[0]
  {
  }

  /** A bounded source that begins inside target, with a separator or nothing behind it. */
  lemma FromTarget(source: Bytes, target: Bytes, rest: Bytes, i: nat)
    requires source != [] && i < |target| && (rest != [] ==> !InClass(rest[0]))
    requires BoundedAt(target + rest, i, source)
    ensures BoundedAt(target, i, source) || EndsInto(source, target, |target| - i)
  {
    var out, n := target + rest, |target| - i;
    assert out[i..][..|source|] == source;
    assert forall k :: 0 <= k < n && k < |source| ==> target[i..][k] == out[i..][k];
    if |source| <= n {
      assert target[i..][..|source|] == source;
      if |source| < n {
        assert target[i..][|source|] == out[i..][|source|];
      }
    } else {
      assert target[i..] == source[..n];
      assert source[n] == out[i..][n] == rest[0];
    }
  }

  /** A bounded source that begins with kept bytes in front of a replaced one. */
  lemma IntoTarget(data: Bytes, source: Bytes, target: Bytes, rest: Bytes, p: nat)
    requires source != [] && 0 < p <= |source| && BoundedAt(data, p, source)
    requires forall q :: 0 <= q < p ==> !BoundedAt(data, q, source)
    requires (rest != [] ==> !InClass(rest[0])) && Bounded(data[..p] + target + rest, source)
    ensures RunsInto(source, target, p)
  {
    var out, t := data[..p] + target + rest, Shared(source, target, p);
    assert forall k :: 0 <= k < p ==> source[k] == out[k] == data[k];
    assert forall k :: 0 <= k < t ==> source[p + k] == out[p + k] == target[k];
    assert source[p..p + t] == target[..t];
    if t < |target| {
      assert out[|source|] == target[t];
    }
    if p + t < |source| {
      assert source[p + t] == out[p + t] == rest[0];
    }
    forall q | 0 <= q < p ensures !BoundedAt(source[..p] + source, q, source) {
      OwnPrefixIsData(data, source, p, q);
    }
  }

  lemma OwnPrefixIsData(data: Bytes, source: Bytes, p: nat, q: nat)
    requires q < p <= |source| && BoundedAt(data, p, source) && source[..p] == data[..p]
    ensures BoundedAt(source[..p] + source, q, source) ==> BoundedAt(data, q, source)
  {
    var own := source[..p] + source;
    assert data[p..][..|source|] == source;
    assert own == data[..p + |source|];
    if BoundedAt(own, q, source) {
      assert own[q..][..|source|] == source;
      assert own[q..][|source|] == data[q..][|source|];
      assert data[q..][..|source|] == own[q..][..|source|];
    }
  }

  /** The first of the positions up to bound at which source stands, or bound + 1. */
  lemma {:induction false} FirstBounded(data: Bytes, source: Bytes, bound: nat) returns (p: nat)
    ensures p <= bound + 1 && (p <= bound ==> BoundedAt(data, p, source))
    ensures forall i :: 0 <= i < p ==> !BoundedAt(data, i, source)
  {
    if bound > 0 {
      p := FirstBounded(data, source, bound - 1);
      if p < bound { return; }
      if BoundedAt(data, bound, source) { return bound; }
      return bound + 1;
    }
    if BoundedAt(data, 0, source) { return 0; }
    return 1;
  }

  lemma StandsAt(data: Bytes, source: Bytes, p: nat)
    requires BoundedAt(data, p, source)
    ensures p + |source| <= |data| && (p + |source| < |data| ==> !InClass(data[p + |source|]))
    ensures data[p..] == source + data[p + |source|..]
  {
    assert data[p..] == data[p..][..|source|] + data[p..][|source|..];
  }

  lemma Regroup(a: Bytes, b: Bytes, c: Bytes)
    ensures a + (b + c) == a + b + c
  {
  }

  /** Up to and with its first bounded source, the text is kept and the source replaced. */
  lemma FirstIsReplaced(data: Bytes, source: Bytes, target: Bytes, p: nat)
    requires source != [] && BoundedAt(data, p, source) && forall q :: 0 <= q < p ==> !BoundedAt(data, q, source)
    ensures p + |source| <= |data| && (p + |source| < |data| ==> !InClass(data[p + |source|]))
    ensures ReplaceBounded(data, source, target)
      == data[..p] + target + ReplaceBounded(data[p + |source|..], source, target)
  {
    KeptPrefix(data, source, target, p);
    StandsAt(data, source, p);
    ReplaceFront(source, data[p + |source|..], target);
    Regroup(data[..p], target, ReplaceBounded(data[p + |source|..], source, target));
  }

  lemma NothingLeftAtStart(data: Bytes, source: Bytes, target: Bytes)
    requires source != [] && InClass(source[0]) && Separate(source, target)
    requires data != [] && !Bounded(data, source)
    ensures !Bounded(ReplaceBounded(data, source, target), source)
  {
    assert data[0..] == data;
    var out := ReplaceBounded(data, source, target);
    var p := FirstBounded(data, source, |source|);
    if p <= |source| {
      FirstIsReplaced(data, source, target, p);
      SeparatorStays(data[p + |source|..], source, target);
      if Bounded(out, source) {
        IntoTarget(data, source, target, ReplaceBounded(data[p + |source|..], source, target), p);
      }
    } else if |data| <= |source| {
      KeptPrefix(data, source, target, |data|);
      assert out == data;
    } else {
      KeptPrefix(data, source, target, p);
      assert out[..|source|] == data[..|source|] && out[|source|] == data[|source|];
    }
  }

  lemma {:induction false} NothingLeftAt(data: Bytes, source: Bytes, target: Bytes, i: nat)
    requires source != [] && InClass(source[0]) && Separate(source, target)
    ensures !BoundedAt(ReplaceBounded(data, source, target), i, source)
    decreases |data|
  {
    var out := ReplaceBounded(data, source, target);
    if data == [] {
    } else if Bounded(data, source) {
      var rest := ReplaceBounded(data[|source|..], source, target);
      if i < |target| {
        SeparatorStays(data[|source|..], source, target);
        if BoundedAt(target + rest, i, source) {
          FromTarget(source, target, rest, i);
        }
      } else {
        NothingLeftAt(data[|source|..], source, target, i - |target|);
        assert i <= |out| ==> out[i..] == rest[i - |target|..];
      }
    } else if i > 0 {
      var rest := ReplaceBounded(data[1..], source, target);
      NothingLeftAt(data[1..], source, target, i - 1);
      assert i <= |out| ==> out[i..] == rest[i - 1..];
    } else {
      NothingLeftAtStart(data, source, target);
      assert out[0..] == out;
    }
  }

  // ---------------------------------------------------------------- others leave something

  /** A text without a bounded source in front of its last |tail| bytes, which are fewer than
      those of source. */
  lemma OneIsReplaced(kept: Bytes, tail: Bytes, source: Bytes, target: Bytes)
    requires source != [] && |tail| < |source| && (tail != [] ==> !InClass(tail[0]))
    requires forall q :: 0 <= q < |kept| ==> !BoundedAt(kept + source + tail, q, source)
    ensures ReplaceBounded(kept + source + tail, source, target) == kept + target + tail
  {
    var data := kept + source + tail;
    assert data[|kept|..] == source + tail;
    assert BoundedAt(data, |kept|, source);
    FirstIsReplaced(data, source, target, |kept|);
    assert data[|kept| + |source|..] == tail && data[..|kept|] == kept;
    assert forall i :: 0 <= i < |tail| ==> !BoundedAt(tail, i, source);
    KeptPrefix(tail, source, target, |tail|);
  }

  /** A text made of the bytes of source, not much longer, whose result holds a bounded source
      at position i. */
  ghost predicate Leaves(data: Bytes, i: nat, source: Bytes, target: Bytes)
    requires source != []
  {
    && |data| <= 2 * |source| && (forall b :: b in data ==> b in source)
    && var out := ReplaceBounded(data, source, target);
      |out| <= |source| + |target| && BoundedAt(out, i, source)
  }

  lemma SourceComesBack(source: Bytes, target: Bytes)
    requires source != []
    ensures ReplaceBounded(source, source, target) == target
  {
    assert [] + source + [] == source;
    OneIsReplaced([], [], source, target);
    assert [] + target + [] == target;
  }

  lemma EndComesBack(source: Bytes, target: Bytes, n: nat)
    requires EndsInto(source, target, n)
    ensures Leaves(source + source[n..], |target| - n, source, target)
  {
    var tail := source[n..];
    assert [] + source + tail == source + tail && [] + target + tail == target + tail;
    OneIsReplaced([], tail, source, target);
    EndMeetsRest(source, target, n);
  }

  lemma EndMeetsRest(source: Bytes, target: Bytes, n: nat)
    requires n <= |target| && n <= |source| && target[|target| - n..] == source[..n]
    ensures (target + source[n..])[|target| - n..] == source
  {
  }

  /** The text for position x: the kept bytes, a source, and the rest of the source that is to
      come back. */
  function Witness(source: Bytes, target: Bytes, x: nat): Bytes
    requires x <= |source|
  {
    source[..x] + source + source[x + Shared(source, target, x)..]
  }

  lemma RunComesBack(source: Bytes, target: Bytes, x: nat)
    requires RunsInto(source, target, x)
    ensures Leaves(Witness(source, target, x), 0, source, target)
  {
    var t := Shared(source, target, x);
    var kept, tail := source[..x], source[x + t..];
    forall q | 0 <= q < x ensures !BoundedAt(kept + source + tail, q, source) {
      assert !BoundedAt(kept + source, q, source);
      assert (kept + source + tail)[q..] == (kept + source)[q..] + tail;
      assert (kept + source)[q..][..|source|] == (kept + source + tail)[q..][..|source|];
      assert (kept + source)[q..][|source|] == (kept + source + tail)[q..][|source|];
    }
    OneIsReplaced(kept, tail, source, target);
    assert (kept + target + tail)[0..] == kept + target + tail;
    RunMeetsRest(source, target, x, t);
  }

  lemma RunMeetsRest(source: Bytes, target: Bytes, x: nat, t: nat)
    requires x + t <= |source| && t <= |target| && (t == |target| || x + t == |source|)
      && source[x..x + t] == target[..t]
    ensures StartsWith(source[..x] + target + source[x + t..], source)
    ensures t == |target| ==> source[..x] + target + source[x + t..] == source
  {
    var out := source[..x] + target + source[x + t..];
    assert forall k :: x <= k < x + t ==> source[k] == source[x..x + t][k - x];
  }

  // ---------------------------------------------------------------- the exact condition

  lemma RewriteIsBounded(data: Bytes, source: Bytes, target: Bytes)
    requires source != [] && target != [] && InClass(source[0])
    ensures Rewrite(data, source, target) == ReplaceBounded(data, source, target)
  {
    RewriteIsIntended(source, target);
  }

  /** The rewriting leaves no bounded source, on all texts, exactly for separate paths. */
  lemma NothingLeftExactlyWhen(source: Bytes, target: Bytes)
    requires source != [] && target != [] && InClass(source[0])
    ensures LeavesNothing(source, target) <==> Separate(source, target)
  {
    if Separate(source, target) {
      forall data, i: nat ensures !BoundedAt(Rewrite(data, source, target), i, source) {
        RewriteIsBounded(data, source, target);
        NothingLeftAt(data, source, target, i);
      }
    } else {
      var data, i := SomethingLeft(source, target);
      RewriteIsBounded(data, source, target);
    }
  }

  /** Otherwise there is a text that shows it. */
  lemma SomethingLeft(source: Bytes, target: Bytes) returns (data: Bytes, i: nat)
    requires source != [] && !Separate(source, target)
    ensures Leaves(data, i, source, target)
  {
    if o: nat :| BoundedAt(target, o, source) {
      SourceComesBack(source, target);
      data, i := source, o;
    } else if n: nat :| EndsInto(source, target, n) {
      EndComesBack(source, target, n);
      data, i := source + source[n..], |target| - n;
    } else {
      var x: nat :| RunsInto(source, target, x);
      RunComesBack(source, target, x);
      data, i := Witness(source, target, x), 0;
    }
  }

  lemma {:induction false} LengthMoves(data: Bytes, source: Bytes, target: Bytes)
    requires source != []
    ensures |source| <= |target| ==> |data| <= |ReplaceBounded(data, source, target)|
    ensures |target| <= |source| ==> |ReplaceBounded(data, source, target)| <= |data|
    decreases |data|
  {
    if data == [] {
    } else if Bounded(data, source) {
      LengthMoves(data[|source|..], source, target);
    } else {
      LengthMoves(data[1..], source, target);
    }
  }

  /** A text with a bounded source does change. */
  lemma BoundedSourceChanges(data: Bytes, source: Bytes, target: Bytes, i: nat)
    requires source != [] && source != target && BoundedAt(data, i, source)
    ensures ReplaceBounded(data, source, target) != data
  {
    var p := FirstBounded(data, source, i);
    FirstIsReplaced(data, source, target, p);
    var rest := data[p + |source|..];
    var out := ReplaceBounded(data, source, target);
    LengthMoves(rest, source, target);
    assert data[p..][..|source|] == data[p..p + |source|] == source;
    assert out[p..p + |target|] == target;
  }

  /** Rewriting twice is rewriting once, on all texts, exactly for separate paths (or if there
      is nothing to rewrite). */
  lemma IdempotentExactlyWhen(source: Bytes, target: Bytes)
    requires source != [] && target != [] && InClass(source[0])
    ensures Idempotent(source, target) <==> Separate(source, target) || source == target
  {
    if Separate(source, target) || source == target {
      forall data ensures Rewrite(Rewrite(data, source, target), source, target) == Rewrite(data, source, target) {
        RewriteIsStable(data, source, target);
      }
    } else {
      var data, i := SomethingLeft(source, target);
      var out := Rewrite(data, source, target);
      RewriteIsBounded(data, source, target);
      BoundedSourceChanges(out, source, target, i);
      RewriteIsBounded(out, source, target);
    }
  }

  lemma RewriteIsStable(data: Bytes, source: Bytes, target: Bytes)
    requires source != [] && target != [] && InClass(source[0]) && (Separate(source, target) || source == target)
    ensures Rewrite(Rewrite(data, source, target), source, target) == Rewrite(data, source, target)
  {
    var out := ReplaceBounded(data, source, target);
    RewriteIsBounded(data, source, target);
    RewriteIsBounded(out, source, target);
    if source == target {
      SameIsKept(data, source);
    } else {
      forall j | 0 <= j < |out| ensures !BoundedAt(out, j, source) {
        NothingLeftAt(data, source, target, j);
      }
      KeptPrefix(out, source, target, |out|);
    }
  }

  // ---------------------------------------------------------------- families

  /** Neither contains the other, and no suffix of one is a prefix of the other. */
  ghost predicate OverlapFree(a: Bytes, b: Bytes) {
    && !Contains(a, b) && !Contains(b, a)
    && NoSuffixIsPrefix(a, b) && NoSuffixIsPrefix(b, a)
  }

  ghost predicate NoSuffixIsPrefix(a: Bytes, b: Bytes) {
    forall n :: 0 < n <= |a| && n <= |b| ==> a[|a| - n..] != b[..n]
  }

  lemma RunsIntoIsOverlap(source: Bytes, target: Bytes, x: nat)
    requires target != [] && InClass(target[0]) && RunsInto(source, target, x)
    ensures Contains(source, target) || !NoSuffixIsPrefix(source, target)
  {
    var t := Shared(source, target, x);
    if t == |target| {
      assert source[x..][..t] == source[x..x + t];
      assert StartsWith(source[x..], target);
    } else {
      assert source[|source| - t..] == target[..t];
    }
  }

  /** Paths that do not overlap at all are separate if target begins with a byte of the class. */
  lemma OverlapFreeIsSeparate(source: Bytes, target: Bytes)
    requires source != [] && target != [] && InClass(target[0]) && OverlapFree(source, target)
    ensures Separate(source, target)
  {
    forall x: nat ensures !RunsInto(source, target, x) {
      if RunsInto(source, target, x) {
        RunsIntoIsOverlap(source, target, x);
      }
    }
  }

  /** A target that extends its source by a path element is found again in its own result,
      which then grows every time. */
  lemma VersionSuffixIsUnstable(source: Bytes, suffix: Bytes)
    requires source != [] && InClass(source[0]) && suffix != [] && !InClass(suffix[0])
    ensures var target := source + suffix;
            !Separate(source, target) && BoundedAt(Rewrite(source, source, target), 0, source)
    ensures |Rewrite(source + suffix, source, source + suffix)| > |source + suffix|
  {
    var target := source + suffix;
    assert target[0..] == target && target[..|source|] == source;
    assert BoundedAt(target, 0, source);
    SourceComesBack(source, target);
    RewriteIsBounded(source, source, target);
    RewriteIsBounded(target, source, target);
    ReplaceFront(source, suffix, target);
    LengthMoves(suffix, source, target);
  }

  function Text(s: string): Bytes { seq(|s|, i requires 0 <= i < |s| => if s[i] < 128 as char then s[i] as int else 0) }

  /** Moving an organisation to another host is stable, although the paths overlap: the "g" at
      the end of the source begins the target, but no separator follows it there. */
  lemma NewHostIsStable()
    ensures var source, target := Text("example.com/org"), Text("github.com/org");
            Separate(source, target) && !OverlapFree(source, target)
  {
    var source, target := Text("example.com/org"), Text("github.com/org");
    forall o: nat ensures !BoundedAt(target, o, source) {
      assert o < |target| ==> target[o] == target[o..][0] && target[o] != source[0];
    }
    forall n: nat ensures !EndsInto(source, target, n) {
      assert n < |source| && !InClass(source[n]) ==> n == 7 || n == 11;
      assert target[|target| - 11..][0] != source[..11][0];
    }
    forall x: nat ensures !RunsInto(source, target, x) {
      assert 0 < x < |source| && source[x] == target[0] ==> x == 14;
      assert x < |source| ==> source[x..x + Shared(source, target, x)][0] == source[x];
      assert target[..Shared(source, target, 14)] == target[..1];
    }
    assert source[|source| - 1..] == target[..1];
  }
}
