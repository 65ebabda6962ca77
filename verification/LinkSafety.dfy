/** Which symbolic links are accepted: what a link target resolves to, and that whatever is
    written stays inside the directory it is written to. */
module LinkSafety {
  import opened ModulePath
  import opened GitObjects
  import opened Materialize

  const UP: Bytes := [DOT, DOT]

  /** An element that names something. */
  predicate Plain(e: Bytes) { e != [] && e != [DOT] && e != UP }

  ghost predicate AllPlain(names: seq<Bytes>) { forall e :: e in names ==> Plain(e) }

  function Ups(n: nat): seq<Bytes> { seq(n, i => UP) }

  // ---------------------------------------------------------------- elements

  function Slashed(elements: seq<Bytes>): Bytes
    requires elements != []
  {
    if |elements| == 1 then elements[0] else elements[0] + [SLASH] + Slashed(elements[1..])
  }

  ghost predicate NoSlashes(elements: seq<Bytes>) { forall e :: e in elements ==> SLASH !in e }

  lemma {:induction false} ElementsHaveNoSlashes(s: Bytes)
    ensures Elements(s) != [] && NoSlashes(Elements(s))
  {
    if s != [] {
      ElementsHaveNoSlashes(s[1..]);
      var rest := Elements(s[1..]);
      assert rest[0] in rest && forall e :: e in rest[1..] ==> e in rest;
    }
  }

  lemma {:induction false} ElementsUpToSlash(e: Bytes, s: Bytes)
    requires SLASH !in e
    ensures Elements(e + [SLASH] + s) == [e] + Elements(s)
  {
    var t := e + [SLASH] + s;
    if e == [] {
      assert t[1..] == s;
    } else {
      assert e[0] in e && [e[0]] + e[1..] == e;
      assert t[1..] == e[1..] + [SLASH] + s;
      ElementsUpToSlash(e[1..], s);
    }
  }

  lemma {:induction false} OneElement(e: Bytes)
    requires SLASH !in e
    ensures Elements(e) == [e]
  {
    if e != [] {
      assert e[0] in e && [e[0]] + e[1..] == e;
      OneElement(e[1..]);
    }
  }

  /** Splitting at slashes undoes joining with slashes. */
  lemma {:induction false} ElementsUndoSlashed(elements: seq<Bytes>)
    requires elements != [] && NoSlashes(elements)
    ensures Elements(Slashed(elements)) == elements
  {
    assert elements[0] in elements && elements == [elements[0]] + elements[1..];
    if |elements| == 1 {
      OneElement(elements[0]);
    } else {
      assert forall e :: e in elements[1..] ==> e in elements;
      ElementsUpToSlash(elements[0], Slashed(elements[1..]));
      ElementsUndoSlashed(elements[1..]);
    }
  }

  lemma {:induction false} SlashedUndoesElements(s: Bytes)
    ensures Elements(s) != [] && Slashed(Elements(s)) == s
  {
    ElementsHaveNoSlashes(s);
    if s != [] {
      SlashedUndoesElements(s[1..]);
      ElementsHaveNoSlashes(s[1..]);
      var rest := Elements(s[1..]);
      assert s == [s[0]] + s[1..];
      if s[0] == SLASH {
        assert ([[]] + rest)[1..] == rest;
        assert Slashed([[]] + rest) == [] + [SLASH] + Slashed(rest);
      } else if |rest| == 1 {
        assert Slashed([[s[0]] + rest[0]]) == [s[0]] + rest[0];
      } else {
        var es := [[s[0]] + rest[0]] + rest[1..];
        assert es[1..] == rest[1..];
        assert Slashed(es) == [s[0]] + rest[0] + [SLASH] + Slashed(rest[1..]) == [s[0]] + Slashed(rest);
      }
    }
  }

  // ---------------------------------------------------------------- joining

  lemma {:induction false} JoinOfSum(dir: Path, a: seq<Bytes>, b: seq<Bytes>)
    ensures Join(dir, a + b) == Join(Join(dir, a), b)
    decreases |a|
  {
    if a == [] {
      assert a + b == b;
    } else {
      assert (a + b)[1..] == a[1..] + b;
      JoinOfSum(Join(dir, [a[0]]), a[1..], b);
      JoinOfOne(dir, a[0]);
    }
  }

  lemma JoinOfOne(dir: Path, e: Bytes)
    ensures Join(dir, [e]) == if e == [] || e == [DOT] then dir
                              else if e == UP then (if dir == [] then [] else dir[..|dir| - 1])
                              else dir + [e]
  {
    assert [e][1..] == [];
  }

  /** Names go down, one by one. */
  lemma {:induction false} NamesGoDown(dir: Path, names: seq<Bytes>)
    requires AllPlain(names)
    ensures Join(dir, names) == dir + names
    decreases |names|
  {
    if names == [] {
      assert dir + names == dir;
    } else {
      assert names[0] in names && forall e :: e in names[1..] ==> e in names;
      NamesGoDown(dir + [names[0]], names[1..]);
      assert dir + [names[0]] + names[1..] == dir + names;
    }
  }

  /** Nothing and "." do not matter. */
  lemma DotsVanish(dir: Path, a: seq<Bytes>, e: Bytes, b: seq<Bytes>)
    requires e == [] || e == [DOT]
    ensures Join(dir, a + [e] + b) == Join(dir, a + b)
  {
    JoinOfSum(dir, a + [e], b);
    JoinOfSum(dir, a, [e]);
    JoinOfOne(Join(dir, a), e);
    JoinOfSum(dir, a, b);
  }

  /** A name followed by ".." cancels. */
  lemma UpCancelsName(dir: Path, a: seq<Bytes>, x: Bytes, b: seq<Bytes>)
    requires Plain(x)
    ensures Join(dir, a + [x, UP] + b) == Join(dir, a + b)
  {
    JoinOfSum(dir, a + [x, UP], b);
    JoinOfSum(dir, a, [x, UP]);
    JoinOfSum(Join(dir, a), [x], [UP]);
    assert [x] + [UP] == [x, UP];
    JoinOfOne(Join(dir, a), x);
    JoinOfOne(Join(dir, a) + [x], UP);
    assert (Join(dir, a) + [x])[..|Join(dir, a)|] == Join(dir, a);
    JoinOfSum(dir, a, b);
  }

  function AtMost(n: nat, m: nat): nat { if n <= m then n else m }

  /** ".." goes up, and stays at the root. */
  lemma {:induction false} UpsGoUp(dir: Path, n: nat)
    ensures Join(dir, Ups(n)) == dir[..|dir| - AtMost(n, |dir|)]
  {
    if n > 0 {
      UpsGoUp(dir, n - 1);
      assert Ups(n) == Ups(n - 1) + [UP];
      JoinOfSum(dir, Ups(n - 1), [UP]);
      JoinOfOne(Join(dir, Ups(n - 1)), UP);
    }
  }

  /** n times ".." and then names lead strictly below dir exactly if the names properly extend
      what has been left of dir. */
  lemma NormalIsBelowExactlyWhen(dir: Path, n: nat, names: seq<Bytes>)
    requires AllPlain(names)
    ensures var k := AtMost(n, |dir|);
            StrictlyBelow(dir, Join(dir, Ups(n) + names)) <==> k < |names| && names[..k] == dir[|dir| - k..]
  {
    NormalLeadsTo(dir, n, names);
    var k := AtMost(n, |dir|);
    var base, left := dir[..|dir| - k], dir[|dir| - k..];
    assert base + left == dir;
    BelowExactlyWhen(base, left, names);
  }

  lemma NormalLeadsTo(dir: Path, n: nat, names: seq<Bytes>)
    requires AllPlain(names)
    ensures Join(dir, Ups(n) + names) == dir[..|dir| - AtMost(n, |dir|)] + names
  {
    JoinOfSum(dir, Ups(n), names);
    UpsGoUp(dir, n);
    NamesGoDown(dir[..|dir| - AtMost(n, |dir|)], names);
  }

  lemma BelowExactlyWhen(base: Path, left: Path, names: Path)
    ensures StrictlyBelow(base + left, base + names) <==> |left| < |names| && names[..|left|] == left
  {
    if |left| < |names| {
      assert (base + names)[..|base + left|] == base + names[..|left|];
      assert (base + left)[|base|..] == left && (base + names[..|left|])[|base|..] == names[..|left|];
    }
  }

  // ---------------------------------------------------------------- every target has a normal form

  /** How often a list of elements climbs out of where it starts, and the names it then goes down. */
  datatype Normal = Normal(ups: nat, names: seq<Bytes>)

  function Then(n: Normal, e: Bytes): Normal {
    if e == [] || e == [DOT] then n
    else if e != UP then n.(names := n.names + [e])
    else if n.names != [] then n.(names := n.names[..|n.names| - 1])
    else n.(ups := n.ups + 1)
  }

  function NormalOf(elements: seq<Bytes>): Normal {
    if elements == [] then Normal(0, []) else Then(NormalOf(elements[..|elements| - 1]), elements[|elements| - 1])
  }

  lemma {:induction false} JoinIsNormal(dir: Path, elements: seq<Bytes>)
    ensures var n := NormalOf(elements);
            AllPlain(n.names) && Join(dir, elements) == Join(dir, Ups(n.ups) + n.names)
  {
    if elements == [] {
      assert Ups(0) + [] == [];
    } else {
      var front, e := elements[..|elements| - 1], elements[|elements| - 1];
      var n := NormalOf(front);
      JoinIsNormal(dir, front);
      assert elements == front + [e];
      JoinOfSum(dir, front, [e]);
      JoinOfSum(dir, Ups(n.ups) + n.names, [e]);
      NormalThen(dir, n, e);
    }
  }

  lemma NormalThen(dir: Path, n: Normal, e: Bytes)
    requires AllPlain(n.names)
    ensures AllPlain(Then(n, e).names)
    ensures Join(dir, Ups(n.ups) + n.names + [e]) == Join(dir, Ups(Then(n, e).ups) + Then(n, e).names)
  {
    var all := Ups(n.ups) + n.names;
    if e == [] || e == [DOT] {
      DotsVanish(dir, all, e, []);
      assert all + [e] + [] == all + [e] && all + [] == all;
    } else if e != UP {
      assert all + [e] == Ups(n.ups) + (n.names + [e]);
    } else if n.names == [] {
      assert all + [e] == Ups(n.ups + 1) + [];
    } else {
      var x, rest := n.names[|n.names| - 1], n.names[..|n.names| - 1];
      assert x in n.names && forall m :: m in rest ==> m in n.names;
      assert all + [e] == (Ups(n.ups) + rest) + [x, UP] + [];
      UpCancelsName(dir, Ups(n.ups) + rest, x, []);
      assert (Ups(n.ups) + rest) + [] == Ups(n.ups) + rest;
    }
  }

  /** The target is relative, and after climbing out of dir, if it does, it comes back into it
      and goes on to something below it. */
  predicate StaysInside(dir: Path, target: Bytes) {
    && (target == [] || target[0] != SLASH)
    && var n := NormalOf(Elements(target));
      var k := AtMost(n.ups, |dir|);
      k < |n.names| && n.names[..k] == dir[|dir| - k..]
  }

  lemma SafeLinkExactlyWhen(dir: Path, target: Bytes)
    ensures SafeLink(dir, target) <==> StaysInside(dir, target)
  {
    JoinIsNormal(dir, Elements(target));
    NormalIsBelowExactlyWhen(dir, NormalOf(Elements(target)).ups, NormalOf(Elements(target)).names);
  }

  /** A target that only climbs, or climbs and then goes elsewhere, is refused. */
  lemma ClimbingIsRefused(dir: Path, n: nat, names: seq<Bytes>)
    requires n > 0 && dir != [] && AllPlain(names) && NoSlashes(names)
    requires names == [] || names[0] != dir[|dir| - AtMost(n, |dir|)]
    ensures !SafeLink(dir, Slashed(Ups(n) + names))
  {
    var es := Ups(n) + names;
    forall e | e in es ensures SLASH !in e {
      if e !in names {
        assert e in Ups(n);
      }
    }
    ElementsUndoSlashed(es);
    NormalIsBelowExactlyWhen(dir, n, names);
    var k := AtMost(n, |dir|);
    assert k < |names| ==> names[..k][0] != dir[|dir| - k..][0];
  }

  // ---------------------------------------------------------------- what is written

  /** Every link that is written resolves inside its own directory, which lies inside dir. */
  lemma {:induction false} LinksStayInside(db: Database, h: Hash, dir: Path, p: Path)
    requires Accepted(db, h, dir) && p in ImageOf(h, dir)
    ensures StrictlyBelow(dir, p)
    ensures ImageOf(h, dir)[p].Link? ==> StaysInside(p[..|p| - 1], ImageOf(h, dir)[p].target)
    decreases h, 1
  {
    EntryLinksStayInside(db, h.of.entries, dir, p);
  }

  lemma {:induction false} EntryLinksStayInside(db: Database, es: seq<Entry>, dir: Path, p: Path)
    requires AcceptedEntries(db, es, dir) && p in ImageOfEntries(es, dir)
    ensures StrictlyBelow(dir, p)
    ensures ImageOfEntries(es, dir)[p].Link? ==> StaysInside(p[..|p| - 1], ImageOfEntries(es, dir)[p].target)
    decreases es, 0
  {
    var e := es[0];
    if p in ImageOfEntries(es[1..], dir) {
      EntryLinksStayInside(db, es[1..], dir, p);
    } else if p == dir + [e.name] {
      assert p[..|dir|] == p[..|p| - 1] == dir;
      if e.mode.Symlink? {
        SafeLinkExactlyWhen(dir, e.hash.of.data);
      } else if e.mode.Dir? && p in ImageOf(e.hash, p) {
        LinksStayInside(db, e.hash, p, p);
      }
    } else {
      assert p in ImageOfEntry(e, dir) && e.mode.Dir? && p in ImageOf(e.hash, dir + [e.name]);
      LinksStayInside(db, e.hash, dir + [e.name], p);
      assert p[..|dir|] == (dir + [e.name])[..|dir|] == dir;
    }
  }
}
