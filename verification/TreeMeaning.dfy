/** What the synthesized tree means: the files of the source tree, rewritten one by one, and
    nothing missing. */
module TreeMeaning {
  import opened ModulePath
  import opened ModulePathStable
  import opened GitObjects
  import opened TreeRewrite
  import opened Materialize

  // ---------------------------------------------------------------- shape

  /** The same names and modes in the same order, all the way down; links and submodules are
      the same objects. */
  predicate SameShape(a: Hash, b: Hash)
    decreases a, 1
  {
    if a.of.Tree? then b.of.Tree? && SameEntries(a.of.entries, b.of.entries)
    else a.of.Blob? == b.of.Blob? && (!a.of.Blob? ==> a == b)
  }

  predicate SameEntries(xs: seq<Entry>, ys: seq<Entry>)
    decreases xs, 0
  {
    |xs| == |ys| && (xs == [] || (SameEntry(xs[0], ys[0]) && SameEntries(xs[1..], ys[1..])))
  }

  predicate SameEntry(a: Entry, b: Entry)
    decreases a, 0
  {
    && a.name == b.name && a.mode == b.mode
    && (a.mode.Dir? ==> SameShape(a.hash, b.hash))
    && (!a.mode.Dir? && !a.mode.Regular? && !a.mode.Executable? ==> a.hash == b.hash)
  }

  lemma {:induction false} KeepsShape(h: Hash, m: Mapping)
    ensures SameShape(h, TreeOf(h, m))
    decreases h, 1
  {
    if h.of.Tree? { EntriesKeepShape(h.of.entries, m); }
  }

  lemma {:induction false} EntriesKeepShape(es: seq<Entry>, m: Mapping)
    ensures SameEntries(es, EntriesOf(es, m))
    decreases es, 0
  {
    if es != [] {
      if es[0].mode.Dir? { KeepsShape(es[0].hash, m); }
      EntriesKeepShape(es[1..], m);
    }
  }

  // ---------------------------------------------------------------- contents

  function RewriteNode(n: Node, m: Mapping): Node {
    if n.File? then File(FileBytes(n.data, m), n.executable) else n
  }

  function RewriteImage(i: Image, m: Mapping): Image {
    map p | p in i :: RewriteNode(i[p], m)
  }

  lemma RewriteImageAdds(a: Image, b: Image, m: Mapping)
    ensures RewriteImage(a + b, m) == RewriteImage(a, m) + RewriteImage(b, m)
  {
  }

  /** Writing the synthesized tree to disk gives the source files, each rewritten. */
  lemma {:induction false} ImageIsRewritten(h: Hash, dir: Path, m: Mapping)
    ensures ImageOf(TreeOf(h, m), dir) == RewriteImage(ImageOf(h, dir), m)
    decreases h, 1
  {
    if h.of.Tree? { EntriesAreRewritten(h.of.entries, dir, m); }
  }

  lemma {:induction false} EntriesAreRewritten(es: seq<Entry>, dir: Path, m: Mapping)
    ensures ImageOfEntries(EntriesOf(es, m), dir) == RewriteImage(ImageOfEntries(es, dir), m)
    decreases es, 0
  {
    if es != [] {
      EntryIsRewritten(es[0], dir, m);
      EntriesAreRewritten(es[1..], dir, m);
      RewriteImageAdds(ImageOfEntry(es[0], dir), ImageOfEntries(es[1..], dir), m);
    }
  }

  lemma {:induction false} EntryIsRewritten(e: Entry, dir: Path, m: Mapping)
    ensures ImageOfEntry(EntryOf(e, m), dir) == RewriteImage(ImageOfEntry(e, dir), m)
    decreases e, 0
  {
    if e.mode.Dir? {
      var path := dir + [e.name];
      ImageIsRewritten(e.hash, path, m);
      RewriteImageAdds(map[path := Directory], ImageOf(e.hash, path), m);
    }
  }

  // ---------------------------------------------------------------- closure

  lemma {:induction false} GrowingKeepsComplete(db: Database, db': Database, h: Hash)
    requires db <= db' && Complete(db, h)
    ensures Complete(db', h)
    decreases h, 1
  {
    EntriesStayComplete(db, db', h.of.entries);
  }

  lemma {:induction false} EntriesStayComplete(db: Database, db': Database, es: seq<Entry>)
    requires db <= db' && CompleteEntries(db, es)
    ensures CompleteEntries(db', es)
    decreases es, 0
  {
    if es != [] {
      if es[0].mode.Dir? { GrowingKeepsComplete(db, db', es[0].hash); }
      EntriesStayComplete(db, db', es[1..]);
    }
  }

  /** Everything the synthesized tree refers to has been written. */
  lemma {:induction false} WrittenIsComplete(db: Database, h: Hash, m: Mapping)
    requires Complete(db, h)
    ensures Complete(Written(h, m), TreeOf(h, m))
    decreases h, 1
  {
    var es := h.of.entries;
    WrittenEntriesAreComplete(db, es, m);
    EntriesStayComplete(WrittenBy(es, m), Written(h, m), EntriesOf(es, m));
  }

  lemma {:induction false} WrittenEntriesAreComplete(db: Database, es: seq<Entry>, m: Mapping)
    requires CompleteEntries(db, es)
    ensures CompleteEntries(WrittenBy(es, m), EntriesOf(es, m))
    decreases es, 0
  {
    if es != [] {
      var all := WrittenBy(es, m);
      if es[0].mode.Dir? {
        WrittenIsComplete(db, es[0].hash, m);
        assert all == WrittenFor(es[0], m) + WrittenBy(es[1..], m);
        GrowingKeepsComplete(Written(es[0].hash, m), all, TreeOf(es[0].hash, m));
      }
      WrittenEntriesAreComplete(db, es[1..], m);
      EntriesStayComplete(WrittenBy(es[1..], m), all, EntriesOf(es[1..], m));
    }
  }

  /** A complete synthesized tree is refused only for a link that the source has as well. */
  lemma {:induction false} AcceptedLikeSource(db: Database, db': Database, h: Hash, dir: Path, m: Mapping)
    requires Complete(db, h) && Complete(db', TreeOf(h, m))
    ensures Accepted(db', TreeOf(h, m), dir) <==> Accepted(db, h, dir)
    decreases h, 1
  {
    EntriesAcceptedLikeSource(db, db', h.of.entries, dir, m);
  }

  lemma {:induction false} EntriesAcceptedLikeSource(db: Database, db': Database, es: seq<Entry>, dir: Path, m: Mapping)
    requires CompleteEntries(db, es) && CompleteEntries(db', EntriesOf(es, m))
    ensures AcceptedEntries(db', EntriesOf(es, m), dir) <==> AcceptedEntries(db, es, dir)
    decreases es, 0
  {
    if es != [] {
      assert EntriesOf(es, m)[1..] == EntriesOf(es[1..], m);
      if es[0].mode.Dir? { AcceptedLikeSource(db, db', es[0].hash, dir + [es[0].name], m); }
      EntriesAcceptedLikeSource(db, db', es[1..], dir, m);
    }
  }

  // ---------------------------------------------------------------- the whole path

  /** Synthesize into an empty database, then write to an empty disk: this succeeds exactly
      when the source tree itself could be written, and the disk then holds the source
      files, each rewritten. */
  method SynthesizeAndMaterialize(repo: Database, h: Hash, dir: Path, m: Mapping) returns (r: Result<Image>)
    ensures r.Ok? <==> Accepted(repo, h, dir)
    ensures r.Ok? ==> r.value == RewriteImage(ImageOf(h, dir), m)
  {
    var storer := new Storer();
    var builder := new Builder(repo, storer, m);
    AcceptedIsComplete(repo, h, dir);
    var t := builder.RewriteTree(h, []);
    if t.Missing? {
      return Missing;
    }
    WrittenIsComplete(repo, h, m);
    GrowingKeepsComplete(Written(h, m), storer.objects, t.value);
    AcceptedLikeSource(repo, storer.objects, h, dir, m);
    var disk := new Disk();
    var ok := disk.MaterializeTree(storer.objects, t.value, dir);
    if !ok {
      return Missing;
    }
    ImageIsRewritten(h, dir, m);
    assert disk.nodes == ImageOf(t.value, dir);
    return Ok(disk.nodes);
  }

  lemma {:induction false} AcceptedIsComplete(db: Database, h: Hash, dir: Path)
    ensures Accepted(db, h, dir) ==> Complete(db, h)
    decreases h, 1
  {
    if h.of.Tree? { AcceptedEntriesAreComplete(db, h.of.entries, dir); }
  }

  lemma {:induction false} AcceptedEntriesAreComplete(db: Database, es: seq<Entry>, dir: Path)
    ensures AcceptedEntries(db, es, dir) ==> CompleteEntries(db, es)
    decreases es, 0
  {
    if es != [] {
      var e := es[0];
      match e.mode {
        case Dir => AcceptedIsComplete(db, e.hash, dir + [e.name]);
        case _ =>
      }
      assert AcceptedEntry(db, e, dir) ==> CompleteEntry(db, e);
      AcceptedEntriesAreComplete(db, es[1..], dir);
    }
  }

  // ---------------------------------------------------------------- doing it twice

  /** Both paths are given, and source begins with a byte of the class. */
  predicate Proper(m: Mapping) { m.source != [] && m.target != [] && InClass(m.source[0]) }

  lemma FileBytesTwice(data: Bytes, m: Mapping)
    requires Proper(m) && (Separate(m.source, m.target) || m.source == m.target)
    ensures FileBytes(FileBytes(data, m), m) == FileBytes(data, m)
  {
    RewriteIsStable(data, m.source, m.target);
  }

  /** For separate paths, synthesizing the synthesized tree gives the same hash. */
  lemma {:induction false} TreeOfTwice(h: Hash, m: Mapping)
    requires Proper(m) && (Separate(m.source, m.target) || m.source == m.target)
    ensures TreeOf(TreeOf(h, m), m) == TreeOf(h, m)
    decreases h, 1
  {
    if h.of.Tree? { EntriesOfTwice(h.of.entries, m); }
  }

  lemma {:induction false} EntriesOfTwice(es: seq<Entry>, m: Mapping)
    requires Proper(m) && (Separate(m.source, m.target) || m.source == m.target)
    ensures EntriesOf(EntriesOf(es, m), m) == EntriesOf(es, m)
    decreases es, 0
  {
    if es != [] {
      var e := es[0];
      if e.mode.Dir? { TreeOfTwice(e.hash, m); }
      if e.hash.of.Blob? { FileBytesTwice(e.hash.of.data, m); }
      EntriesOfTwice(es[1..], m);
      assert EntriesOf(es, m)[1..] == EntriesOf(es[1..], m);
    }
  }

  /** Paths of text that are far below the size limit for files. */
  predicate Usual(m: Mapping) {
    Proper(m) && 0 !in m.source && 0 !in m.target && 2 * |m.source| <= MAX_REWRITE_SIZE
      && |m.source| + |m.target| <= MAX_REWRITE_SIZE
  }

  function OneFile(data: Bytes): Hash {
    Digest(Tree([Entry(['f' as int], Regular, Digest(Blob(data)))]))
  }

  lemma OneFileIsRewritten(data: Bytes, m: Mapping)
    ensures TreeOf(OneFile(data), m) == OneFile(FileBytes(data, m))
  {
    var es := [Entry(['f' as int], Regular, Digest(Blob(data)))];
    assert es[1..] == [];
    assert EntriesOf(es, m) == [EntryOf(es[0], m)];
  }

  lemma BytesOfResult(data: Bytes, source: Bytes, target: Bytes)
    requires source != [] && 0 !in data && 0 !in target
    ensures 0 !in ReplaceBounded(data, source, target)
    decreases |data|
  {
    if data != [] {
      BytesOfResult(if Bounded(data, source) then data[|source|..] else data[1..], source, target);
    }
  }

  /** Otherwise some file, on its own in a tree, is rewritten every time. */
  lemma FileNeverSettles(m: Mapping) returns (data: Bytes)
    requires Usual(m) && m.source != m.target && !Separate(m.source, m.target)
    ensures FileBytes(FileBytes(data, m), m) != FileBytes(data, m)
  {
    var i;
    data, i := SomethingLeft(m.source, m.target);
    var out := ReplaceBounded(data, m.source, m.target);
    RewriteIsBounded(data, m.source, m.target);
    BytesOfResult(data, m.source, m.target);
    assert StartsWith(out[i..], m.source);
    RewriteIsBounded(out, m.source, m.target);
    BoundedSourceChanges(out, m.source, m.target, i);
  }

  /** So for usual paths the synthesis is idempotent on all trees exactly if they are separate. */
  lemma {:induction false} TreesSettleExactlyWhen(m: Mapping)
    requires Usual(m)
    ensures (forall h :: TreeOf(TreeOf(h, m), m) == TreeOf(h, m)) <==>
      Separate(m.source, m.target) || m.source == m.target
  {
    if Separate(m.source, m.target) || m.source == m.target {
      forall h ensures TreeOf(TreeOf(h, m), m) == TreeOf(h, m) {
        TreeOfTwice(h, m);
      }
    } else {
      var data := FileNeverSettles(m);
      OneFileIsRewritten(data, m);
      OneFileIsRewritten(FileBytes(data, m), m);
      assert OneFile(FileBytes(FileBytes(data, m), m)) != OneFile(FileBytes(data, m));
    }
  }
}
