/** The synthesis of a mirror tree: the tree of a commit, entry for entry, with the module
    path rewritten in its text files. */
module TreeRewrite {
  import opened ModulePath
  import opened GitObjects

  const MAX_REWRITE_SIZE: nat := 8 * 1024 * 1024

  datatype Mapping = Mapping(source: Bytes, target: Bytes)

  // ---------------------------------------------------------------- what it computes

  /** Too large, binary, or without the source path. */
  predicate KeptAsIs(data: Bytes, m: Mapping) {
    |data| > MAX_REWRITE_SIZE || 0 in data || !Contains(data, m.source)
  }

  function FileBytes(data: Bytes, m: Mapping): Bytes {
    if KeptAsIs(data, m) then data else Rewrite(data, m.source, m.target)
  }

  /** The hash of the synthesized tree. */
  function TreeOf(h: Hash, m: Mapping): Hash
    decreases h, 1
  {
    if h.of.Tree? then Digest(Tree(EntriesOf(h.of.entries, m))) else h
  }

  function EntriesOf(es: seq<Entry>, m: Mapping): (r: seq<Entry>)
    ensures |r| == |es|
    decreases es, 0
  {
    if es == [] then [] else [EntryOf(es[0], m)] + EntriesOf(es[1..], m)
  }

  function EntryOf(e: Entry, m: Mapping): Entry
    decreases e, 0
  {
    match e.mode
    case Dir => e.(hash := TreeOf(e.hash, m))
    case Regular => e.(hash := FileOf(e.hash, m))
    case Executable => e.(hash := FileOf(e.hash, m))
    case _ => e
  }

  function FileOf(h: Hash, m: Mapping): Hash {
    if h.of.Blob? then Digest(Blob(FileBytes(h.of.data, m))) else h
  }

  /** The objects a tree needs: itself, its subtrees, its files and its link targets.  A
      submodule lives elsewhere. */
  predicate Complete(db: Database, h: Hash)
    decreases h, 1
  {
    HasTree(db, h) && CompleteEntries(db, h.of.entries)
  }

  predicate CompleteEntries(db: Database, es: seq<Entry>)
    decreases es, 0
  {
    es == [] || (CompleteEntry(db, es[0]) && CompleteEntries(db, es[1..]))
  }

  predicate CompleteEntry(db: Database, e: Entry)
    decreases e, 0
  {
    match e.mode
    case Dir => Complete(db, e.hash)
    case Regular => HasBlob(db, e.hash)
    case Executable => HasBlob(db, e.hash)
    case Symlink => HasBlob(db, e.hash)
    case _ => true
  }

  /** The objects written while the tree is synthesized. */
  function Written(h: Hash, m: Mapping): Database
    decreases h, 1
  {
    if h.of.Tree? then WrittenBy(h.of.entries, m) + {TreeOf(h, m)} else {}
  }

  function WrittenBy(es: seq<Entry>, m: Mapping): Database
    decreases es, 0
  {
    if es == [] then {} else WrittenFor(es[0], m) + WrittenBy(es[1..], m)
  }

  function WrittenFor(e: Entry, m: Mapping): Database
    decreases e, 0
  {
    match e.mode
    case Dir => Written(e.hash, m)
    case Regular => {FileOf(e.hash, m)}
    case Executable => {FileOf(e.hash, m)}
    case Symlink => {e.hash}
    case _ => {}
  }

  /** The report of the files that went through the rewriting. */
  function ReportOf(h: Hash, prefix: Bytes, m: Mapping): seq<Bytes>
    decreases h, 1
  {
    if h.of.Tree? then ReportEntries(h.of.entries, prefix, m) else []
  }

  function ReportEntries(es: seq<Entry>, prefix: Bytes, m: Mapping): seq<Bytes>
    decreases es, 0
  {
    if es == [] then [] else ReportEntry(es[0], prefix, m) + ReportEntries(es[1..], prefix, m)
  }

  function ReportEntry(e: Entry, prefix: Bytes, m: Mapping): seq<Bytes>
    decreases e, 0
  {
    var path := prefix + e.name;
    match e.mode
    case Dir => ReportOf(e.hash, path + ['/' as int], m)
    case Regular => if e.hash.of.Blob? && !KeptAsIs(e.hash.of.data, m) then [path] else []
    case Executable => if e.hash.of.Blob? && !KeptAsIs(e.hash.of.data, m) then [path] else []
    case _ => []
  }

  lemma OneEntry(db: Database, es: seq<Entry>, i: nat, prefix: Bytes, m: Mapping)
    requires i < |es|
    ensures EntriesOf(es[i..], m) == [EntryOf(es[i], m)] + EntriesOf(es[i + 1..], m)
    ensures CompleteEntries(db, es[i..]) <==> CompleteEntry(db, es[i]) && CompleteEntries(db, es[i + 1..])
    ensures WrittenBy(es[i..], m) == WrittenFor(es[i], m) + WrittenBy(es[i + 1..], m)
    ensures ReportEntries(es[i..], prefix, m) == ReportEntry(es[i], prefix, m) + ReportEntries(es[i + 1..], prefix, m)
  {
    assert es[i..][1..] == es[i + 1..];
  }

  /** The first i entries have been rewritten: what remains to be written and reported is that
      of the others. */
  ghost predicate UpTo(source: seq<Entry>, m: Mapping, prefix: Bytes, i: nat, entries: seq<Entry>,
    db: Database, db': Database, report: seq<Bytes>, report': seq<Bytes>)
  {
    && i <= |entries| == |source| && entries[i..] == source[i..]
    && EntriesOf(source, m) == entries[..i] + EntriesOf(source[i..], m)
    && db <= db' && db + WrittenBy(source, m) == db' + WrittenBy(source[i..], m)
    && report + ReportEntries(source, prefix, m) == report' + ReportEntries(source[i..], prefix, m)
  }

  lemma OneMoreEntry(source: seq<Entry>, m: Mapping, prefix: Bytes, i: nat, entries: seq<Entry>,
    db: Database, db': Database, report: seq<Bytes>, report': seq<Bytes>)
    requires i < |source| && UpTo(source, m, prefix, i, entries, db, db', report, report')
    ensures UpTo(source, m, prefix, i + 1, entries[i := EntryOf(source[i], m)],
                 db, db' + WrittenFor(source[i], m), report, report' + ReportEntry(source[i], prefix, m))
  {
    OneEntry({}, source, i, prefix, m);
    assert entries[i := EntryOf(source[i], m)][..i + 1] == entries[..i] + [EntryOf(source[i], m)];
    assert entries[i..][1..] == source[i..][1..];
  }

  // ---------------------------------------------------------------- how it is computed

  class Storer {
    var objects: Database

    constructor ()
      ensures objects == {}
    {
      objects := {};
    }

    method Set(o: Object) returns (h: Hash)
      modifies this
      ensures h == Digest(o) && objects == old(objects) + {h}
    {
      h := Digest(o);
      objects := objects + {h};
    }
  }

  class Builder {
    const repo: Database
    const storer: Storer
    const mapping: Mapping
    var replaced: seq<Bytes>

    constructor (repo: Database, storer: Storer, mapping: Mapping)
      ensures this.repo == repo && this.storer == storer && this.mapping == mapping && replaced == []
    {
      this.repo, this.storer, this.mapping, replaced := repo, storer, mapping, [];
    }

    /** Synthesizes the tree and everything it needs, or reports that the repository lacks
        an object; the repository itself is only read, and the storer only grows. */
    method RewriteTree(h: Hash, prefix: Bytes) returns (r: Result<Hash>)
      modifies storer, this`replaced
      ensures r == if Complete(repo, h) then Ok(TreeOf(h, mapping)) else Missing
      ensures old(storer.objects) <= storer.objects
      ensures r.Ok? ==> storer.objects == old(storer.objects) + Written(h, mapping)
      ensures r.Ok? ==> replaced == old(replaced) + ReportOf(h, prefix, mapping)
      decreases h
    {
      if !HasTree(repo, h) {
        return Missing;
      }
      var source := h.of.entries;
      var entries := source;
      for i := 0 to |source|
        invariant UpTo(source, mapping, prefix, i, entries, old(storer.objects), storer.objects, old(replaced),
          replaced)
        invariant CompleteEntries(repo, source) <==> CompleteEntries(repo, source[i..])
      {
        OneEntry(repo, source, i, prefix, mapping);
        OneMoreEntry(source, mapping, prefix, i, entries, old(storer.objects), storer.objects, old(replaced), replaced);
        var e' := RewriteEntry(source[i], prefix, h);
        if e'.Missing? {
          return Missing;
        }
        entries := entries[i := e'.value];
      }
      assert entries[..|source|] + [] == entries;
      var t := storer.Set(Tree(entries));
      return Ok(t);
    }

    method RewriteEntry(e: Entry, prefix: Bytes, ghost parent: Hash) returns (r: Result<Entry>)
      requires parent.of.Tree? && e in parent.of.entries
      modifies storer, this`replaced
      ensures r == if CompleteEntry(repo, e) then Ok(EntryOf(e, mapping)) else Missing
      ensures old(storer.objects) <= storer.objects
      ensures r.Ok? ==> storer.objects == old(storer.objects) + WrittenFor(e, mapping)
      ensures r.Ok? ==> replaced == old(replaced) + ReportEntry(e, prefix, mapping)
      decreases parent, 0
    {
      var path := prefix + e.name;
      match e.mode
      case Dir =>
        var t := RewriteTree(e.hash, path + ['/' as int]);
        return if t.Ok? then Ok(e.(hash := t.value)) else Missing;
      case Regular =>
        r := RewriteFile(e, path);
      case Executable =>
        r := RewriteFile(e, path);
      case Symlink =>
        var copied := CopyBlob(e.hash);
        return if copied then Ok(e) else Missing;
      case _ =>
        return Ok(e);
    }

    method RewriteFile(e: Entry, path: Bytes) returns (r: Result<Entry>)
      modifies storer, this`replaced
      ensures r == if HasBlob(repo, e.hash) then Ok(e.(hash := FileOf(e.hash, mapping))) else Missing
      ensures storer.objects == old(storer.objects) + if r.Ok? then {FileOf(e.hash, mapping)} else {}
      ensures replaced == old(replaced) + if r.Ok? && !KeptAsIs(e.hash.of.data, mapping) then [path] else []
    {
      if !HasBlob(repo, e.hash) {
        return Missing;
      }
      var data := e.hash.of.data;
      if KeptAsIs(data, mapping) {
        var copied := CopyBlob(e.hash);
        assert e.hash == Digest(Blob(data));
        return Ok(e);
      }
      var h := storer.Set(Blob(Rewrite(data, mapping.source, mapping.target)));
      replaced := replaced + [path];
      return Ok(e.(hash := h));
    }

    method CopyBlob(h: Hash) returns (ok: bool)
      modifies storer
      ensures ok <==> HasBlob(repo, h)
      ensures storer.objects == old(storer.objects) + if ok then {h} else {}
    {
      if !HasBlob(repo, h) {
        return false;
      }
      var copy := storer.Set(h.of);
      return true;
    }
  }
}
