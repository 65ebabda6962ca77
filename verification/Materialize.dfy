/** Reading a synthesized tree back into a directory. */
module Materialize {
  import opened ModulePath
  import opened GitObjects

  /** An absolute path, as its elements. */
  type Path = seq<Bytes>

  datatype Node = Directory | File(data: Bytes, executable: bool) | Link(target: Bytes)

  type Image = map<Path, Node>

  const SLASH: Byte := '/' as int
  const DOT: Byte := '.' as int

  // ---------------------------------------------------------------- which links are safe

  /** The elements of a slash-separated path. */
  function Elements(s: Bytes): seq<Bytes>
    decreases |s|
  {
    if s == [] then [[]]
    else
      var rest := Elements(s[1..]);
      if s[0] == SLASH then [[]] + rest
      else if rest == [] then [[s[0]]]
      else [[s[0]] + rest[0]] + rest[1..]
  }

  /** filepath.Join, element by element: "." and empty elements vanish, ".." goes up, and
      nothing is above the root. */
  function Join(dir: Path, elements: seq<Bytes>): Path
    decreases |elements|
  {
    if elements == [] then dir
    else
      var e := elements[0];
      var next := if e == [] || e == [DOT] then dir
                  else if e == [DOT, DOT] then (if dir == [] then [] else dir[..|dir| - 1])
                  else dir + [e];
      Join(next, elements[1..])
  }

  predicate StrictlyBelow(dir: Path, p: Path) {
    |dir| < |p| && p[..|dir|] == dir
  }

  /** A link is accepted if it is relative and resolves to something inside its own directory. */
  predicate SafeLink(dir: Path, target: Bytes) {
    !(target != [] && target[0] == SLASH) && StrictlyBelow(dir, Join(dir, Elements(target)))
  }

  // ---------------------------------------------------------------- what is written

  function ImageOf(h: Hash, dir: Path): Image
    decreases h, 1
  {
    if h.of.Tree? then ImageOfEntries(h.of.entries, dir) else map[]
  }

  function ImageOfEntries(es: seq<Entry>, dir: Path): Image
    decreases es, 0
  {
    if es == [] then map[] else ImageOfEntry(es[0], dir) + ImageOfEntries(es[1..], dir)
  }

  function ImageOfEntry(e: Entry, dir: Path): Image
    decreases e, 0
  {
    var path := dir + [e.name];
    match e.mode
    case Dir => map[path := Directory] + ImageOf(e.hash, path)
    case Regular => if e.hash.of.Blob? then map[path := File(e.hash.of.data, false)] else map[]
    case Executable => if e.hash.of.Blob? then map[path := File(e.hash.of.data, true)] else map[]
    case Symlink => if e.hash.of.Blob? then map[path := Link(e.hash.of.data)] else map[]
    case _ => map[]
  }

  /** Every object is found and every link is safe. */
  predicate Accepted(db: Database, h: Hash, dir: Path)
    decreases h, 1
  {
    HasTree(db, h) && AcceptedEntries(db, h.of.entries, dir)
  }

  predicate AcceptedEntries(db: Database, es: seq<Entry>, dir: Path)
    decreases es, 0
  {
    es == [] || (AcceptedEntry(db, es[0], dir) && AcceptedEntries(db, es[1..], dir))
  }

  predicate AcceptedEntry(db: Database, e: Entry, dir: Path)
    decreases e, 0
  {
    match e.mode
    case Dir => Accepted(db, e.hash, dir + [e.name])
    case Regular => HasBlob(db, e.hash)
    case Executable => HasBlob(db, e.hash)
    case Symlink => HasBlob(db, e.hash) && SafeLink(dir, e.hash.of.data)
    case _ => true
  }

  lemma OverlaysAssociate(a: Image, b: Image, c: Image)
    ensures (a + b) + c == a + (b + c)
  {
  }

  class Disk {
    var nodes: Image

    constructor ()
      ensures nodes == map[]
    {
      nodes := map[];
    }

    /** Writes the tree below dir; succeeds exactly when every object is found and every
        link is safe, and then has written exactly the image of the tree. */
    method MaterializeTree(db: Database, h: Hash, dir: Path) returns (ok: bool)
      modifies this
      ensures ok <==> Accepted(db, h, dir)
      ensures ok ==> nodes == old(nodes) + ImageOf(h, dir)
      decreases h
    {
      if !HasTree(db, h) {
        return false;
      }
      var entries := h.of.entries;
      for i := 0 to |entries|
        invariant AcceptedEntries(db, entries, dir) <==> AcceptedEntries(db, entries[i..], dir)
        invariant old(nodes) + ImageOfEntries(entries, dir) == nodes + ImageOfEntries(entries[i..], dir)
      {
        var e := entries[i];
        assert entries[i..] == [e] + entries[i + 1..];
        ghost var before := nodes;
        var written := MaterializeEntry(db, e, dir, h);
        if !written {
          return false;
        }
        OverlaysAssociate(before, ImageOfEntry(e, dir), ImageOfEntries(entries[i + 1..], dir));
      }
      return true;
    }

    method MaterializeEntry(db: Database, e: Entry, dir: Path, ghost parent: Hash) returns (ok: bool)
      requires parent.of.Tree? && e in parent.of.entries
      modifies this
      ensures ok <==> AcceptedEntry(db, e, dir)
      ensures ok ==> nodes == old(nodes) + ImageOfEntry(e, dir)
      decreases parent, 0
    {
      var path := dir + [e.name];
      match e.mode
      case Dir =>
        nodes := nodes[path := Directory];
        ok := MaterializeTree(db, e.hash, path);
      case Regular =>
        if !HasBlob(db, e.hash) { return false; }
        nodes := nodes[path := File(e.hash.of.data, false)];
        return true;
      case Executable =>
        if !HasBlob(db, e.hash) { return false; }
        nodes := nodes[path := File(e.hash.of.data, true)];
        return true;
      case Symlink =>
        if !HasBlob(db, e.hash) || !SafeLink(dir, e.hash.of.data) { return false; }
        nodes := nodes - {path};
        nodes := nodes[path := Link(e.hash.of.data)];
        return true;
      case _ =>
        return true;
    }
  }
}
