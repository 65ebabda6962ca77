/** Content-addressed git objects.  A hash is modelled as the digest of one object, so two
    objects have the same hash exactly when they are equal, and the objects a tree points
    to are parts of its hash.  An object database is then the set of the hashes it holds. */
module GitObjects {
  import opened ModulePath

  /** File modes of tree entries; Submodule is a gitlink, Other any mode besides. */
  datatype Mode = Dir | Regular | Executable | Symlink | Submodule | Other

  datatype Hash = Digest(of: Object)

  datatype Object =
    | Blob(data: Bytes)
    | Tree(entries: seq<Entry>)
    | Commit(author: Signature, committer: Signature, tree: Hash, parents: seq<Hash>, message: Message)
    | Tag(name: string, tagger: Signature, message: Message, target: Hash)

  datatype Entry = Entry(name: Bytes, mode: Mode, hash: Hash)

  /** A message, or the parts that one of the two message formats is filled with. */
  datatype Message = Free(text: string) | MirrorOf(tag: string, source: Bytes, target: Bytes)

  datatype Signature = Signature(who: string, at: int)

  type Database = set<Hash>

  datatype Result<+T> = Ok(value: T) | Missing

  /** The commit a reference leads to: directly, or through one annotated tag. */
  function CommitAt(h: Hash): Result<Hash> {
    var target := if h.of.Tag? then h.of.target else h;
    if target.of.Commit? then Ok(target) else Missing
  }

  predicate HasBlob(db: Database, h: Hash) { h in db && h.of.Blob? }

  predicate HasTree(db: Database, h: Hash) { h in db && h.of.Tree? }
}
