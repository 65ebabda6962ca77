/** Trees as paths and entries: which entry a path leads to, what is written for it, which files
    are reported, and which objects a synthesized tree needs. */
module TreeFiles {
  import opened ModulePath
  import opened GitObjects
  import opened TreeRewrite
  import opened Materialize
  import LinkSafety

  /** From the tree h the path leads to the entry e. */
  ghost predicate Leads(h: Hash, path: Path, e: Entry)
    decreases |path|
  {
    && h.of.Tree? && path != []
    && exists step :: step in h.of.entries && StepLeads(step, path, e)
  }

  ghost predicate StepLeads(step: Entry, path: Path, e: Entry)
    requires path != []
    decreases |path|, 0
  {
    && step.name == path[0]
    && (if |path| == 1 then step == e else step.mode.Dir? && Leads(step.hash, path[1..], e))
  }

  // ---------------------------------------------------------------- file contents

  /** A file of more than 8 MiB or with a zero byte stays as it is; in any other the module path is
      rewritten. */
  lemma FileBytesExactly(data: Bytes, m: Mapping)
    ensures |data| > 8_388_608 || 0 in data ==> FileBytes(data, m) == data
    ensures |data| <= 8_388_608 && 0 !in data ==> FileBytes(data, m) == Rewrite(data, m.source, m.target)
  {
  }

  // ---------------------------------------------------------------- what is written to disk

  lemma {:induction false} ImageIsBelow(h: Hash, dir: Path, p: Path)
    requires p in ImageOf(h, dir)
    ensures StrictlyBelow(dir, p)
    decreases h, 1
  {
    var k := EntriesAreBelow(h.of.entries, dir, p);
  }

  lemma {:induction false} EntriesAreBelow(es: seq<Entry>, dir: Path, p: Path) returns (k: nat)
    requires p in ImageOfEntries(es, dir)
    ensures k < |es| && p in ImageOfEntry(es[k], dir) && StrictlyBelow(dir, p) && p[|dir|] == es[k].name
    decreases es, 0
  {
    if p in ImageOfEntries(es[1..], dir) {
      k := EntriesAreBelow(es[1..], dir, p);
      k := k + 1;
    } else {
      k := 0;
      EntryIsBelow(es[0], dir, p);
    }
  }

  lemma {:induction false} EntryIsBelow(e: Entry, dir: Path, p: Path)
    requires p in ImageOfEntry(e, dir)
    ensures StrictlyBelow(dir, p) && p[|dir|] == e.name
    decreases e, 0
  {
    var path := dir + [e.name];
    if p == path {
      assert p[..|dir|] == dir;
    } else {
      assert e.mode.Dir? && p in ImageOf(e.hash, path);
      ImageIsBelow(e.hash, path, p);
      assert p[..|dir|] == path[..|dir|] == dir && p[..|path|][|dir|] == path[|dir|];
    }
  }

  /** Everything that is written is an entry to which its path leads. */
  lemma {:induction false} WrittenIsEntry(h: Hash, dir: Path, p: Path) returns (path: Path, e: Entry)
    requires p in ImageOf(h, dir)
    ensures p == dir + path && Leads(h, path, e) && !e.mode.Submodule? && !e.mode.Other?
    decreases h
  {
    var k := EntriesAreBelow(h.of.entries, dir, p);
    var step := h.of.entries[k];
    if p == dir + [step.name] {
      path, e := [step.name], step;
      assert StepLeads(step, path, e);
    } else {
      assert step.mode.Dir? && p in ImageOf(step.hash, dir + [step.name]);
      var rest;
      rest, e := WrittenIsEntry(step.hash, dir + [step.name], p);
      path := [step.name] + rest;
      assert path[1..] == rest && dir + [step.name] + rest == dir + path;
      assert StepLeads(step, path, e);
    }
  }

  /** No tree has two entries of one name. */
  ghost predicate WellNamed(h: Hash) {
    forall i, j :: h.of.Tree? && 0 <= i < j < |h.of.entries| ==> h.of.entries[i].name != h.of.entries[j].name
  }

  ghost predicate AllWellNamed(h: Hash) {
    WellNamed(h) && forall path, e :: Leads(h, path, e) && e.mode.Dir? ==> WellNamed(e.hash)
  }

  lemma {:induction false} OneEntryDecides(es: seq<Entry>, dir: Path, k: nat, p: Path)
    requires k < |es| && |dir| < |p| && p[|dir|] == es[k].name
    requires forall i, j :: 0 <= i < j < |es| ==> es[i].name != es[j].name
    ensures p in ImageOfEntries(es, dir) <==> p in ImageOfEntry(es[k], dir)
    ensures p in ImageOfEntry(es[k], dir) ==> ImageOfEntries(es, dir)[p] == ImageOfEntry(es[k], dir)[p]
    decreases es
  {
    if p in ImageOfEntry(es[0], dir) {
      EntryIsBelow(es[0], dir, p);
    }
    if k == 0 {
      if p in ImageOfEntries(es[1..], dir) {
        var j := EntriesAreBelow(es[1..], dir, p);
      }
    } else {
      OneEntryDecides(es[1..], dir, k - 1, p);
    }
  }

  lemma SubtreesAreWellNamed(h: Hash, step: Entry)
    requires AllWellNamed(h) && h.of.Tree? && step in h.of.entries && step.mode.Dir?
    ensures AllWellNamed(step.hash)
  {
    assert StepLeads(step, [step.name], step) && Leads(h, [step.name], step);
    forall path, e | Leads(step.hash, path, e) && e.mode.Dir? ensures WellNamed(e.hash) {
      assert ([step.name] + path)[1..] == path;
      assert StepLeads(step, [step.name] + path, e) && Leads(h, [step.name] + path, e);
    }
  }

  /** What stands on disk for an entry: a directory, a file with the data of its blob that may be
      executed exactly for an executable entry, a link to what its blob says, and nothing for a
      submodule. */
  lemma {:induction false} EntryIsWritten(h: Hash, dir: Path, path: Path, e: Entry)
    requires AllWellNamed(h) && Leads(h, path, e)
    ensures var image, p := ImageOf(h, dir), dir + path;
            && (e.mode.Dir? ==> p in image && image[p] == Directory)
            && (e.mode.Regular? && e.hash.of.Blob? ==> p in image && image[p] == File(e.hash.of.data, false))
            && (e.mode.Executable? && e.hash.of.Blob? ==> p in image && image[p] == File(e.hash.of.data, true))
            && (e.mode.Symlink? && e.hash.of.Blob? ==> p in image && image[p] == Link(e.hash.of.data))
            && (e.mode.Submodule? || e.mode.Other? ==> p !in image)
    decreases |path|
  {
    var p := dir + path;
    var step :| step in h.of.entries && StepLeads(step, path, e);
    var k :| 0 <= k < |h.of.entries| && h.of.entries[k] == step;
    OneEntryDecides(h.of.entries, dir, k, p);
    var below := dir + [step.name];
    if |path| == 1 {
      assert p == below;
      if e.mode.Dir? && p in ImageOf(e.hash, p) {
        ImageIsBelow(e.hash, p, p);
      }
    } else {
      SubtreesAreWellNamed(h, step);
      EntryIsWritten(step.hash, below, path[1..], e);
      assert p == below + path[1..] && p != below;
    }
  }

  // ---------------------------------------------------------------- what is reported

  /** A text file within the limits that contains the source path. */
  predicate Candidate(e: Entry, m: Mapping) {
    && (e.mode.Regular? || e.mode.Executable?) && e.hash.of.Blob?
    && |e.hash.of.data| <= 8_388_608 && 0 !in e.hash.of.data && Contains(e.hash.of.data, m.source)
  }

  ghost predicate Reports(h: Hash, path: Path, e: Entry, prefix: Bytes, m: Mapping, name: Bytes) {
    Leads(h, path, e) && Candidate(e, m) && name == prefix + LinkSafety.Slashed(path)
  }

  ghost predicate ReportedAt(step: Entry, path: Path, e: Entry, prefix: Bytes, m: Mapping, name: Bytes) {
    path != [] && StepLeads(step, path, e) && Candidate(e, m) && name == prefix + LinkSafety.Slashed(path)
  }

  /** Reported are exactly the paths that lead to candidates, with slashes between their names. */
  lemma {:induction false} ReportedExactly(h: Hash, prefix: Bytes, m: Mapping, name: Bytes)
    ensures name in ReportOf(h, prefix, m) <==> exists path, e :: Reports(h, path, e, prefix, m, name)
    decreases h, 1
  {
    if h.of.Tree? {
      EntriesReported(h.of.entries, prefix, m, name);
      if path, e :| Reports(h, path, e, prefix, m, name) {
        var step :| step in h.of.entries && StepLeads(step, path, e);
        assert ReportedAt(step, path, e, prefix, m, name);
      }
      if step, path, e :| step in h.of.entries && ReportedAt(step, path, e, prefix, m, name) {
        assert Reports(h, path, e, prefix, m, name);
      }
    }
  }

  lemma {:induction false} EntriesReported(es: seq<Entry>, prefix: Bytes, m: Mapping, name: Bytes)
    ensures name in ReportEntries(es, prefix, m) <==>
              exists step, path, e :: step in es && ReportedAt(step, path, e, prefix, m, name)
    decreases es, 0
  {
    if es != [] {
      EntryReported(es[0], prefix, m, name);
      EntriesReported(es[1..], prefix, m, name);
      assert es == [es[0]] + es[1..];
    }
  }

  lemma {:induction false} EntryReported(step: Entry, prefix: Bytes, m: Mapping, name: Bytes)
    ensures name in ReportEntry(step, prefix, m) <==> exists path, e :: ReportedAt(step, path, e, prefix, m, name)
    decreases step, 0
  {
    var below := prefix + step.name + [SLASH];
    if step.mode.Dir? {
      ReportedExactly(step.hash, below, m, name);
      if path, e :| ReportedAt(step, path, e, prefix, m, name) {
        SlashedBelow(prefix, step.name, path[1..]);
        assert path == [step.name] + path[1..];
        assert Reports(step.hash, path[1..], e, below, m, name);
      }
      if rest, e :| Reports(step.hash, rest, e, below, m, name) {
        SlashedBelow(prefix, step.name, rest);
        assert ([step.name] + rest)[1..] == rest;
        assert ReportedAt(step, [step.name] + rest, e, prefix, m, name);
      }
    } else if Candidate(step, m) && name == prefix + step.name {
      assert ReportedAt(step, [step.name], step, prefix, m, name);
    }
  }

  /** In the order of the entries. */
  lemma {:induction false} ReportedInOrder(a: seq<Entry>, b: seq<Entry>, prefix: Bytes, m: Mapping)
    ensures ReportEntries(a + b, prefix, m) == ReportEntries(a, prefix, m) + ReportEntries(b, prefix, m)
    decreases |a|
  {
    if a == [] {
      assert a + b == b;
    } else {
      assert (a + b)[1..] == a[1..] + b;
      ReportedInOrder(a[1..], b, prefix, m);
    }
  }

  lemma SlashedBelow(prefix: Bytes, name: Bytes, rest: Path)
    requires rest != []
    ensures prefix + LinkSafety.Slashed([name] + rest) == prefix + name + [SLASH] + LinkSafety.Slashed(rest)
  {
    assert ([name] + rest)[1..] == rest;
  }

  // ---------------------------------------------------------------- what is needed

  /** An object that belongs to the tree h: the tree itself, or what one of its entries refers to.
      What a submodule refers to does not belong to it. */
  ghost predicate Belongs(h: Hash, x: Hash) {
    x == h || exists path, e :: BelongsAt(h, path, e, x)
  }

  ghost predicate BelongsAt(h: Hash, path: Path, e: Entry, x: Hash) {
    Leads(h, path, e) && !e.mode.Submodule? && !e.mode.Other? && e.hash == x
  }

  ghost predicate EntryNeeds(step: Entry, x: Hash) {
    match step.mode
    case Dir => Belongs(step.hash, x)
    case Submodule => false
    case Other => false
    case _ => step.hash == x
  }

  lemma BelongsByEntry(h: Hash, x: Hash)
    requires h.of.Tree?
    ensures Belongs(h, x) <==> x == h || exists step :: step in h.of.entries && EntryNeeds(step, x)
  {
    if path, e :| BelongsAt(h, path, e, x) {
      var step :| step in h.of.entries && StepLeads(step, path, e);
      if |path| > 1 {
        assert BelongsAt(step.hash, path[1..], e, x);
      }
      assert EntryNeeds(step, x);
    }
    if step :| step in h.of.entries && EntryNeeds(step, x) {
      assert StepLeads(step, [step.name], step) && Leads(h, [step.name], step);
      if step.hash == x {
        assert BelongsAt(h, [step.name], step, x);
      } else {
        var path, e :| BelongsAt(step.hash, path, e, x);
        assert ([step.name] + path)[1..] == path;
        assert StepLeads(step, [step.name] + path, e);
        assert BelongsAt(h, [step.name] + path, e, x);
      }
    }
  }

  /** Written are exactly the objects that belong to the synthesized tree: none is missing, and
      none is written in vain. */
  lemma {:induction false} WrittenExactly(db: Database, h: Hash, m: Mapping, x: Hash)
    requires Complete(db, h)
    ensures x in Written(h, m) <==> Belongs(TreeOf(h, m), x)
    decreases h, 1
  {
    EntriesWritten(db, h.of.entries, m, x);
    BelongsByEntry(TreeOf(h, m), x);
  }

  lemma {:induction false} EntriesWritten(db: Database, es: seq<Entry>, m: Mapping, x: Hash)
    requires CompleteEntries(db, es)
    ensures x in WrittenBy(es, m) <==> exists step :: step in EntriesOf(es, m) && EntryNeeds(step, x)
    decreases es, 0
  {
    if es != [] {
      EntryWritten(db, es[0], m, x);
      EntriesWritten(db, es[1..], m, x);
    }
  }

  lemma {:induction false} EntryWritten(db: Database, e: Entry, m: Mapping, x: Hash)
    requires CompleteEntry(db, e)
    ensures x in WrittenFor(e, m) <==> EntryNeeds(EntryOf(e, m), x)
    decreases e, 0
  {
    if e.mode.Dir? {
      WrittenExactly(db, e.hash, m, x);
    }
  }
}
