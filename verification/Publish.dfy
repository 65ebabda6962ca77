/** Publishing tags of a canonical repository to a mirror: synthesize, check the remote tag,
    force-push.  Whatever lies outside the program is a parameter of the call. */
module Publish {
  import opened ModulePath
  import opened GitObjects
  import opened TreeRewrite
  import opened Materialize
  import Names

  /** refs/tags/name, refs/heads/main, and the rest. */
  datatype Ref = TagRef(name: string) | Main | OtherRef(name: string)

  /** The references of the mirror. */
  type Refs = map<Ref, Hash>

  /** The canonical repository at one moment. */
  datatype Canonical = Canonical(modulePath: Bytes, tags: map<string, Hash>, db: Database)

  datatype Options = Options(repoDir: string, mapping: Mapping, tags: seq<string>, remote: string, allowOverwrite: bool,
      dryRun: bool)

  /** An answer, or an error and whether its text contains "empty". */
  datatype Answer = Fine | Error(saysEmpty: bool)

  /** Which of the two references a push has moved, and whether it reported success. */
  datatype PushResult = PushResult(tagMoved: bool, mainMoved: bool, ok: bool) {
    predicate Honest() { ok ==> tagMoved && mainMoved }
  }

  /** What one tag meets on this side: the canonical repository as it is then, whether it can
      be opened, the build directory, the verdict of the gate. */
  datatype Local = Local(canonical: Canonical, setup: bool, buildDir: Path, gate: bool)

  /** And on the network. */
  datatype Network = Network(list: Answer, fetch: Answer, push: PushResult)

  datatype TagReport = TagReport(tag: string, tree: Hash, commit: Result<Hash>, replaced: seq<Bytes>, existed: bool,
      matched: bool, overwrote: bool)

  datatype Cause =
    SetupFailed | WrongModule | NoSuchTag | MissingObject | GateFailed | CheckFailed | Diverged | PushFailed

  datatype Outcome = Published(report: TagReport) | Failed(cause: Cause)

  // ---------------------------------------------------------------- the draft

  /** What the canonical repository yields for a tag, before the mirror is looked at: the
      source commit and the synthesized tree. */
  datatype Draft =
    | Draft(author: Signature, committer: Signature, tree: Hash, replaced: seq<Bytes>)
    | Rejected(cause: Cause)

  function DraftOf(l: Local, tag: string, m: Mapping): Draft {
    if !l.setup then Rejected(SetupFailed)
    else if l.canonical.modulePath != m.source then Rejected(WrongModule)
    else if tag !in l.canonical.tags || CommitAt(l.canonical.tags[tag]).Missing? then Rejected(NoSuchTag)
    else
      var source := CommitAt(l.canonical.tags[tag]).value.of;
      if !Complete(l.canonical.db, source.tree) then Rejected(MissingObject)
      else if !Accepted(Written(source.tree, m), TreeOf(source.tree, m), l.buildDir) then Rejected(MissingObject)
      else if !l.gate then Rejected(GateFailed)
      else Draft(source.author, source.committer, TreeOf(source.tree, m), ReportOf(source.tree, [], m))
  }

  // ---------------------------------------------------------------- the remote tag

  datatype Verdict = Unknown | Matched | Mismatched

  datatype Check = Check(verdict: Verdict, existed: bool, overwrote: bool, answer: Answer)

  /** The error of a tag that leads to no commit names the tag, and so says "empty" if the
      tag does. */
  predicate SaysEmpty(tag: string) { Names.Contains(tag, "empty") }

  /** What is known about the tag of the mirror before anything is pushed.  Listing an empty
      repository is an error that says so. */
  function CheckOf(refs: Refs, tag: string, tree: Hash, allowOverwrite: bool, n: Network): Check {
    if n.list.Error? then Check(Unknown, false, false, n.list)
    else if refs == map[] then Check(Unknown, false, false, Error(true))
    else if TagRef(tag) !in refs then Check(Unknown, false, false, Fine)
    else if n.fetch.Error? then Check(Unknown, true, false, n.fetch)
    else
      var c := CommitAt(refs[TagRef(tag)]);
      if c.Missing? then Check(Unknown, true, false, Error(SaysEmpty(tag)))
      else if c.value.of.tree == tree then Check(Matched, true, false, Fine)
      else Check(Mismatched, true, allowOverwrite, Fine)
  }

  /** Why the publication ends after the check, if it does. */
  function StopAfter(check: Check, allowOverwrite: bool): Result<Cause> {
    if check.answer.Error? && !check.answer.saysEmpty && !allowOverwrite then Ok(CheckFailed)
    else if check.verdict.Mismatched? && !check.overwrote then Ok(Diverged)
    else Missing
  }

  // ---------------------------------------------------------------- what is pushed

  /** The orphan commit: identity and time of the source commit, no parents, and a message
      made of the tag and the two paths. */
  function CommitFor(d: Draft, tag: string, m: Mapping): Hash
    requires d.Draft?
  {
    Digest(Commit(d.author, d.committer, d.tree, [], MirrorOf(tag, m.source, m.target)))
  }

  function TagFor(d: Draft, tag: string, m: Mapping): Hash
    requires d.Draft?
  {
    Digest(Tag(tag, d.committer, MirrorOf(tag, m.source, m.target), CommitFor(d, tag, m)))
  }

  function Pushed(refs: Refs, tag: string, tagObject: Hash, commit: Hash, push: PushResult): Refs {
    var r := if push.tagMoved then refs[TagRef(tag) := tagObject] else refs;
    if push.mainMoved then r[Main := commit] else r
  }

  // ---------------------------------------------------------------- one tag

  function PublishTag(refs: Refs, o: Options, tag: string, d: Draft, n: Network): (Outcome, Refs) {
    if d.Rejected? then (Failed(d.cause), refs)
    else
      var check := CheckOf(refs, tag, d.tree, o.allowOverwrite, n);
      var stop := StopAfter(check, o.allowOverwrite);
      if stop.Ok? then (Failed(stop.value), refs)
      else
        var report := TagReport(tag, d.tree, Missing, d.replaced, check.existed, check.verdict.Matched?,
          check.overwrote);
        if o.dryRun then (Published(report), refs)
        else
          var commit := CommitFor(d, tag, o.mapping);
          var refs' := Pushed(refs, tag, TagFor(d, tag, o.mapping), commit, n.push);
          (if n.push.ok then Published(report.(commit := Ok(commit))) else Failed(PushFailed), refs')
  }

  // ---------------------------------------------------------------- a batch

  datatype BatchResult = BatchResult(refs: Refs, reports: seq<TagReport>, ok: bool)

  /** Tags first, first + 1, ... one after the other, up to the first failure. */
  function PublishFrom(refs: Refs, o: Options, ds: seq<Draft>, ns: seq<Network>, first: nat): BatchResult
    requires first <= |o.tags| == |ds| == |ns|
    decreases |o.tags| - first
  {
    if first == |o.tags| then BatchResult(refs, [], true)
    else
      var (outcome, refs') := PublishTag(refs, o, o.tags[first], ds[first], ns[first]);
      if outcome.Failed? then BatchResult(refs', [], false)
      else Behind([outcome.report], PublishFrom(refs', o, ds, ns, first + 1))
  }

  function Behind(reports: seq<TagReport>, b: BatchResult): BatchResult {
    b.(reports := reports + b.reports)
  }

  function DraftsOf(ls: seq<Local>, tags: seq<string>, m: Mapping): seq<Draft>
    requires |ls| == |tags|
  {
    seq(|tags|, i requires 0 <= i < |tags| => DraftOf(ls[i], tags[i], m))
  }

  predicate ValidOptions(o: Options) {
    && o.repoDir != "" && o.tags != []
    && o.mapping.source != [] && o.mapping.target != [] && o.mapping.source != o.mapping.target
    && (forall tag :: tag in o.tags ==> Names.ValidName(tag))
    && Names.ValidName(if o.remote == "" then "github" else o.remote)
  }

  // ---------------------------------------------------------------- how it is computed

  /** One line of a listing: a reference, or the target of the tag object it names. */
  datatype Advert = Plain(ref: Ref) | Peeled(ref: Ref)

  ghost predicate Advertises(advertised: seq<Advert>, refs: Refs) {
    && (forall r :: r in refs <==> Plain(r) in advertised)
    && (forall r :: Peeled(r) in advertised ==> r in refs)
  }

  class Mirror {
    var refs: Refs

    constructor (refs: Refs)
      ensures this.refs == refs
    {
      this.refs := refs;
    }

    method CheckRemoteTag(tag: string, tree: Hash, allowOverwrite: bool, n: Network, advertised: seq<Advert>)
        returns (c: Check)
      requires Advertises(advertised, refs)
      ensures c == CheckOf(refs, tag, tree, allowOverwrite, n)
    {
      if n.list.Error? {
        return Check(Unknown, false, false, n.list);
      }
      if refs == map[] {
        return Check(Unknown, false, false, Error(true));
      }
      var found, foundPeeled := false, false;
      for i := 0 to |advertised|
        invariant found <==> Plain(TagRef(tag)) in advertised[..i]
        invariant foundPeeled <==> Peeled(TagRef(tag)) in advertised[..i]
      {
        match advertised[i]
        case Plain(ref) => if ref == TagRef(tag) { found := true; }
        case Peeled(ref) => if ref == TagRef(tag) { foundPeeled := true; }
      }
      if !found && !foundPeeled {
        return Check(Unknown, false, false, Fine);
      }
      if n.fetch.Error? {
        return Check(Unknown, true, false, n.fetch);
      }
      var commit := CommitAt(refs[TagRef(tag)]);
      if commit.Missing? {
        return Check(Unknown, true, false, Error(SaysEmpty(tag)));
      }
      if commit.value.of.tree == tree {
        return Check(Matched, true, false, Fine);
      }
      return Check(Mismatched, true, allowOverwrite, Fine);
    }

    /** Everything that happens before the mirror is looked at. */
    method Prepare(o: Options, tag: string, l: Local) returns (d: Draft)
      ensures d == DraftOf(l, tag, o.mapping)
    {
      if !l.setup {
        return Rejected(SetupFailed);
      }
      if l.canonical.modulePath != o.mapping.source {
        return Rejected(WrongModule);
      }
      if tag !in l.canonical.tags || CommitAt(l.canonical.tags[tag]).Missing? {
        return Rejected(NoSuchTag);
      }
      var source := CommitAt(l.canonical.tags[tag]).value.of;
      var storer := new Storer();
      var builder := new Builder(l.canonical.db, storer, o.mapping);
      var tree := builder.RewriteTree(source.tree, []);
      if tree.Missing? {
        return Rejected(MissingObject);
      }
      assert storer.objects == Written(source.tree, o.mapping);
      var disk := new Disk();
      var written := disk.MaterializeTree(storer.objects, tree.value, l.buildDir);
      if !written {
        return Rejected(MissingObject);
      }
      if !l.gate {
        return Rejected(GateFailed);
      }
      return Draft(source.author, source.committer, tree.value, builder.replaced);
    }

    method PublishDraft(o: Options, tag: string, d: Draft, n: Network, advertised: seq<Advert>) returns (r: Outcome)
      requires Advertises(advertised, refs)
      modifies this
      ensures (r, refs) == PublishTag(old(refs), o, tag, d, n)
    {
      if d.Rejected? {
        return Failed(d.cause);
      }
      var check := CheckRemoteTag(tag, d.tree, o.allowOverwrite, n, advertised);
      var stop := StopAfter(check, o.allowOverwrite);
      if stop.Ok? {
        return Failed(stop.value);
      }
      var report := TagReport(tag, d.tree, Missing, d.replaced, check.existed, check.verdict.Matched?, check.overwrote);
      if o.dryRun {
        return Published(report);
      }
      var commit := CommitFor(d, tag, o.mapping);
      refs := Pushed(refs, tag, TagFor(d, tag, o.mapping), commit, n.push);
      return if n.push.ok then Published(report.(commit := Ok(commit))) else Failed(PushFailed);
    }

    /** One tag after the other, up to the first failure. */
    method Publish(o: Options, ls: seq<Local>, ns: seq<Network>, listings: seq<seq<Advert>>)
        returns (reports: seq<TagReport>, ok: bool)
      requires |ls| == |ns| == |o.tags| == |listings|
      requires ListingsAreRight(refs, o, DraftsOf(ls, o.tags, o.mapping), ns, listings, 0)
      modifies this
      ensures BatchResult(refs, reports, ok) ==
                if ValidOptions(o) then PublishFrom(old(refs), o, DraftsOf(ls, o.tags, o.mapping), ns, 0)
                else BatchResult(old(refs), [], false)
    {
      reports := [];
      if !ValidOptions(o) {
        return reports, false;
      }
      ghost var ds := DraftsOf(ls, o.tags, o.mapping);
      for i := 0 to |o.tags|
        invariant ListingsAreRight(refs, o, ds, ns, listings, i)
        invariant PublishFrom(old(refs), o, ds, ns, 0) == Behind(reports, PublishFrom(refs, o, ds, ns, i))
      {
        var d := Prepare(o, o.tags[i], ls[i]);
        ghost var before, done := refs, reports;
        var r := PublishDraft(o, o.tags[i], d, ns[i], listings[i]);
        PublishFromUnrolls(before, o, ds, ns, i, r, refs, done);
        if r.Failed? {
          return reports, false;
        }
        reports := reports + [r.report];
      }
      return reports, true;
    }
  }

  lemma PublishFromUnrolls(refs: Refs, o: Options, ds: seq<Draft>, ns: seq<Network>, i: nat, r: Outcome, refs': Refs,
      reports: seq<TagReport>)
    requires i < |o.tags| == |ds| == |ns| && (r, refs') == PublishTag(refs, o, o.tags[i], ds[i], ns[i])
    ensures Behind(reports, PublishFrom(refs, o, ds, ns, i)) ==
              if r.Failed? then BatchResult(refs', reports, false)
              else Behind(reports + [r.report], PublishFrom(refs', o, ds, ns, i + 1))
  {
    if !r.Failed? {
      var rest := PublishFrom(refs', o, ds, ns, i + 1);
      assert reports + ([r.report] + rest.reports) == (reports + [r.report]) + rest.reports;
    }
  }

  /** Each listing shows the references as they are when it is asked for. */
  ghost predicate ListingsAreRight(refs: Refs, o: Options, ds: seq<Draft>, ns: seq<Network>, listings: seq<seq<Advert>>,
      first: nat)
    requires first <= |o.tags| == |ds| == |ns| == |listings|
    decreases |o.tags| - first
  {
    first < |o.tags| ==>
      && Advertises(listings[first], refs)
      && ListingsAreRight(PublishTag(refs, o, o.tags[first], ds[first], ns[first]).1, o, ds, ns, listings, first + 1)
  }
}
