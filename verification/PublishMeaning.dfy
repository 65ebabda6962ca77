/** What one tag of a publication comes to, in terms of the canonical repository and of the
    mirror: when there is anything to push, when it is pushed, and what exactly then moves. */
module PublishMeaning {
  import opened ModulePath
  import opened GitObjects
  import opened TreeRewrite
  import opened Materialize
  import opened TreeMeaning
  import opened Publish
  import opened PublishSafety
  import Names

  // ---------------------------------------------------------------- when there is a draft

  /** A reference leads to the commit c, directly or through one annotated tag. */
  predicate LeadsTo(h: Hash, c: Object) {
    c.Commit? && (h == Digest(c) || (h.of.Tag? && h.of.target == Digest(c)))
  }

  /** The tag of the canonical repository leads to c, whose tree can be written to the build
      directory: every object is there and every link is safe. */
  predicate Publishable(l: Local, tag: string, c: Object) {
    && tag in l.canonical.tags && LeadsTo(l.canonical.tags[tag], c)
    && Accepted(l.canonical.db, c.tree, l.buildDir)
  }

  lemma LeadsToOneCommit(h: Hash, c: Object)
    ensures LeadsTo(h, c) <==> CommitAt(h) == Ok(Digest(c))
  {
  }

  lemma SynthesisIsAccepted(db: Database, h: Hash, dir: Path, m: Mapping)
    ensures Complete(db, h) && Accepted(Written(h, m), TreeOf(h, m), dir) <==> Accepted(db, h, dir)
  {
    AcceptedIsComplete(db, h, dir);
    if Complete(db, h) {
      WrittenIsComplete(db, h, m);
      AcceptedLikeSource(db, Written(h, m), h, dir, m);
    }
  }

  /** There is a draft if and only if the setup and the gate succeed, the canonical repository is
      that of the source path, and its tag leads to a commit that can be written. */
  lemma DraftExactlyWhen(l: Local, tag: string, m: Mapping)
    ensures DraftOf(l, tag, m).Draft? <==>
              l.setup && l.gate && l.canonical.modulePath == m.source && exists c :: Publishable(l, tag, c)
  {
    if tag in l.canonical.tags {
      var h := l.canonical.tags[tag];
      if CommitAt(h).Ok? {
        var c := CommitAt(h).value.of;
        assert LeadsTo(h, c);
        SynthesisIsAccepted(l.canonical.db, c.tree, l.buildDir, m);
        assert Accepted(l.canonical.db, c.tree, l.buildDir) ==> Publishable(l, tag, c);
      }
      forall c | Publishable(l, tag, c) ensures CommitAt(h) == Ok(Digest(c)) {
        LeadsToOneCommit(h, c);
      }
    }
  }

  /** It has the identities of that commit, and its files are those of the commit, rewritten. */
  lemma DraftIsOfCommit(l: Local, tag: string, m: Mapping, c: Object, dir: Path)
    requires DraftOf(l, tag, m).Draft? && Publishable(l, tag, c)
    ensures var d := DraftOf(l, tag, m);
            && d.author == c.author && d.committer == c.committer
            && SameShape(c.tree, d.tree)
            && ImageOf(d.tree, dir) == RewriteImage(ImageOf(c.tree, dir), m)
  {
    LeadsToOneCommit(l.canonical.tags[tag], c);
    KeepsShape(c.tree, m);
    ImageIsRewritten(c.tree, dir, m);
  }

  /** A gate that fails is the cause exactly if nothing else is. */
  lemma GateFailsExactlyWhen(l: Local, tag: string, m: Mapping)
    ensures DraftOf(l, tag, m) == Rejected(GateFailed) <==> !l.gate && DraftOf(l.(gate := true), tag, m).Draft?
  {
  }

  // ---------------------------------------------------------------- when it is pushed

  /** What is known of the tag in the mirror: whether the mirror lists anything, whether it lists
      the tag, and whether the tag's commit could be fetched. */
  predicate Lists(refs: Refs, n: Network) { n.list.Fine? && refs != map[] }

  predicate ListsTag(refs: Refs, tag: string, n: Network) { Lists(refs, n) && TagRef(tag) in refs }

  predicate Compares(refs: Refs, tag: string, n: Network) {
    ListsTag(refs, tag, n) && n.fetch.Fine? && CommitAt(refs[TagRef(tag)]).Ok?
  }

  /** The error, if there is one, has a text that contains "empty". */
  predicate SeemsEmpty(refs: Refs, tag: string, n: Network) {
    if n.list.Error? then n.list.saysEmpty
    else if refs == map[] then true
    else if n.fetch.Error? then n.fetch.saysEmpty
    else SaysEmpty(tag)
  }

  /** The mirror is known not to have the tag, or to have it with this tree, or seems to be empty. */
  predicate NothingToLose(refs: Refs, tag: string, tree: Hash, n: Network) {
    if Compares(refs, tag, n) then TreeAt(refs, tag) == Ok(tree)
    else if Lists(refs, n) && TagRef(tag) !in refs then true
    else SeemsEmpty(refs, tag, n)
  }

  /** A tag is published exactly if there is a draft, nothing is overwritten without permission,
      and the push succeeds unless it is only a preview. */
  lemma PublishedExactlyWhen(refs: Refs, o: Options, tag: string, d: Draft, n: Network)
    ensures PublishTag(refs, o, tag, d, n).0.Published? <==>
              && d.Draft?
              && (o.allowOverwrite || NothingToLose(refs, tag, d.tree, n))
              && (o.dryRun || n.push.ok)
  {
  }

  /** The report says what is so. */
  lemma ReportIsTrue(refs: Refs, o: Options, tag: string, d: Draft, n: Network)
    requires PublishTag(refs, o, tag, d, n).0.Published?
    ensures var r := PublishTag(refs, o, tag, d, n).0.report;
            && r.tag == tag && d.Draft? && r.tree == d.tree && r.replaced == d.replaced
            && r.existed == ListsTag(refs, tag, n)
            && r.matched == (Compares(refs, tag, n) && TreeAt(refs, tag) == Ok(d.tree))
            && r.overwrote == (Compares(refs, tag, n) && TreeAt(refs, tag) != Ok(d.tree))
            && r.commit == (if o.dryRun then Missing
                            else Ok(Digest(Commit(d.author, d.committer, d.tree, [],
                                                  MirrorOf(tag, o.mapping.source, o.mapping.target)))))
  {
  }

  /** And a failure names its cause: what stopped the draft, a mirror that could not be looked at, a
      published tree that differs, or the push. */
  lemma FailureIsTrue(refs: Refs, o: Options, tag: string, d: Draft, n: Network)
    ensures var outcome := PublishTag(refs, o, tag, d, n).0;
            && (d.Rejected? ==> outcome == Failed(d.cause))
            && (d.Draft? && !o.allowOverwrite && !NothingToLose(refs, tag, d.tree, n) ==>
                  outcome == Failed(if Compares(refs, tag, n) then Diverged else CheckFailed))
            && (d.Draft? && (o.allowOverwrite || NothingToLose(refs, tag, d.tree, n)) && !o.dryRun && !n.push.ok ==>
                  outcome == Failed(PushFailed))
  {
  }

  /** What moves: nothing unless the draft is pushed, and then the tag and main as far as the push
      gets, to objects made of the draft, the tag and the two paths alone. */
  lemma MovesExactly(refs: Refs, o: Options, tag: string, d: Draft, n: Network, r: Ref)
    ensures var refs' := PublishTag(refs, o, tag, d, n).1;
            var pushed := d.Draft? && !o.dryRun && (o.allowOverwrite || NothingToLose(refs, tag, d.tree, n));
            if pushed && (r == TagRef(tag) || r == Main) then
              var message := MirrorOf(tag, o.mapping.source, o.mapping.target);
              var commit := Digest(Commit(d.author, d.committer, d.tree, [], message));
              var moved := if r == Main then n.push.mainMoved else n.push.tagMoved;
              if moved then
                && r in refs'
                && refs'[r] == (if r == Main then commit else Digest(Tag(tag, d.committer, message, commit)))
              else (r in refs' <==> r in refs) && (r in refs ==> refs'[r] == refs[r])
            else (r in refs' <==> r in refs) && (r in refs ==> refs'[r] == refs[r])
  {
  }

  // ---------------------------------------------------------------- in a batch

  /** A call is carried out exactly if it names a directory and at least one tag, two different
      paths, and only valid names; without a remote it is that of github. */
  lemma CarriedOutExactlyWhen(o: Options)
    ensures ValidOptions(o) <==>
              && |o.repoDir| > 0 && |o.tags| > 0
              && |o.mapping.source| > 0 && |o.mapping.target| > 0 && o.mapping.source != o.mapping.target
              && (forall k :: 0 <= k < |o.tags| ==> Names.ValidName(o.tags[k]))
              && (o.remote != "" ==> Names.ValidName(o.remote))
  {
    GithubIsValid();
    if forall k :: 0 <= k < |o.tags| ==> Names.ValidName(o.tags[k]) {
      forall tag | tag in o.tags ensures Names.ValidName(tag) {
      }
    }
  }

  lemma GithubIsValid()
    ensures Names.ValidName("github")
  {
    var v := "github";
    forall i | 0 <= i <= 6 ensures !Names.StandsAt(v, i, "..") && !Names.StandsAt(v, i, "@{") {
      if i + 2 <= 6 {
        assert v[i..i + 2][0] == v[i] && v[i] != '.' && v[i] != '@';
      }
    }
  }

  /** So one bad name stops the whole call, whichever tag it is. */
  lemma OneBadNameStopsAll(o: Options, k: nat)
    requires k < |o.tags| && !Names.ValidName(o.tags[k])
    ensures !ValidOptions(o)
  {
    CarriedOutExactlyWhen(o);
  }

  /** Every tag in the report had passed every check on this side. */
  lemma ReportedTagsPassed(refs: Refs, o: Options, ls: seq<Local>, ns: seq<Network>, i: nat)
    requires |o.tags| == |ls| == |ns|
    requires i < |PublishFrom(refs, o, DraftsOf(ls, o.tags, o.mapping), ns, 0).reports|
    ensures i < |o.tags| && ls[i].setup && ls[i].gate && ls[i].canonical.modulePath == o.mapping.source
    ensures exists c :: Publishable(ls[i], o.tags[i], c)
  {
    var ds := DraftsOf(ls, o.tags, o.mapping);
    ReportIsSucceededPrefix(refs, o, ds, ns, 0);
    assert PublishFrom(refs, o, ds, ns, 0).reports[i].tag == o.tags[0 + i] && ds[0 + i].Draft?;
    DraftExactlyWhen(ls[i], o.tags[i], o.mapping);
  }

  /** A tag that some check on this side has stopped, wherever it stands in the batch, is not
      moved, and the batch does not succeed. */
  lemma {:induction false} StoppedTagStays(refs: Refs, o: Options, ds: seq<Draft>, ns: seq<Network>, first: nat,
      tag: string)
    requires first <= |o.tags| == |ds| == |ns|
    requires forall k :: first <= k < |o.tags| && o.tags[k] == tag ==> ds[k].Rejected?
    ensures var b := PublishFrom(refs, o, ds, ns, first);
            && (TagRef(tag) in b.refs <==> TagRef(tag) in refs)
            && (TagRef(tag) in refs ==> b.refs[TagRef(tag)] == refs[TagRef(tag)])
            && ((exists k :: first <= k < |o.tags| && o.tags[k] == tag) ==> !b.ok)
    decreases |o.tags| - first
  {
    if first < |o.tags| {
      MovesExactly(refs, o, o.tags[first], ds[first], ns[first], TagRef(tag));
      var (outcome, refs') := PublishTag(refs, o, o.tags[first], ds[first], ns[first]);
      if outcome.Published? {
        StoppedTagStays(refs', o, ds, ns, first + 1, tag);
      }
    }
  }

  /** So nothing is pushed for a tag whose gate fails. */
  lemma GateFailureMovesNothing(refs: Refs, o: Options, ls: seq<Local>, ns: seq<Network>, tag: string)
    requires |o.tags| == |ls| == |ns| && tag in o.tags
    requires forall k :: 0 <= k < |o.tags| && o.tags[k] == tag ==> !ls[k].gate
    ensures var b := PublishFrom(refs, o, DraftsOf(ls, o.tags, o.mapping), ns, 0);
            && !b.ok
            && (TagRef(tag) in b.refs <==> TagRef(tag) in refs)
            && (TagRef(tag) in refs ==> b.refs[TagRef(tag)] == refs[TagRef(tag)])
  {
    var ds := DraftsOf(ls, o.tags, o.mapping);
    forall k | 0 <= k < |o.tags| && o.tags[k] == tag ensures ds[k].Rejected? {
      DraftExactlyWhen(ls[k], tag, o.mapping);
    }
    StoppedTagStays(refs, o, ds, ns, 0, tag);
  }
}
