/** Published versions never change: what any number of publications can do to the tree under
    a tag of the mirror. */
module PublishSafety {
  import opened GitObjects
  import opened Publish

  /** The tree published under a tag. */
  function TreeAt(refs: Refs, tag: string): Result<Hash> {
    if TagRef(tag) !in refs then Missing
    else
      var c := CommitAt(refs[TagRef(tag)]);
      if c.Ok? then Ok(c.value.of.tree) else Missing
  }

  /** An error that says "empty" although there is something to be listed or fetched. */
  predicate FalselyEmpty(n: Network) {
    n.list == Error(true) || (n.list.Fine? && n.fetch == Error(true))
  }

  /** Exactly when a publication changes a published tree: it must push another tree to that
      very tag, and must have been allowed to overwrite or misled by a false "empty". */
  lemma TreeChangesExactlyWhen(refs: Refs, o: Options, tag: string, d: Draft, n: Network, published: string)
    requires TreeAt(refs, published).Ok?
    ensures TreeAt(PublishTag(refs, o, tag, d, n).1, published) != TreeAt(refs, published) <==>
              && tag == published && d.Draft? && !o.dryRun && n.push.tagMoved
              && Ok(d.tree) != TreeAt(refs, published)
              && (o.allowOverwrite || FalselyEmpty(n))
  {
  }

  /** The failing input: a mirror that has the tag, and a listing that fails with a text that
      contains "empty".  Without any permission to overwrite, another tree replaces the published
      one, and the call reports success. */
  lemma FalseEmptyOverwrites(refs: Refs, o: Options, tag: string, d: Draft)
    requires !o.allowOverwrite && !o.dryRun && d.Draft? && TreeAt(refs, tag).Ok? && TreeAt(refs, tag) != Ok(d.tree)
    ensures var n := Network(Error(true), Fine, PushResult(true, true, true));
            var (outcome, refs') := PublishTag(refs, o, tag, d, n);
            outcome.Published? && !outcome.report.overwrote && TreeAt(refs', tag) == Ok(d.tree) != TreeAt(refs, tag)
  {
  }

  /** One call of Publish: its options, what each tag yields, what each tag meets. */
  datatype Call = Call(o: Options, ds: seq<Draft>, ns: seq<Network>)

  predicate Guarded(c: Call) {
    && |c.o.tags| == |c.ds| == |c.ns|
    && !c.o.allowOverwrite
    && (forall n :: n in c.ns ==> !FalselyEmpty(n))
  }

  ghost predicate AllGuarded(calls: seq<Call>) {
    forall c :: c in calls ==> Guarded(c)
  }

  /** The references after a sequence of calls, each of which may fail anywhere, even between
      the two references of a push. */
  ghost function AfterCalls(refs: Refs, calls: seq<Call>): Refs
    requires AllGuarded(calls)
    decreases |calls|
  {
    if calls == [] then refs
    else
      var c := calls[0];
      assert c in calls;
      AfterCalls(if ValidOptions(c.o) then PublishFrom(refs, c.o, c.ds, c.ns, 0).refs else refs, calls[1..])
  }

  lemma {:induction false} BatchKeepsTree(refs: Refs, c: Call, first: nat, tag: string)
    requires Guarded(c) && first <= |c.o.tags| && TreeAt(refs, tag).Ok?
    ensures TreeAt(PublishFrom(refs, c.o, c.ds, c.ns, first).refs, tag) == TreeAt(refs, tag)
    decreases |c.o.tags| - first
  {
    if first < |c.o.tags| {
      assert c.ns[first] in c.ns;
      TreeChangesExactlyWhen(refs, c.o, c.o.tags[first], c.ds[first], c.ns[first], tag);
      var (outcome, refs') := PublishTag(refs, c.o, c.o.tags[first], c.ds[first], c.ns[first]);
      if outcome.Published? {
        BatchKeepsTree(refs', c, first + 1, tag);
      }
    }
  }

  /** Over any sequence of calls without AllowOverwrite, whatever the source repository holds
      at each of them, a published tree stays what it is. */
  lemma {:induction false} PublishedNeverChanges(refs: Refs, calls: seq<Call>, tag: string)
    requires AllGuarded(calls) && TreeAt(refs, tag).Ok?
    ensures TreeAt(AfterCalls(refs, calls), tag) == TreeAt(refs, tag)
    decreases |calls|
  {
    if calls != [] {
      var c := calls[0];
      assert c in calls;
      BatchKeepsTree(refs, c, 0, tag);
      var refs' := if ValidOptions(c.o) then PublishFrom(refs, c.o, c.ds, c.ns, 0).refs else refs;
      PublishedNeverChanges(refs', calls[1..], tag);
    }
  }

  /** What a success means: the tag leads to an orphan commit with the synthesized tree and the
      identities of the source, and main is that commit. */
  lemma PublishedIsThere(refs: Refs, o: Options, tag: string, d: Draft, n: Network)
    requires !o.dryRun && n.push.Honest() && PublishTag(refs, o, tag, d, n).0.Published?
    ensures d.Draft?
    ensures var (outcome, refs') := PublishTag(refs, o, tag, d, n);
            && TagRef(tag) in refs' && Main in refs'
            && CommitAt(refs'[TagRef(tag)]) == Ok(refs'[Main]) == CommitAt(refs'[Main]) == outcome.report.commit
            && TreeAt(refs', tag) == Ok(d.tree)
            && refs'[Main].of.parents == [] && refs'[Main].of.author == d.author
              && refs'[Main].of.committer == d.committer
  {
  }

  /** However a batch ends, only main and the tags it was asked for can have moved. */
  lemma {:induction false} OtherRefsStay(refs: Refs, o: Options, ds: seq<Draft>, ns: seq<Network>, first: nat, r: Ref)
    requires first <= |o.tags| == |ds| == |ns| && r != Main
    requires forall k :: first <= k < |o.tags| ==> r != TagRef(o.tags[k])
    ensures r in PublishFrom(refs, o, ds, ns, first).refs <==> r in refs
    ensures r in refs ==> PublishFrom(refs, o, ds, ns, first).refs[r] == refs[r]
    decreases |o.tags| - first
  {
    if first < |o.tags| {
      var (outcome, refs') := PublishTag(refs, o, o.tags[first], ds[first], ns[first]);
      assert (r in refs' <==> r in refs) && (r in refs ==> refs'[r] == refs[r]);
      if outcome.Published? {
        OtherRefsStay(refs', o, ds, ns, first + 1, r);
      }
    }
  }

  /** A preview pushes nothing. */
  lemma {:induction false} DryRunPushesNothing(refs: Refs, o: Options, ds: seq<Draft>, ns: seq<Network>, first: nat)
    requires first <= |o.tags| == |ds| == |ns| && o.dryRun
    ensures PublishFrom(refs, o, ds, ns, first).refs == refs
    decreases |o.tags| - first
  {
    if first < |o.tags| {
      DryRunPushesNothing(refs, o, ds, ns, first + 1);
    }
  }

  /** The report lists exactly the tags that have succeeded, which are a prefix of the tags
      asked for, and each report carries the tree its tag now has. */
  lemma {:induction false} ReportIsSucceededPrefix(refs: Refs, o: Options, ds: seq<Draft>, ns: seq<Network>, first: nat)
    requires first <= |o.tags| == |ds| == |ns|
    ensures var b := PublishFrom(refs, o, ds, ns, first);
            && |b.reports| <= |o.tags| - first
            && (b.ok <==> |b.reports| == |o.tags| - first)
            && (forall i :: 0 <= i < |b.reports| ==>
              b.reports[i].tag == o.tags[first + i] && ds[first + i].Draft?
              && b.reports[i].tree == ds[first + i].tree)
    decreases |o.tags| - first
  {
    if first < |o.tags| {
      var (outcome, refs') := PublishTag(refs, o, o.tags[first], ds[first], ns[first]);
      if outcome.Published? {
        ReportIsSucceededPrefix(refs', o, ds, ns, first + 1);
      }
    }
  }
}
