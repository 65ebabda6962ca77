/** Where main stands after a run: every published tag moves it, so it follows the last one. */
module PublishMain {
  import opened Basics
  import opened GitObjects
  import opened TreeRewrite
  import opened Publish
  import opened PublishConvergence

  /** The tag is pushed, whatever becomes of the push. */
  predicate Pushes(refs: Refs, o: Options, tag: string, d: Draft, n: Network) {
    d.Draft? && !o.dryRun && StopAfter(CheckOf(refs, tag, d.tree, o.allowOverwrite, n), o.allowOverwrite).Missing?
  }

  /** The last tag of a run, from first on, whose push has moved main. */
  function LastMove(refs: Refs, o: Options, ds: seq<Draft>, ns: seq<Network>, first: nat): (last: Option<nat>)
    requires first <= |o.tags| == |ds| == |ns|
    ensures last.Some? ==> first <= last.value < |ds| && ds[last.value].Draft?
    decreases |o.tags| - first
  {
    if first == |o.tags| then None
    else
      var (outcome, refs') := PublishTag(refs, o, o.tags[first], ds[first], ns[first]);
      var later := if outcome.Failed? then None else LastMove(refs', o, ds, ns, first + 1);
      if later.Some? then later
      else if Pushes(refs, o, o.tags[first], ds[first], ns[first]) && ns[first].push.mainMoved then Some(first)
      else None
  }

  /** Main is the commit of that tag, or where it was. */
  lemma {:induction false} MainFollowsLastMove(refs: Refs, o: Options, ds: seq<Draft>, ns: seq<Network>, first: nat)
    requires first <= |o.tags| == |ds| == |ns|
    ensures var refs', last := PublishFrom(refs, o, ds, ns, first).refs, LastMove(refs, o, ds, ns, first);
            if last.Some? then Main in refs' && refs'[Main] == CommitFor(ds[last.value], o.tags[last.value], o.mapping)
            else (Main in refs' <==> Main in refs) && (Main in refs ==> refs'[Main] == refs[Main])
    decreases |o.tags| - first
  {
    if first < |o.tags| {
      var (outcome, refs') := PublishTag(refs, o, o.tags[first], ds[first], ns[first]);
      if outcome.Published? {
        MainFollowsLastMove(refs', o, ds, ns, first + 1);
      }
    }
  }

  /** A run leaves main where it was exactly if no push has moved it, or the last one to do so
      has moved it to the same commit. */
  lemma MainStaysExactlyWhen(refs: Refs, o: Options, ds: seq<Draft>, ns: seq<Network>)
    requires |o.tags| == |ds| == |ns| && Main in refs
    ensures var refs', last := PublishFrom(refs, o, ds, ns, 0).refs, LastMove(refs, o, ds, ns, 0);
            (Main in refs' && refs'[Main] == refs[Main]) <==>
              (last.Some? ==> CommitFor(ds[last.value], o.tags[last.value], o.mapping) == refs[Main])
  {
    MainFollowsLastMove(refs, o, ds, ns, 0);
  }

  /** Once every tag of a plan has been published, no run of it moves a tag any more, wherever
      it stops. */
  lemma {:induction false} PublishedTagsStay(refs: Refs, o: Options, plan: seq<Draft>, r: Run, first: nat, tag: string)
    requires IsPlan(o, plan) && Follows(r, plan) && Done(refs, o, plan) && first <= |plan|
    ensures var refs' := PublishFrom(refs, o, r.ds, r.ns, first).refs;
            (TagRef(tag) in refs' <==> TagRef(tag) in refs)
              && (TagRef(tag) in refs ==> refs'[TagRef(tag)] == refs[TagRef(tag)])
    decreases |plan| - first
  {
    if first < |plan| {
      var (outcome, refs') := PublishTag(refs, o, o.tags[first], r.ds[first], r.ns[first]);
      if outcome.Published? {
        assert Done(refs', o, plan);
        PublishedTagsStay(refs', o, plan, r, first + 1, tag);
      }
    }
  }

  /** But a rerun that is interrupted after its first tag does move main back to that tag, if
      main was the commit of another. */
  lemma InterruptedRerunMovesMain(refs: Refs, o: Options, plan: seq<Draft>, ns: seq<Network>)
    requires IsPlan(o, plan) && |plan| > 1 && Done(refs, o, plan) && |ns| == |plan| && Clear(ns[0])
    requires Main in refs && refs[Main] != CommitFor(plan[0], o.tags[0], o.mapping)
    ensures var ds := seq(|plan|, i requires 0 <= i < |plan| => if i == 0 then plan[0] else Rejected(SetupFailed));
            var b := PublishFrom(refs, o, ds, ns, 0);
            !b.ok && |b.reports| == 1 && b.refs == refs[Main := CommitFor(plan[0], o.tags[0], o.mapping)]
  {
    var ds := seq(|plan|, i requires 0 <= i < |plan| => if i == 0 then plan[0] else Rejected(SetupFailed));
    var (outcome, refs') := PublishTag(refs, o, o.tags[0], ds[0], ns[0]);
    assert outcome.Published? && refs' == refs[Main := CommitFor(plan[0], o.tags[0], o.mapping)];
    assert PublishFrom(refs', o, ds, ns, 1) == BatchResult(refs', [], false);
  }
}
