/** Rerunning an interrupted batch: with the canonical repository unchanged, the mirror ends
    up as if nothing had gone wrong. */
module PublishConvergence {
  import opened GitObjects
  import opened TreeRewrite
  import opened Publish

  /** With the same canonical repository a tag yields the same draft, if it yields one. */
  lemma DraftsAgree(a: Local, b: Local, tag: string, m: Mapping)
    requires a.canonical == b.canonical
    ensures DraftOf(a, tag, m).Rejected? || DraftOf(b, tag, m).Rejected? || DraftOf(a, tag, m) == DraftOf(b, tag, m)
  {
  }

  /** A batch to be published: one draft per tag, the same for the same tag. */
  ghost predicate IsPlan(o: Options, plan: seq<Draft>) {
    && !o.dryRun && |o.tags| == |plan| && plan != []
    && (forall k :: 0 <= k < |plan| ==> plan[k].Draft?)
    && (forall j, k :: 0 <= j < |plan| && 0 <= k < |plan| && o.tags[j] == o.tags[k] ==> plan[j] == plan[k])
  }

  /** One run of the batch: some tags may yield nothing this time, any call may fail, and a
      push may move only one of its references. */
  datatype Run = Run(ds: seq<Draft>, ns: seq<Network>)

  ghost predicate Follows(r: Run, plan: seq<Draft>) {
    && |r.ds| == |r.ns| == |plan|
    && (forall k :: 0 <= k < |plan| ==> r.ds[k] == plan[k] || r.ds[k].Rejected?)
    && (forall n :: n in r.ns ==> n.push.Honest())
  }

  ghost predicate AllFollow(runs: seq<Run>, plan: seq<Draft>) {
    forall r :: r in runs ==> Follows(r, plan)
  }

  // ---------------------------------------------------------------- where a success ends

  /** The references after every tag from first on has been pushed. */
  function Complete(refs: Refs, o: Options, plan: seq<Draft>, first: nat): Refs
    requires first <= |o.tags| == |plan| && forall k :: 0 <= k < |plan| ==> plan[k].Draft?
    decreases |plan| - first
  {
    if first == |plan| then refs
    else Complete(refs + Own(o, plan, first), o, plan, first + 1)
  }

  lemma {:induction false} SuccessIsComplete(refs: Refs, o: Options, plan: seq<Draft>, r: Run, first: nat)
    requires IsPlan(o, plan) && Follows(r, plan) && first <= |plan|
    requires PublishFrom(refs, o, r.ds, r.ns, first).ok
    ensures PublishFrom(refs, o, r.ds, r.ns, first).refs == Complete(refs, o, plan, first)
    decreases |plan| - first
  {
    if first < |plan| {
      assert r.ns[first] in r.ns;
      var (outcome, refs') := PublishTag(refs, o, o.tags[first], r.ds[first], r.ns[first]);
      assert refs' == refs + Own(o, plan, first);
      SuccessIsComplete(refs', o, plan, r, first + 1);
    }
  }

  /** Pushing both references of draft k. */
  function Own(o: Options, plan: seq<Draft>, k: nat): Refs
    requires k < |o.tags| == |plan| && plan[k].Draft?
  {
    map[TagRef(o.tags[k]) := TagFor(plan[k], o.tags[k], o.mapping), Main := CommitFor(plan[k], o.tags[k], o.mapping)]
  }

  lemma OverlaysAssociate(a: Refs, b: Refs, c: Refs)
    ensures (a + b) + c == a + (b + c)
  {
  }

  lemma {:induction false} CompleteAddsItsOwn(refs: Refs, o: Options, plan: seq<Draft>, first: nat)
    requires IsPlan(o, plan) && first <= |plan|
    ensures Complete(refs, o, plan, first) == refs + Complete(map[], o, plan, first)
    decreases |plan| - first
  {
    if first < |plan| {
      var own := Own(o, plan, first);
      CompleteAddsItsOwn(refs + own, o, plan, first + 1);
      CompleteAddsItsOwn(map[] + own, o, plan, first + 1);
      assert map[] + own == own;
      OverlaysAssociate(refs, own, Complete(map[], o, plan, first + 1));
    }
  }

  lemma {:induction false} CompleteCovers(o: Options, plan: seq<Draft>, first: nat, k: nat)
    requires IsPlan(o, plan) && first <= k < |plan|
    ensures TagRef(o.tags[k]) in Complete(map[], o, plan, first) && Main in Complete(map[], o, plan, first)
    decreases |plan| - first
  {
    CompleteAddsItsOwn(map[] + Own(o, plan, first), o, plan, first + 1);
    if first < k {
      CompleteCovers(o, plan, first + 1, k);
    }
  }

  // ---------------------------------------------------------------- where a failure ends

  predicate Planned(o: Options, plan: seq<Draft>, r: Ref, h: Hash)
    requires |o.tags| == |plan| && forall k :: 0 <= k < |plan| ==> plan[k].Draft?
  {
    exists k :: 0 <= k < |plan| &&
      ((r == TagRef(o.tags[k]) && h == TagFor(plan[k], o.tags[k], o.mapping))
        || (r == Main && h == CommitFor(plan[k], o.tags[k], o.mapping)))
  }

  /** refs differs from start only in references that the batch itself has moved. */
  ghost predicate Between(start: Refs, refs: Refs, o: Options, plan: seq<Draft>)
    requires |o.tags| == |plan| && forall k :: 0 <= k < |plan| ==> plan[k].Draft?
  {
    && start.Keys <= refs.Keys
    && (forall r :: r in refs ==> (r in start && refs[r] == start[r]) || Planned(o, plan, r, refs[r]))
  }

  lemma TagStaysBetween(start: Refs, refs: Refs, o: Options, plan: seq<Draft>, k: nat, n: Network)
    requires IsPlan(o, plan) && k < |plan| && Between(start, refs, o, plan)
    ensures Between(start, PublishTag(refs, o, o.tags[k], plan[k], n).1, o, plan)
  {
    var refs' := PublishTag(refs, o, o.tags[k], plan[k], n).1;
    forall r | r in refs' ensures (r in start && refs'[r] == start[r]) || Planned(o, plan, r, refs'[r]) {
      assert Planned(o, plan, TagRef(o.tags[k]), TagFor(plan[k], o.tags[k], o.mapping));
      assert Planned(o, plan, Main, CommitFor(plan[k], o.tags[k], o.mapping));
    }
  }

  lemma {:induction false} RunStaysBetween(start: Refs, refs: Refs, o: Options, plan: seq<Draft>, r: Run, first: nat)
    requires IsPlan(o, plan) && Follows(r, plan) && first <= |plan| && Between(start, refs, o, plan)
    ensures Between(start, PublishFrom(refs, o, r.ds, r.ns, first).refs, o, plan)
    decreases |plan| - first
  {
    if first < |plan| && r.ds[first].Draft? {
      TagStaysBetween(start, refs, o, plan, first, r.ns[first]);
      var (outcome, refs') := PublishTag(refs, o, o.tags[first], r.ds[first], r.ns[first]);
      if outcome.Published? {
        RunStaysBetween(start, refs', o, plan, r, first + 1);
      }
    }
  }

  /** The references after a sequence of runs. */
  ghost function AfterRuns(refs: Refs, o: Options, plan: seq<Draft>, runs: seq<Run>): Refs
    requires |o.tags| == |plan| && AllFollow(runs, plan)
  {
    if runs == [] then refs
    else
      var r := runs[|runs| - 1];
      assert r in runs;
      PublishFrom(AfterRuns(refs, o, plan, runs[..|runs| - 1]), o, r.ds, r.ns, 0).refs
  }

  lemma {:induction false} RunsStayBetween(refs: Refs, o: Options, plan: seq<Draft>, runs: seq<Run>)
    requires IsPlan(o, plan) && AllFollow(runs, plan)
    ensures Between(refs, AfterRuns(refs, o, plan, runs), o, plan)
  {
    if runs != [] {
      assert runs[|runs| - 1] in runs;
      RunsStayBetween(refs, o, plan, runs[..|runs| - 1]);
      RunStaysBetween(refs, AfterRuns(refs, o, plan, runs[..|runs| - 1]), o, plan, runs[|runs| - 1], 0);
    }
  }

  lemma CompletionForgets(start: Refs, refs: Refs, o: Options, plan: seq<Draft>)
    requires IsPlan(o, plan) && Between(start, refs, o, plan)
    ensures Complete(refs, o, plan, 0) == Complete(start, o, plan, 0)
  {
    var own := Complete(map[], o, plan, 0);
    CompleteAddsItsOwn(refs, o, plan, 0);
    CompleteAddsItsOwn(start, o, plan, 0);
    forall r | r in refs && !(r in start && refs[r] == start[r]) ensures r in own {
      var k :| 0 <= k < |plan| && (r == TagRef(o.tags[k]) || r == Main);
      CompleteCovers(o, plan, 0, k);
    }
    assert refs + own == start + own;
  }

  /** However often and wherever a batch is interrupted, once a rerun succeeds the mirror has
      the references that one uninterrupted run would have left. */
  lemma RerunConverges(refs: Refs, o: Options, plan: seq<Draft>, runs: seq<Run>, last: Run, once: Run)
    requires IsPlan(o, plan) && AllFollow(runs, plan) && Follows(last, plan) && Follows(once, plan)
    requires PublishFrom(AfterRuns(refs, o, plan, runs), o, last.ds, last.ns, 0).ok
    requires PublishFrom(refs, o, once.ds, once.ns, 0).ok
    ensures PublishFrom(AfterRuns(refs, o, plan, runs), o, last.ds, last.ns, 0).refs
      == PublishFrom(refs, o, once.ds, once.ns, 0).refs
  {
    RunsStayBetween(refs, o, plan, runs);
    SuccessIsComplete(AfterRuns(refs, o, plan, runs), o, plan, last, 0);
    SuccessIsComplete(refs, o, plan, once, 0);
    CompletionForgets(refs, AfterRuns(refs, o, plan, runs), o, plan);
  }

  // ---------------------------------------------------------------- reruns do succeed

  predicate Clear(n: Network) { n.list.Fine? && n.fetch.Fine? && n.push == PushResult(true, true, true) }

  /** The mirror has something else under the tag of draft k, and may not be overwritten.  A
      tag that leads to no commit blocks as well, unless its very name says "empty". */
  predicate Blocked(refs: Refs, o: Options, plan: seq<Draft>, k: nat)
    requires k < |o.tags| == |plan| && plan[k].Draft?
  {
    && !o.allowOverwrite && TagRef(o.tags[k]) in refs
    && var c := CommitAt(refs[TagRef(o.tags[k])]);
       if c.Missing? then !SaysEmpty(o.tags[k]) else c.value.of.tree != plan[k].tree
  }

  /** On a clear network a run of the whole plan succeeds exactly when no tag is blocked. */
  lemma {:induction false} ClearRunSucceeds(refs: Refs, o: Options, plan: seq<Draft>, ns: seq<Network>, first: nat)
    requires IsPlan(o, plan) && first <= |plan| == |ns| && forall n :: n in ns ==> Clear(n)
    ensures PublishFrom(refs, o, plan, ns, first).ok <==> forall k :: first <= k < |plan| ==> !Blocked(refs, o, plan, k)
    decreases |plan| - first
  {
    if first < |plan| {
      assert ns[first] in ns;
      var (outcome, refs') := PublishTag(refs, o, o.tags[first], plan[first], ns[first]);
      assert outcome.Published? <==> !Blocked(refs, o, plan, first);
      if outcome.Published? {
        ClearRunSucceeds(refs', o, plan, ns, first + 1);
        forall k | first < k < |plan| ensures Blocked(refs', o, plan, k) <==> Blocked(refs, o, plan, k) {
          if o.tags[k] == o.tags[first] {
            assert plan[k] == plan[first];
          }
        }
      }
    }
  }

  /** An interruption never blocks the rerun: what a clear run could publish before, it can
      publish after any number of interrupted runs. */
  lemma {:induction false} InterruptionNeverBlocks(refs: Refs, o: Options, plan: seq<Draft>, runs: seq<Run>,
      ns: seq<Network>)
    requires IsPlan(o, plan) && AllFollow(runs, plan)
    requires |ns| == |plan| && forall n :: n in ns ==> Clear(n)
    requires PublishFrom(refs, o, plan, ns, 0).ok
    ensures PublishFrom(AfterRuns(refs, o, plan, runs), o, plan, ns, 0).ok
  {
    RunsStayBetween(refs, o, plan, runs);
    var refs' := AfterRuns(refs, o, plan, runs);
    ClearRunSucceeds(refs, o, plan, ns, 0);
    ClearRunSucceeds(refs', o, plan, ns, 0);
    forall k: nat | k < |plan| ensures !Blocked(refs', o, plan, k) {
      var r := TagRef(o.tags[k]);
      assert !Blocked(refs, o, plan, k);
      if r in refs' && !(r in refs && refs'[r] == refs[r]) {
        var j :| 0 <= j < |plan| && r == TagRef(o.tags[j]) && refs'[r] == TagFor(plan[j], o.tags[j], o.mapping);
        assert plan[j] == plan[k];
      }
    }
  }

  // ---------------------------------------------------------------- the second full run

  ghost predicate Done(refs: Refs, o: Options, plan: seq<Draft>)
    requires IsPlan(o, plan)
  {
    forall k :: 0 <= k < |plan| ==>
      TagRef(o.tags[k]) in refs && refs[TagRef(o.tags[k])] == TagFor(plan[k], o.tags[k], o.mapping)
  }

  lemma {:induction false} CompleteIsDone(refs: Refs, o: Options, plan: seq<Draft>, first: nat)
    requires IsPlan(o, plan) && first <= |plan|
    requires forall k :: 0 <= k < first ==>
      TagRef(o.tags[k]) in refs && refs[TagRef(o.tags[k])] == TagFor(plan[k], o.tags[k], o.mapping)
    ensures Done(Complete(refs, o, plan, first), o, plan)
    decreases |plan| - first
  {
    if first < |plan| {
      CompleteIsDone(refs + Own(o, plan, first), o, plan, first + 1);
    }
  }

  lemma {:induction false} DoneRunMatches(refs: Refs, o: Options, plan: seq<Draft>, ns: seq<Network>, first: nat)
    requires IsPlan(o, plan) && first <= |plan| == |ns| && (forall n :: n in ns ==> Clear(n)) && Done(refs, o, plan)
    ensures var b := PublishFrom(refs, o, plan, ns, first);
            b.ok && |b.reports| == |plan| - first && forall r :: r in b.reports ==>
              r.existed && r.matched && !r.overwrote
    decreases |plan| - first
  {
    if first < |plan| {
      assert ns[first] in ns;
      var (outcome, refs') := PublishTag(refs, o, o.tags[first], plan[first], ns[first]);
      assert outcome.Published? && refs' == refs[Main := CommitFor(plan[first], o.tags[first], o.mapping)];
      DoneRunMatches(refs', o, plan, ns, first + 1);
    }
  }

  /** After a successful run, a second one on a clear network finds every tag as published,
      succeeds, and leaves every reference where it was. */
  lemma SecondRunChangesNothing(refs: Refs, o: Options, plan: seq<Draft>, r: Run, ns: seq<Network>)
    requires IsPlan(o, plan) && Follows(r, plan) && PublishFrom(refs, o, r.ds, r.ns, 0).ok
    requires |ns| == |plan| && forall n :: n in ns ==> Clear(n)
    ensures var refs' := PublishFrom(refs, o, r.ds, r.ns, 0).refs;
            var b := PublishFrom(refs', o, plan, ns, 0);
            b.ok && b.refs == refs' && |b.reports| == |plan| && forall r :: r in b.reports ==>
              r.existed && r.matched && !r.overwrote
  {
    var refs' := PublishFrom(refs, o, r.ds, r.ns, 0).refs;
    SuccessIsComplete(refs, o, plan, r, 0);
    CompleteIsDone(refs, o, plan, 0);
    DoneRunMatches(refs', o, plan, ns, 0);
    SuccessIsComplete(refs', o, plan, Run(plan, ns), 0);
    RunStaysBetween(refs, refs, o, plan, r, 0);
    CompletionForgets(refs, refs', o, plan);
  }

  // ---------------------------------------------------------------- from an unchanged repository

  /** One call of Publish: what each tag meets on this side and on the network. */
  datatype Attempt = Attempt(ls: seq<Local>, ns: seq<Network>)

  /** The canonical repository is the same for every tag; all else may differ from tag to tag. */
  ghost predicate OfSource(b: Attempt, o: Options, source: Canonical) {
    && |b.ls| == |b.ns| == |o.tags|
    && (forall l :: l in b.ls ==> l.canonical == source)
    && (forall n :: n in b.ns ==> n.push.Honest())
  }

  ghost predicate AllOfSource(bs: seq<Attempt>, o: Options, source: Canonical) {
    forall b :: b in bs ==> OfSource(b, o, source)
  }

  function DraftsIn(b: Attempt, o: Options): seq<Draft>
    requires |b.ls| == |o.tags|
  {
    DraftsOf(b.ls, o.tags, o.mapping)
  }

  function Attempted(refs: Refs, b: Attempt, o: Options): BatchResult
    requires |b.ls| == |b.ns| == |o.tags|
  {
    PublishFrom(refs, o, DraftsIn(b, o), b.ns, 0)
  }

  /** The references after a sequence of attempts, each of which may fail anywhere. */
  ghost function AfterAttempts(refs: Refs, o: Options, source: Canonical, bs: seq<Attempt>): Refs
    requires AllOfSource(bs, o, source)
  {
    if bs == [] then refs
    else
      var b := bs[|bs| - 1];
      assert b in bs;
      Attempted(AfterAttempts(refs, o, source, bs[..|bs| - 1]), b, o).refs
  }

  lemma {:induction false} SuccessHasDrafts(refs: Refs, o: Options, ds: seq<Draft>, ns: seq<Network>, first: nat)
    requires first <= |o.tags| == |ds| == |ns| && PublishFrom(refs, o, ds, ns, first).ok
    ensures forall k :: first <= k < |ds| ==> ds[k].Draft?
    decreases |ds| - first
  {
    if first < |ds| {
      SuccessHasDrafts(PublishTag(refs, o, o.tags[first], ds[first], ns[first]).1, o, ds, ns, first + 1);
    }
  }

  /** The drafts of one attempt are a plan for every attempt on the same repository. */
  lemma DraftsArePlan(o: Options, source: Canonical, b: Attempt)
    requires OfSource(b, o, source) && o.tags != [] && !o.dryRun
    requires forall k :: 0 <= k < |o.tags| ==> DraftsIn(b, o)[k].Draft?
    ensures IsPlan(o, DraftsIn(b, o))
  {
    var plan := DraftsIn(b, o);
    forall j, k | 0 <= j < |plan| && 0 <= k < |plan| && o.tags[j] == o.tags[k] ensures plan[j] == plan[k] {
      DraftsAgree(b.ls[j], b.ls[k], o.tags[k], o.mapping);
    }
  }

  lemma SameSourceFollows(o: Options, source: Canonical, a: Attempt, b: Attempt)
    requires OfSource(a, o, source) && OfSource(b, o, source)
    requires forall k :: 0 <= k < |o.tags| ==> DraftsIn(b, o)[k].Draft?
    ensures Follows(Run(DraftsIn(a, o), a.ns), DraftsIn(b, o))
  {
    forall k | 0 <= k < |o.tags| ensures DraftsIn(a, o)[k] == DraftsIn(b, o)[k] || DraftsIn(a, o)[k].Rejected? {
      DraftsAgree(a.ls[k], b.ls[k], o.tags[k], o.mapping);
    }
  }

  ghost function RunsOf(bs: seq<Attempt>, o: Options, source: Canonical): (runs: seq<Run>)
    requires AllOfSource(bs, o, source)
    ensures |runs| == |bs|
  {
    if bs == [] then []
    else
      var b := bs[|bs| - 1];
      assert b in bs;
      RunsOf(bs[..|bs| - 1], o, source) + [Run(DraftsIn(b, o), b.ns)]
  }

  lemma {:induction false} AttemptsFollow(o: Options, source: Canonical, bs: seq<Attempt>, b: Attempt)
    requires AllOfSource(bs, o, source) && OfSource(b, o, source)
    requires forall k :: 0 <= k < |o.tags| ==> DraftsIn(b, o)[k].Draft?
    ensures AllFollow(RunsOf(bs, o, source), DraftsIn(b, o))
  {
    if bs != [] {
      assert bs[|bs| - 1] in bs;
      AttemptsFollow(o, source, bs[..|bs| - 1], b);
      SameSourceFollows(o, source, bs[|bs| - 1], b);
    }
  }

  lemma {:induction false} AttemptsAreRuns(refs: Refs, o: Options, source: Canonical, bs: seq<Attempt>,
      plan: seq<Draft>)
    requires AllOfSource(bs, o, source) && |o.tags| == |plan| && AllFollow(RunsOf(bs, o, source), plan)
    ensures AfterAttempts(refs, o, source, bs) == AfterRuns(refs, o, plan, RunsOf(bs, o, source))
  {
    if bs != [] {
      var front := bs[..|bs| - 1];
      var runs := RunsOf(front, o, source);
      assert RunsOf(bs, o, source)[..|bs| - 1] == runs && forall r :: r in runs ==> r in RunsOf(bs, o, source);
      AttemptsAreRuns(refs, o, source, front, plan);
    }
  }

  /** With an unchanged canonical repository: whatever has happened to earlier attempts, once
      one succeeds the mirror has the references that one uninterrupted call would have left. */
  lemma RerunOfSameSourceConverges(refs: Refs, o: Options, source: Canonical, bs: seq<Attempt>, last: Attempt,
      once: Attempt)
    requires o.tags != [] && !o.dryRun
    requires AllOfSource(bs, o, source) && OfSource(last, o, source) && OfSource(once, o, source)
    requires Attempted(AfterAttempts(refs, o, source, bs), last, o).ok && Attempted(refs, once, o).ok
    ensures Attempted(AfterAttempts(refs, o, source, bs), last, o).refs == Attempted(refs, once, o).refs
  {
    var plan := DraftsIn(last, o);
    SuccessHasDrafts(AfterAttempts(refs, o, source, bs), o, plan, last.ns, 0);
    DraftsArePlan(o, source, last);
    AttemptsFollow(o, source, bs, last);
    AttemptsAreRuns(refs, o, source, bs, plan);
    SameSourceFollows(o, source, last, last);
    SameSourceFollows(o, source, once, last);
    RerunConverges(refs, o, plan, RunsOf(bs, o, source), Run(plan, last.ns), Run(DraftsIn(once, o), once.ns));
  }

  /** And a further full call on a clear network finds every tag as published and changes nothing. */
  lemma SecondCallChangesNothing(refs: Refs, o: Options, source: Canonical, b: Attempt, again: Attempt)
    requires o.tags != [] && !o.dryRun && OfSource(b, o, source) && OfSource(again, o, source)
    requires Attempted(refs, b, o).ok
    requires (forall k :: 0 <= k < |o.tags| ==> DraftsIn(again, o)[k].Draft?)
      && (forall n :: n in again.ns ==> Clear(n))
    ensures var refs' := Attempted(refs, b, o).refs;
            var second := Attempted(refs', again, o);
            && second.ok && second.refs == refs' && |second.reports| == |o.tags|
            && forall r :: r in second.reports ==> r.existed && r.matched && !r.overwrote
  {
    DraftsArePlan(o, source, again);
    SameSourceFollows(o, source, b, again);
    SecondRunChangesNothing(refs, o, DraftsIn(again, o), Run(DraftsIn(b, o), b.ns), again.ns);
  }
}
