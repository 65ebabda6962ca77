/** A publication run of a mirror channel: one tag after the other, and what they amount to. */
module RunStatus {
  import opened Basics
  import Names
  import opened TagList
  import TagRoundTrip

  datatype Status = Pending | Running | Success | Failed | Divergent

  datatype Report = Report(commit: string, tree: string)

  /** What publishing one tag comes to. */
  datatype Outcome = Done(report: Report) | Refused(message: string)

  const REFUSAL := "拒绝覆盖"

  predicate IsDivergentError(message: string) { Names.Contains(message, REFUSAL) }

  datatype TagStatus = TagStatus(tag: string, status: Status, report: Option<Report>)

  datatype Step = Prepare(status: Status) | PublishStep(tag: string, status: Status)

  /** How far a run gets: the preparation of the clone and of its remote, and when the run is
      cancelled. */
  datatype Course = Course(repo: bool, remote: bool, cancelled: nat -> bool, outcomes: nat -> Outcome)

  function StatusOf(o: Outcome): Status {
    if o.Done? then Success else if IsDivergentError(o.message) then Divergent else Failed
  }

  function TagStatusOf(tag: string, o: Outcome): TagStatus {
    TagStatus(tag, StatusOf(o), if o.Done? then Some(o.report) else None)
  }

  function StepOf(tag: string, o: Outcome): Step { PublishStep(tag, if o.Done? then Success else Failed) }

  /** What is recorded of one tag. */
  lemma RecordOfTag(tag: string, o: Outcome)
    ensures o.Done? ==>
              && TagStatusOf(tag, o) == TagStatus(tag, Success, Some(o.report))
              && StepOf(tag, o) == PublishStep(tag, Success)
    ensures o.Refused? && Names.Contains(o.message, "拒绝覆盖") ==>
              && TagStatusOf(tag, o) == TagStatus(tag, Divergent, None)
              && StepOf(tag, o) == PublishStep(tag, Failed)
    ensures o.Refused? && !Names.Contains(o.message, "拒绝覆盖") ==>
              && TagStatusOf(tag, o) == TagStatus(tag, Failed, None)
              && StepOf(tag, o) == PublishStep(tag, Failed)
  {
  }

  /** The error of a divergent tag is recognized whatever the tag and whatever is put around it. */
  lemma DivergenceIsRecognized(before: string, after: string)
    ensures IsDivergentError(before + "拒绝覆盖" + after)
  {
    var message := before + "拒绝覆盖" + after;
    assert message[|before|..|before| + 4] == "拒绝覆盖";
    assert Names.StandsAt(message, |before|, "拒绝覆盖");
  }

  // ---------------------------------------------------------------- what a run amounts to

  /** The run has processed n of its tags. */
  ghost predicate Stops(tags: seq<string>, c: Course, n: nat) {
    && n <= |tags|
    && (c.repo && c.remote ==> (forall i: nat :: i < n ==> !c.cancelled(i)) && (n < |tags| ==> c.cancelled(n)))
    && (!(c.repo && c.remote) ==> n == 0)
  }

  function StatusesOf(c: Course, n: nat): seq<Status> { seq(n, i requires 0 <= i => StatusOf(c.outcomes(i))) }

  /** The status of a run, from the statuses of the tags it has processed; complete means that
      there was nothing else to do. */
  function Verdict(statuses: seq<Status>, complete: bool): Status {
    if Divergent in statuses then Divergent
    else if complete && Failed !in statuses then Success
    else Failed
  }

  /** The order of the tags does not matter. */
  lemma OrderDoesNotMatter(a: seq<Status>, b: seq<Status>, complete: bool)
    requires multiset(a) == multiset(b)
    ensures Verdict(a, complete) == Verdict(b, complete)
  {
    forall s: Status ensures s in a <==> s in b {
      assert s in a <==> s in multiset(a);
      assert s in b <==> s in multiset(b);
    }
  }

  /** In terms of the outcomes: a success is all that was asked for done, a divergence is some
      outcome that says so. */
  lemma VerdictMeans(c: Course, n: nat, complete: bool)
    ensures var v := Verdict(StatusesOf(c, n), complete);
            && (v == Success <==> complete && forall i: nat :: i < n ==> c.outcomes(i).Done?)
            && (v == Divergent <==>
                  exists i: nat :: i < n && c.outcomes(i).Refused? && IsDivergentError(c.outcomes(i).message))
            && (v == Success || v == Divergent || v == Failed)
  {
    var ss := StatusesOf(c, n);
    forall i: nat | i < n ensures ss[i] == StatusOf(c.outcomes(i)) && ss[i] in ss {
    }
    if Divergent in ss {
      var i :| 0 <= i < n && ss[i] == Divergent;
      assert c.outcomes(i).Refused?;
    } else if Failed in ss {
      var i :| 0 <= i < n && ss[i] == Failed;
      assert c.outcomes(i).Refused?;
    }
  }

  /** A run goes on up to the first tag before which it is cancelled; if that comes before the end,
      it is no success, and without its preparation it processes nothing and fails. */
  lemma CancelledIsNoSuccess(tags: seq<string>, c: Course, n: nat)
    requires Stops(tags, c, n)
    ensures c.repo && c.remote ==> forall k: nat :: k < |tags| && c.cancelled(k) ==> n <= k
    ensures c.repo && c.remote && n < |tags| ==> c.cancelled(n)
    ensures var complete := c.repo && c.remote && n == |tags|;
            && ((exists k: nat :: k < |tags| && c.cancelled(k)) ==> Verdict(StatusesOf(c, n), complete) != Success)
            && (!c.repo || !c.remote ==> n == 0 && Verdict(StatusesOf(c, n), complete) == Failed)
  {
    VerdictMeans(c, n, c.repo && c.remote && n == |tags|);
  }

  /** Once n tags have been processed, and the preparation with them. */
  function StepsAfter(tags: seq<string>, c: Course, n: nat): seq<Step>
    requires n <= |tags|
  {
    if n == 0 then [Prepare(Success)] else StepsAfter(tags, c, n - 1) + [StepOf(tags[n - 1], c.outcomes(n - 1))]
  }

  function TagStatusesAfter(tags: seq<string>, c: Course, n: nat): map<string, TagStatus>
    requires n <= |tags|
  {
    if n == 0 then map[]
    else TagStatusesAfter(tags, c, n - 1)[tags[n - 1] := TagStatusOf(tags[n - 1], c.outcomes(n - 1))]
  }

  function ReportAfter(c: Course, n: nat): Option<Report> {
    if n == 0 then None
    else if c.outcomes(n - 1).Done? then Some(c.outcomes(n - 1).report)
    else ReportAfter(c, n - 1)
  }

  /** The steps are the preparation and one entry for each processed tag, in their order. */
  lemma {:induction false} StepsListTags(tags: seq<string>, c: Course, n: nat)
    requires n <= |tags|
    ensures |StepsAfter(tags, c, n)| == n + 1 && StepsAfter(tags, c, n)[0] == Prepare(Success)
    ensures forall i: nat :: i < n ==> StepsAfter(tags, c, n)[i + 1] == StepOf(tags[i], c.outcomes(i))
  {
    if n > 0 {
      StepsListTags(tags, c, n - 1);
    }
  }

  /** The processed tags, and no others, have a status. */
  lemma {:induction false} StatusPerTag(tags: seq<string>, c: Course, n: nat, t: string)
    requires n <= |tags|
    ensures t in TagStatusesAfter(tags, c, n) <==> exists i: nat :: i < n && tags[i] == t
  {
    if n > 0 {
      StatusPerTag(tags, c, n - 1, t);
    }
  }

  /** It is that of the last time the tag was processed: for distinct tags, of the only one. */
  lemma {:induction false} StatusIsOfLast(tags: seq<string>, c: Course, n: nat, i: nat)
    requires i < n <= |tags| && forall j :: i < j < n ==> tags[j] != tags[i]
    ensures tags[i] in TagStatusesAfter(tags, c, n)
    ensures TagStatusesAfter(tags, c, n)[tags[i]] == TagStatusOf(tags[i], c.outcomes(i))
  {
    if i < n - 1 {
      StatusIsOfLast(tags, c, n - 1, i);
    }
  }

  /** The report is that of the last tag that was published. */
  lemma {:induction false} ReportIsOfLast(c: Course, n: nat, i: nat)
    requires i < n && c.outcomes(i).Done? && forall j: nat :: i < j < n ==> !c.outcomes(j).Done?
    ensures ReportAfter(c, n) == Some(c.outcomes(i).report)
  {
    if i < n - 1 {
      ReportIsOfLast(c, n - 1, i);
    }
  }

  class MirrorRun {
    const tags: string
    var status: Status
    var steps: seq<Step>
    var tagStatuses: map<string, TagStatus>
    var report: Option<Report>

    constructor (names: seq<string>)
      ensures tags == Stored(names) && status == Pending && steps == [] && tagStatuses == map[] && report == None
    {
      tags, status, steps, tagStatuses, report := Stored(names), Pending, [], map[], None;
    }

    method Execute(c: Course) returns (ghost n: nat, failed: bool)
      requires status == Pending && tagStatuses == map[] && report == None
      modifies this
      ensures Stops(Tags(tags), c, n)
      ensures status == Verdict(StatusesOf(c, n), c.repo && c.remote && n == |Tags(tags)|)
      ensures failed <==> status != Success
      ensures steps == (if n == 0 then [Prepare(Running)] else StepsAfter(Tags(tags), c, n))
      ensures tagStatuses == TagStatusesAfter(Tags(tags), c, n) && report == ReportAfter(c, n)
    {
      status := Running;
      steps := [Prepare(Running)];
      n, failed := ExecutePublish(c);
      if failed {
        if status == Running {
          status := Failed;
        }
      } else if status == Running {
        status := Success;
      }
    }

    /** What becomes of one tag is recorded before and after it is published. */
    method Record(tag: string, o: Outcome, before: seq<Step>) returns (current: seq<Step>)
      modifies this
      ensures current == before + [StepOf(tag, o)] && steps == current
      ensures tagStatuses == old(tagStatuses)[tag := TagStatusOf(tag, o)]
      ensures status == (if StatusOf(o) == Divergent then Divergent else old(status))
      ensures report == if o.Done? then Some(o.report) else old(report)
    {
      current := before + [PublishStep(tag, Running)];
      steps := current;
      var idx := |current| - 1;
      match o {
        case Refused(message) =>
          current := current[idx := PublishStep(tag, Failed)];
          if IsDivergentError(message) {
            tagStatuses := tagStatuses[tag := TagStatus(tag, Divergent, None)];
            status := Divergent;
          } else {
            tagStatuses := tagStatuses[tag := TagStatus(tag, Failed, None)];
          }
        case Done(r) =>
          current := current[idx := PublishStep(tag, Success)];
          tagStatuses := tagStatuses[tag := TagStatus(tag, Success, Some(r))];
          report := Some(r);
      }
      steps := current;
    }

    method ExecutePublish(c: Course) returns (ghost n: nat, failed: bool)
      requires status == Running && steps == [Prepare(Running)] && tagStatuses == map[] && report == None
      modifies this
      ensures Stops(Tags(tags), c, n)
      ensures status == (if Divergent in StatusesOf(c, n) then Divergent else Running)
      ensures failed <==>
                || !(c.repo && c.remote && n == |Tags(tags)|)
                || Divergent in StatusesOf(c, n)
                || Failed in StatusesOf(c, n)
      ensures steps == (if n == 0 then [Prepare(Running)] else StepsAfter(Tags(tags), c, n))
      ensures tagStatuses == TagStatusesAfter(Tags(tags), c, n) && report == ReportAfter(c, n)
    {
      n := 0;
      if !c.repo {
        return n, true;
      }
      if !c.remote {
        return n, true;
      }
      var current := [Prepare(Success)];
      var names := SplitTags(tags);
      var divergent, broken := 0, 0;
      for i := 0 to |names|
        invariant n == i && forall k: nat :: k < i ==> !c.cancelled(k)
        invariant divergent >= 0 && broken >= 0 && Counted(divergent > 0, broken > 0, StatusesOf(c, i))
        invariant Recorded(names, c, i, current, tagStatuses, report)
        invariant status == if divergent > 0 then Divergent else Running
        invariant steps == if i == 0 then [Prepare(Running)] else current
      {
        if c.cancelled(i) {
          return n, true;
        }
        OneMoreTag(names, c, i, current, tagStatuses, report, divergent > 0, broken > 0);
        current := Record(names[i], c.outcomes(i), current);
        var s := StatusOf(c.outcomes(i));
        divergent := divergent + if s == Divergent then 1 else 0;
        broken := broken + if s == Failed then 1 else 0;
        n := i + 1;
      }
      return n, broken > 0 || divergent > 0;
    }
  }

  ghost predicate Counted(divergent: bool, broken: bool, statuses: seq<Status>) {
    (divergent <==> Divergent in statuses) && (broken <==> Failed in statuses)
  }

  ghost predicate Recorded(tags: seq<string>, c: Course, n: nat, current: seq<Step>, m: map<string, TagStatus>,
      r: Option<Report>)
    requires n <= |tags|
  {
    current == StepsAfter(tags, c, n) && m == TagStatusesAfter(tags, c, n) && r == ReportAfter(c, n)
  }

  lemma OneMoreTag(tags: seq<string>, c: Course, n: nat, current: seq<Step>, m: map<string, TagStatus>,
      r: Option<Report>,
    divergent: bool, broken: bool)
    requires n < |tags| && Recorded(tags, c, n, current, m, r) && Counted(divergent, broken, StatusesOf(c, n))
    ensures var o := c.outcomes(n);
            && Recorded(tags, c, n + 1, current + [StepOf(tags[n], o)], m[tags[n] := TagStatusOf(tags[n], o)],
                        if o.Done? then Some(o.report) else r)
            && Counted(divergent || StatusOf(o) == Divergent, broken || StatusOf(o) == Failed, StatusesOf(c, n + 1))
  {
    assert StatusesOf(c, n + 1) == StatusesOf(c, n) + [StatusOf(c.outcomes(n))];
  }

  /** From the request to the record: of a list of distinct valid names, stored, read back and
      carried through, each name has the status of its own outcome and no other name has any. */
  lemma EveryTagAskedForIsRecorded(names: seq<string>, c: Course)
    requires forall t :: t in names ==> Names.ValidName(t)
    requires forall i, j :: 0 <= i < j < |names| ==> names[i] != names[j]
    ensures Tags(Stored(names)) == names
    ensures TagStatusesAfter(names, c, |names|).Keys == set t | t in names
    ensures forall i: nat :: i < |names| ==>
      names[i] in TagStatusesAfter(names, c, |names|)
      && TagStatusesAfter(names, c, |names|)[names[i]] == TagStatusOf(names[i], c.outcomes(i))
  {
    TagRoundTrip.ValidNamesReturn(names);
    forall t ensures t in TagStatusesAfter(names, c, |names|) <==> t in names {
      StatusPerTag(names, c, |names|, t);
    }
    forall i: nat | i < |names|
      ensures names[i] in TagStatusesAfter(names, c, |names|)
      && TagStatusesAfter(names, c, |names|)[names[i]] == TagStatusOf(names[i], c.outcomes(i)) {
      StatusIsOfLast(names, c, |names|, i);
    }
  }
}
