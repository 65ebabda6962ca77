/** One sync task, executed again and again on a work directory that it reuses. */
module Executor {
  import opened Basics

  // ---------------------------------------------------------------- remote addresses

  function TrimSlashes(s: string): (r: string)
    ensures r <= s && (r == [] || r[|r| - 1] != '/')
    ensures AllSlashes(s[|r|..])
  {
    if s != [] && s[|s| - 1] == '/' then TrimSlashes(s[..|s| - 1]) else s
  }

  predicate AllSlashes(s: string) { forall i :: 0 <= i < |s| ==> s[i] == '/' }

  /** Equal up to trailing slashes. */
  predicate SameURL(a: string, b: string) { TrimSlashes(a) == TrimSlashes(b) }

  ghost predicate OnlySlashesApart(a: string, b: string, n: nat) {
    n <= |a| && n <= |b| && a[..n] == b[..n] && AllSlashes(a[n..]) && AllSlashes(b[n..])
  }

  lemma {:induction false} TrimForgetsSlashes(a: string, n: nat)
    requires n <= |a| && AllSlashes(a[n..])
    ensures TrimSlashes(a) == TrimSlashes(a[..n])
    decreases |a|
  {
    if n < |a| {
      assert a[|a| - 1] == a[n..][|a| - 1 - n];
      assert a[..|a| - 1][n..] == a[n..|a| - 1] == a[n..][..|a| - 1 - n];
      TrimForgetsSlashes(a[..|a| - 1], n);
      assert a[..|a| - 1][..n] == a[..n];
    } else {
      assert a[..n] == a;
    }
  }

  lemma SameURLMeans(a: string, b: string)
    ensures SameURL(a, b) <==> exists n :: OnlySlashesApart(a, b, n)
  {
    if SameURL(a, b) {
      assert OnlySlashesApart(a, b, |TrimSlashes(a)|);
    }
    forall n | OnlySlashesApart(a, b, n) ensures SameURL(a, b) {
      TrimForgetsSlashes(a, n);
      TrimForgetsSlashes(b, n);
    }
  }

  // ---------------------------------------------------------------- the clone

  datatype Remote = Origin | Target

  type Remotes = map<Remote, string>

  /** Which backend calls succeed, and what is read of a remote that is not configured. */
  datatype SyncFaults = SyncFaults(get: bool, absent: string, remove: bool, add: bool)

  datatype FetchFaults = FetchFaults(sync: SyncFaults, fetch: bool, current: string, checkout: bool)

  datatype EnsureFaults = EnsureFaults(list: bool, sync: SyncFaults)

  datatype CloneResult = Cloned | CloneFailed(debris: Option<Remotes>)

  /** Makes a remote point to an address, re-creating it if need be. */
  function SyncURL(remotes: Remotes, name: Remote, want: string, f: SyncFaults): (r: (Remotes, bool))
    ensures r.1 && name in remotes ==> name in r.0 && (if want == "" then r.0 == remotes else SameURL(r.0[name], want))
    ensures forall other :: other != name ==>
      (other in r.0 <==> other in remotes) && (other in remotes ==> r.0[other] == remotes[other])
  {
    if want == "" then (remotes, true)
    else if !f.get then (remotes, false)
    else if SameURL(if name in remotes then remotes[name] else f.absent, want) then (remotes, true)
    else if !f.remove then (remotes, false)
    else if !f.add then (remotes - {name}, false)
    else (remotes[name := want], true)
  }

  function Fetch(remotes: Remotes, url: string, branch: string, f: FetchFaults): (Remotes, bool) {
    (SyncURL(remotes, Origin, url, f.sync).0, f.fetch && (f.current == branch || f.checkout))
  }

  function Ensure(remotes: Remotes, url: string, f: EnsureFaults): (r: (Remotes, bool))
    ensures r.1 ==>
              && Target in r.0
              && (if url == "" && Target in remotes then r.0 == remotes else SameURL(r.0[Target], url))
  {
    if !f.list then (remotes, false)
    else if Target in remotes then SyncURL(remotes, Target, url, f.sync)
    else if f.sync.add then (remotes[Target := url], true)
    else (remotes, false)
  }

  // ---------------------------------------------------------------- one run

  datatype Repo = Repo(cloneURL: string, defaultBranch: string)

  datatype Lookup = Found(repo: Repo) | Unknown | LookupFailed

  datatype Task = Task(sourceBranch: string, targetBranch: string)

  function BranchOf(branch: string, repo: Repo): string {
    if branch != "" then branch else if repo.defaultBranch != "" then repo.defaultBranch else "main"
  }

  /** Everything one execution meets. */
  datatype Call = Call(task: Task, source: Lookup, target: Lookup, mkdir: bool, retryCount: int,
    clone: CloneResult, fetch: FetchFaults, ensure: EnsureFaults, push: nat -> bool, refetch: nat -> FetchFaults,
      aborted: nat -> bool)

  datatype StepName = CloneStep | FetchStep | EnsureRemoteStep | PushStep

  datatype Status = Running | Success | Failed

  datatype Step = Step(name: StepName, status: Status, retries: nat)

  datatype Run = Run(status: Status, steps: seq<Step>, retryTotal: nat)

  /** A push, and where it went. */
  datatype Push = Push(url: string, sourceBranch: string, targetBranch: string)

  /** A clone or a fetch: the address that was asked, if the clone has one for its origin, and
      the branch. */
  datatype Pull = Pull(url: Option<string>, branch: string)

  /** The work directory of the task: nothing, or a directory, possibly with a clone. */
  datatype Disk = Disk(dir: bool, clone: Option<Remotes>)

  datatype Done = Done(disk: Disk, run: Run, pulls: seq<Pull>, pushes: seq<Push>)

  const NoDisk := Disk(false, None)

  predicate Reaches(c: Call) { c.source.Found? && c.target.Found? && c.mkdir }

  predicate Retries(c: Call) { !c.push(1) && c.retryCount != 1 }

  function FirstStep(disk: Disk): StepName { if disk.clone.None? then CloneStep else FetchStep }

  /** Clone, or fetch into what is there. */
  function Begin(disk: Disk, c: Call): (Remotes, bool)
    requires Reaches(c)
  {
    if disk.clone.None? then (map[Origin := c.source.repo.cloneURL], c.clone.Cloned?)
    else Fetch(disk.clone.value, c.source.repo.cloneURL, BranchOf(c.task.sourceBranch, c.source.repo), c.fetch)
  }

  function OriginOf(remotes: Remotes): Option<string> {
    if Origin in remotes then Some(remotes[Origin]) else None
  }

  function FirstPull(disk: Disk, c: Call): Pull
    requires Reaches(c)
  {
    Pull(OriginOf(Begin(disk, c).0), BranchOf(c.task.sourceBranch, c.source.repo))
  }

  /** The fetch that follows a failed push, from a clone with these remotes. */
  function Refetched(remotes: Remotes, url: string, branch: string, c: Call): seq<Pull> {
    if Retries(c) then [Pull(OriginOf(SyncURL(remotes, Origin, url, c.refetch(1).sync).0), branch)] else []
  }

  /** One execution, without any loop: there is never more than one push. */
  function Executed(disk: Disk, c: Call): Done {
    if !Reaches(c) then Done(disk, Run(Failed, [], 0), [], [])
    else
      var begun := Begin(disk, c);
      var first := FirstStep(disk);
      var pull := FirstPull(disk, c);
      if !begun.1 then Done(NoDisk, Run(Failed, [Step(first, Failed, 0)], 0), [pull], [])
      else
        var ensured := Ensure(begun.0, c.target.repo.cloneURL, c.ensure);
        if !ensured.1 then
          Done(NoDisk, Run(Failed, [Step(first, Success, 0), Step(EnsureRemoteStep, Failed, 0)], 0), [pull], [])
        else
          var retries := if Retries(c) then 1 else 0;
          var status := if c.push(1) then Success else Failed;
          var steps := [Step(first, Success, 0), Step(EnsureRemoteStep, Success, 0), Step(PushStep, status, retries)];
          Done(
            if c.push(1) then Disk(true, Some(ensured.0)) else NoDisk,
            Run(status, steps, retries),
            [pull] + Refetched(ensured.0, c.source.repo.cloneURL, BranchOf(c.task.sourceBranch, c.source.repo), c),
            [Push(ensured.0[Target], BranchOf(c.task.sourceBranch, c.source.repo),
              BranchOf(c.task.targetBranch, c.target.repo))])
  }

  class Executor {
    var disk: Disk
    var pulls: seq<Pull>
    var pushes: seq<Push>

    constructor ()
      ensures disk == NoDisk && pulls == [] && pushes == []
    {
      disk, pulls, pushes := NoDisk, [], [];
    }

    method Execute(c: Call) returns (run: Run)
      modifies this
      ensures Done(disk, run, pulls, pushes) == Behind(old(pulls), old(pushes), Executed(old(disk), c))
    {
      if !c.source.Found? || !c.target.Found? || !c.mkdir {
        return Run(Failed, [], 0);
      }
      disk := disk.(dir := true);
      var source, target := c.source.repo, c.target.repo;
      var sourceBranch, targetBranch := BranchOf(c.task.sourceBranch, source), BranchOf(c.task.targetBranch, target);
      var step1, ok1 := CloneOrFetch(c, sourceBranch);
      if !ok1 {
        disk := NoDisk;
        return Run(Failed, [step1.(status := Failed)], 0);
      }
      step1 := step1.(status := Success);
      var step2 := Step(EnsureRemoteStep, Running, 0);
      var ok2 := EnsureRemote(target.cloneURL, c.ensure);
      if !ok2 {
        disk := NoDisk;
        return Run(Failed, [step1, step2.(status := Failed)], 0);
      }
      step2 := step2.(status := Success);
      var retries, ok3 := PushWithRetry(c, source.cloneURL, sourceBranch, targetBranch);
      var step3 := Step(PushStep, if ok3 then Success else Failed, retries);
      if !ok3 {
        disk := NoDisk;
        return Run(Failed, [step1, step2, step3], retries);
      }
      return Run(Success, [step1, step2, step3], retries);
    }

    method CloneOrFetch(c: Call, branch: string) returns (step: Step, ok: bool)
      requires disk.dir && Reaches(c) && branch == BranchOf(c.task.sourceBranch, c.source.repo)
      modifies this`disk, this`pulls
      ensures pulls == old(pulls) + [FirstPull(old(disk), c)]
      ensures step == Step(FirstStep(old(disk)), Running, 0)
      ensures ok == Begin(old(disk), c).1 && (ok ==> disk == Disk(true, Some(Begin(old(disk), c).0)))
    {
      if disk.clone.None? {
        step := Step(CloneStep, Running, 0);
        pulls := pulls + [Pull(Some(c.source.repo.cloneURL), branch)];
        if c.clone.CloneFailed? {
          disk := Disk(true, c.clone.debris);
          return step, false;
        }
        disk := Disk(true, Some(map[Origin := c.source.repo.cloneURL]));
        return step, true;
      }
      step := Step(FetchStep, Running, 0);
      ok := FetchRepo(c.source.repo.cloneURL, branch, c.fetch);
    }

    method FetchRepo(url: string, branch: string, f: FetchFaults) returns (ok: bool)
      requires disk.dir && disk.clone.Some?
      modifies this`disk, this`pulls
      ensures pulls == old(pulls) + [Pull(OriginOf(SyncURL(old(disk).clone.value, Origin, url, f.sync).0), branch)]
      ensures (disk, ok) == (Disk(true, Some(Fetch(old(disk).clone.value, url, branch, f).0)),
        Fetch(old(disk).clone.value, url, branch, f).1)
    {
      var synced := SyncRemoteURL(Origin, url, f.sync);
      pulls := pulls + [Pull(OriginOf(disk.clone.value), branch)];
      if !f.fetch {
        return false;
      }
      if f.current != branch {
        return f.checkout;
      }
      return true;
    }

    method EnsureRemote(url: string, f: EnsureFaults) returns (ok: bool)
      requires disk.dir && disk.clone.Some?
      modifies this`disk
      ensures (disk, ok) == (Disk(true, Some(Ensure(old(disk).clone.value, url, f).0)),
        Ensure(old(disk).clone.value, url, f).1)
    {
      if !f.list {
        return false;
      }
      if Target !in disk.clone.value {
        if f.sync.add {
          disk := Disk(true, Some(disk.clone.value[Target := url]));
        }
        return f.sync.add;
      }
      ok := SyncRemoteURL(Target, url, f.sync);
    }

    method SyncRemoteURL(name: Remote, want: string, f: SyncFaults) returns (ok: bool)
      requires disk.dir && disk.clone.Some?
      modifies this`disk
      ensures (disk, ok) == (Disk(true, Some(SyncURL(old(disk).clone.value, name, want, f).0)),
        SyncURL(old(disk).clone.value, name, want, f).1)
    {
      var remotes := disk.clone.value;
      if want == "" {
        return true;
      }
      if !f.get {
        return false;
      }
      if SameURL(if name in remotes then remotes[name] else f.absent, want) {
        return true;
      }
      if !f.remove {
        return false;
      }
      disk := disk.(clone := Some(remotes - {name}));
      if !f.add {
        return false;
      }
      disk := disk.(clone := Some((remotes - {name})[name := want]));
      assert (remotes - {name})[name := want] == remotes[name := want];
      return true;
    }

    /** The loop is meant to push several times, but what is left of a failed push ends the
        next round before it pushes. */
    method PushWithRetry(c: Call, sourceURL: string, sourceBranch: string, targetBranch: string)
        returns (retries: nat, ok: bool)
      requires disk.dir && disk.clone.Some? && Target in disk.clone.value
      modifies this
      ensures pushes == old(pushes) + [Push(old(disk).clone.value[Target], sourceBranch, targetBranch)]
      ensures pulls == old(pulls) + Refetched(old(disk).clone.value, sourceURL, sourceBranch, c)
      ensures ok == c.push(1) && retries == (if Retries(c) then 1 else 0)
      ensures ok ==> disk == old(disk)
    {
      var maxRetries := if c.retryCount <= 0 then 3 else c.retryCount;
      retries := 0;
      var failed := false;
      var attempt := 1;
      while attempt <= maxRetries
        invariant 1 <= attempt <= 2 && disk.dir && disk.clone.Some?
        invariant attempt == 1 ==> !failed && retries == 0 && disk == old(disk)
        invariant attempt == 1 ==> pulls == old(pulls) && pushes == old(pushes)
        invariant attempt == 2 ==>
          && failed && retries == 0 && !c.push(1)
          && pulls == old(pulls) + Refetched(old(disk).clone.value, sourceURL, sourceBranch, c)
          && pushes == old(pushes) + [Push(old(disk).clone.value[Target], sourceBranch, targetBranch)]
        decreases maxRetries - attempt
      {
        if attempt > 1 {
          retries := attempt - 1;
          if c.aborted(attempt) {
            failed := true;
          }
          if failed {
            break;
          }
        }
        pushes := pushes + [Push(disk.clone.value[Target], sourceBranch, targetBranch)];
        failed := !c.push(attempt);
        if !failed {
          break;
        }
        if attempt < maxRetries {
          var fetched := FetchRepo(sourceURL, sourceBranch, c.refetch(attempt));
        }
        attempt := attempt + 1;
      }
      ok := !failed;
    }
  }

  function Behind(pulls: seq<Pull>, pushes: seq<Push>, d: Done): Done {
    d.(pulls := pulls + d.pulls, pushes := pushes + d.pushes)
  }

  // ---------------------------------------------------------------- what one run is like

  /** The steps are a prefix of clone or fetch, ensure remote, push, of which only the last may
      have failed; the run succeeds exactly when all three have. */
  lemma StepsArePrefix(disk: Disk, c: Call)
    ensures var run := Executed(disk, c).run;
            && |run.steps| <= 3
            && (forall i :: 0 <= i < |run.steps| ==>
              run.steps[i].name == [FirstStep(disk), EnsureRemoteStep, PushStep][i])
            && (forall i :: 0 <= i < |run.steps| - 1 ==> run.steps[i].status == Success)
            && (run.steps != [] ==> run.steps[|run.steps| - 1].status == run.status)
            && (run.status == Success <==> |run.steps| == 3 && run.steps[2].status == Success)
            && run.status != Running
  {
  }

  /** A push is attempted once, exactly when the two steps before it have succeeded, and it
      goes to the current address of the target up to trailing slashes.  Only an empty address
      leaves the one that the clone has. */
  lemma PushGoesToTarget(disk: Disk, c: Call)
    ensures var d := Executed(disk, c);
            && |d.pushes| == (if |d.run.steps| == 3 then 1 else 0)
            && (d.pushes != [] ==>
                  var known := disk.clone.Some? && Target in disk.clone.value;
                  var configured := if known then disk.clone.value[Target] else "";
                  SameURL(d.pushes[0].url, if c.target.repo.cloneURL == "" then configured else c.target.repo.cloneURL))
  {
  }

  /** A branch that a task asks for: the one it names, or the default of the repository, or main. */
  predicate IsBranch(branch: string, named: string, byDefault: string) {
    && (named != "" ==> branch == named)
    && (named == "" && byDefault != "" ==> branch == byDefault)
    && (named == "" && byDefault == "" ==> branch == "main")
  }

  /** What is pushed: the source branch of the source repository to the target branch of the
      target repository. */
  lemma PushIsOfBranches(disk: Disk, c: Call, p: Push)
    requires p in Executed(disk, c).pushes
    ensures c.source.Found? && c.target.Found?
    ensures IsBranch(p.sourceBranch, c.task.sourceBranch, c.source.repo.defaultBranch)
    ensures IsBranch(p.targetBranch, c.task.targetBranch, c.target.repo.defaultBranch)
  {
  }

  /** Whether the addresses of a remote and of the repository are brought together. */
  predicate Synchronizes(known: bool, url: string, want: string, f: SyncFaults) {
    want != "" && f.get && (SameURL(if known then url else f.absent, want) || (f.remove && f.add))
  }

  /** What is cloned or fetched is the source branch.  A clone is made from the current address of
      the source; a fetch is, up to slashes, if its remote could be brought up to date. */
  lemma PullIsOfSource(disk: Disk, c: Call, p: Pull)
    requires p in Executed(disk, c).pulls
    ensures c.source.Found? && IsBranch(p.branch, c.task.sourceBranch, c.source.repo.defaultBranch)
    ensures disk.clone.None? && p == Executed(disk, c).pulls[0] ==> p.url == Some(c.source.repo.cloneURL)
  {
  }

  lemma FetchIsFromSource(remotes: Remotes, url: string, branch: string, f: FetchFaults)
    requires Origin in remotes
    ensures var origin := OriginOf(Fetch(remotes, url, branch, f).0);
            if Synchronizes(true, remotes[Origin], url, f.sync) then origin.Some? && SameURL(origin.value, url)
            else if url != "" && f.sync.get && f.sync.remove then origin == None
            else origin == Some(remotes[Origin])
    ensures Fetch(remotes, url, branch, f).1 <==> f.fetch && (f.current == branch || f.checkout)
  {
  }

  lemma FirstPullIsFetched(disk: Disk, c: Call)
    requires Reaches(c) && disk.clone.Some?
    ensures Executed(disk, c).pulls != []
    ensures exists branch ::
              && IsBranch(branch, c.task.sourceBranch, c.source.repo.defaultBranch)
              && Executed(disk, c).pulls[0]
                == Pull(OriginOf(Fetch(disk.clone.value, c.source.repo.cloneURL, branch, c.fetch).0), branch)
  {
    var branch := BranchOf(c.task.sourceBranch, c.source.repo);
    assert IsBranch(branch, c.task.sourceBranch, c.source.repo.defaultBranch);
  }

  /** A run succeeds exactly if both repositories are found, the directory can be made, the source
      is cloned, or fetched with its branch checked out, the target's remote is there and up to
      date, and the first push succeeds. */
  lemma SucceedsExactlyWhen(disk: Disk, c: Call, branch: string)
    requires c.source.Found? ==> IsBranch(branch, c.task.sourceBranch, c.source.repo.defaultBranch)
    ensures Executed(disk, c).run.status == Success <==>
              && c.source.Found? && c.target.Found? && c.mkdir
              && (disk.clone.None? ==> c.clone.Cloned?)
              && (disk.clone.Some? ==> c.fetch.fetch && (c.fetch.current == branch || c.fetch.checkout))
              && TargetIsReady(disk, c.target.repo.cloneURL, c.ensure)
              && c.push(1)
  {
  }

  predicate TargetIsReady(disk: Disk, want: string, f: EnsureFaults) {
    && f.list
    && if disk.clone.Some? && Target in disk.clone.value
       then want == "" || Synchronizes(true, disk.clone.value[Target], want, f.sync)
       else f.sync.add
  }

  /** A retry is counted for a failed push, unless only one attempt is asked for. */
  lemma RetriesAreCounted(disk: Disk, c: Call)
    ensures var run := Executed(disk, c).run;
            && run.retryTotal == (if |run.steps| == 3 && !c.push(1) && c.retryCount != 1 then 1 else 0)
            && (|run.steps| == 3 ==> run.steps[2].retries == run.retryTotal)
            && |Executed(disk, c).pulls| == (if run.steps == [] then 0 else 1 + run.retryTotal)
  {
  }

  // ---------------------------------------------------------------- sequences of runs

  function After(calls: seq<Call>): Disk {
    if calls == [] then NoDisk else Executed(After(calls[..|calls| - 1]), calls[|calls| - 1]).disk
  }

  function RunOf(calls: seq<Call>, i: nat): Run
    requires i < |calls|
  {
    Executed(After(calls[..i]), calls[i]).run
  }

  /** Everything that has been pushed. */
  function PushesOf(calls: seq<Call>): seq<Push> {
    if calls == [] then []
    else PushesOf(calls[..|calls| - 1]) + Executed(After(calls[..|calls| - 1]), calls[|calls| - 1]).pushes
  }

  /** Every push of every run takes the branch that its task names, or that is the default, from
      the source to the target, at the address that the target has then. */
  lemma {:induction false} EveryPushIsAskedFor(calls: seq<Call>, p: Push) returns (i: nat)
    requires p in PushesOf(calls)
    ensures i < |calls| && calls[i].source.Found? && calls[i].target.Found?
    ensures IsBranch(p.sourceBranch, calls[i].task.sourceBranch, calls[i].source.repo.defaultBranch)
    ensures IsBranch(p.targetBranch, calls[i].task.targetBranch, calls[i].target.repo.defaultBranch)
    ensures calls[i].target.repo.cloneURL != "" ==> SameURL(p.url, calls[i].target.repo.cloneURL)
  {
    var n := |calls| - 1;
    if p in PushesOf(calls[..n]) {
      i := EveryPushIsAskedFor(calls[..n], p);
    } else {
      i := n;
      PushIsOfBranches(After(calls[..n]), calls[n], p);
      PushGoesToTarget(After(calls[..n]), calls[n]);
    }
  }

  function PushingRuns(calls: seq<Call>): set<nat> {
    set i: nat | i < |calls| && |RunOf(calls, i).steps| == 3
  }

  lemma PushingRunsGrow(calls: seq<Call>)
    requires calls != []
    ensures var n := |calls| - 1;
            PushingRuns(calls) == PushingRuns(calls[..n]) + if |RunOf(calls, n).steps| == 3 then {n} else {}
  {
    forall i: nat | i < |calls| - 1 ensures RunOf(calls, i) == RunOf(calls[..|calls| - 1], i) {
      assert calls[..|calls| - 1][..i] == calls[..i];
    }
  }

  /** There is one for each run whose first two steps have succeeded, and no other. */
  lemma {:induction false} PushesAreCounted(calls: seq<Call>)
    ensures |PushesOf(calls)| == |PushingRuns(calls)|
  {
    if calls != [] {
      var n := |calls| - 1;
      PushesAreCounted(calls[..n]);
      PushingRunsGrow(calls);
      PushGoesToTarget(After(calls[..n]), calls[n]);
      assert n !in PushingRuns(calls[..n]);
    }
  }

  /** The last run to get as far as the work directory has succeeded. */
  ghost predicate LastReachedSucceeded(calls: seq<Call>) {
    exists i :: 0 <= i < |calls| && Reaches(calls[i]) && RunOf(calls, i).status == Success
      && forall j :: i < j < |calls| ==> !Reaches(calls[j])
  }

  lemma OneMoreCall(calls: seq<Call>)
    requires calls != []
    ensures var n := |calls| - 1;
            LastReachedSucceeded(calls) <==>
              if Reaches(calls[n]) then RunOf(calls, n).status == Success else LastReachedSucceeded(calls[..n])
  {
    var n := |calls| - 1;
    forall i | 0 <= i < n ensures RunOf(calls, i) == RunOf(calls[..n], i) {
      assert calls[..n][..i] == calls[..i];
    }
  }

  /** The work directory survives exactly when the last run to reach it has succeeded, and then
      it holds a clone. */
  lemma {:induction false} SurvivesExactlyAfterSuccess(calls: seq<Call>)
    ensures After(calls).dir <==> LastReachedSucceeded(calls)
    ensures After(calls).clone.Some? <==> LastReachedSucceeded(calls)
  {
    if calls != [] {
      SurvivesExactlyAfterSuccess(calls[..|calls| - 1]);
      OneMoreCall(calls);
    }
  }

  /** So a run fetches exactly when the run before it at the work directory has succeeded. */
  lemma FetchesExactlyAfterSuccess(calls: seq<Call>, i: nat)
    requires i < |calls| && RunOf(calls, i).steps != []
    ensures RunOf(calls, i).steps[0].name == (if LastReachedSucceeded(calls[..i]) then FetchStep else CloneStep)
  {
    SurvivesExactlyAfterSuccess(calls[..i]);
    StepsArePrefix(After(calls[..i]), calls[i]);
  }
}
