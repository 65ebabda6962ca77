/** Throttling of webhook rules: a task is not triggered again before the rule's minimal
    interval is over.  The map of trigger times is pruned every now and then. */
module Throttle {
  /** Times are milliseconds on one clock, intervals are seconds. */
  const SECOND: int := 1000
  const HOUR: int := 3600 * SECOND

  type Log = map<string, int>

  /** One pass over the map: a task key of a matching rule, or a pruning.  A task key reads
      the clock twice, to compare and to store. */
  datatype Step = Try(key: string, interval: int, since: int, stored: int) | Prune(now: int)

  predicate TooSoon(log: Log, s: Step)
    requires s.Try?
  {
    s.interval > 0 && s.key in log && s.since - log[s.key] < s.interval * SECOND
  }

  function Pruned(log: Log, now: int): Log {
    map k | k in log && now - log[k] <= HOUR :: log[k]
  }

  function StepOn(log: Log, s: Step): Log {
    match s
    case Try(key, interval, since, stored) => if interval <= 0 || TooSoon(log, s) then log else log[key := stored]
    case Prune(now) => Pruned(log, now)
  }

  function LogAfter(log: Log, steps: seq<Step>): Log {
    if steps == [] then log else StepOn(LogAfter(log, steps[..|steps| - 1]), steps[|steps| - 1])
  }

  /** Step i triggers its task. */
  predicate Fires(log: Log, steps: seq<Step>, i: nat) {
    i < |steps| && steps[i].Try? && !TooSoon(LogAfter(log, steps[..i]), steps[i])
  }

  // ---------------------------------------------------------------- the rules of a repository

  datatype Action = Sync | OtherAction

  datatype Rule = Rule(enabled: bool, eventType: string, branchPattern: string, action: Action, taskKeys: seq<string>,
      minInterval: int)

  datatype Event = Event(eventType: string, branch: string)

  datatype Want = Want(taskKey: string, interval: int)

  datatype Reading = Reading(since: int, stored: int)

  /** The pattern language is a parameter: does the pattern accept the text? */
  type Filter = (string, string) -> bool

  predicate Applies(r: Rule, e: Event, accepts: Filter) {
    r.enabled && accepts(r.eventType, e.eventType) && accepts(r.branchPattern, e.branch) && r.action.Sync?
  }

  function WantsOf(taskKeys: seq<string>, interval: int): seq<Want> {
    if taskKeys == [] then []
    else
      var last := taskKeys[|taskKeys| - 1];
      WantsOf(taskKeys[..|taskKeys| - 1], interval) + if last == "" then [] else [Want(last, interval)]
  }

  function Wants(rules: seq<Rule>, e: Event, accepts: Filter): seq<Want> {
    if rules == [] then []
    else
      var last := rules[|rules| - 1];
      Wants(rules[..|rules| - 1], e, accepts)
      + if Applies(last, e, accepts) then WantsOf(last.taskKeys, last.minInterval) else []
  }

  /** The key under which a trigger is remembered. */
  function KeyFor(repoKey: string, taskKey: string): string { repoKey + ":" + taskKey }

  function TriesOf(repoKey: string, wants: seq<Want>, clock: nat -> Reading): seq<Step> {
    seq(|wants|, i requires 0 <= i < |wants| =>
      Try(KeyFor(repoKey, wants[i].taskKey), wants[i].interval, clock(i).since, clock(i).stored))
  }

  function Triggered(log: Log, repoKey: string, wants: seq<Want>, clock: nat -> Reading): seq<string> {
    if wants == [] then []
    else
      var n := |wants| - 1;
      Triggered(log, repoKey, wants[..n], clock)
      + if Fires(log, TriesOf(repoKey, wants, clock), n) then [wants[n].taskKey] else []
  }

  class Throttle {
    var lastTriggerTime: Log

    constructor ()
      ensures lastTriggerTime == map[]
    {
      lastTriggerTime := map[];
    }

    /** The tasks that are triggered, in order. */
    method ApplyRules(repoKey: string, rules: seq<Rule>, e: Event, accepts: Filter, clock: nat -> Reading)
        returns (ran: seq<string>)
      modifies this
      ensures lastTriggerTime == LogAfter(old(lastTriggerTime), TriesOf(repoKey, Wants(rules, e, accepts), clock))
      ensures ran == Triggered(old(lastTriggerTime), repoKey, Wants(rules, e, accepts), clock)
    {
      ran := [];
      var tick := 0;
      ghost var log := lastTriggerTime;
      ghost var done: seq<Want> := [];
      for i := 0 to |rules|
        invariant done == Wants(rules[..i], e, accepts) && tick == |done|
        invariant UpTo(log, repoKey, done, clock, lastTriggerTime, ran)
      {
        WantsGrow(rules, i, e, accepts);
        if Applies(rules[i], e, accepts) {
          ran, tick := ApplyRule(repoKey, rules[i], clock, ran, tick, log, done);
          done := done + WantsOf(rules[i].taskKeys, rules[i].minInterval);
        }
      }
      assert rules[..|rules|] == rules;
    }

    /** One rule that applies; log and done are where and what the rules before it began with. */
    method ApplyRule(repoKey: string, rule: Rule, clock: nat -> Reading, ran: seq<string>, tick: nat, ghost log: Log,
        ghost done: seq<Want>)
      returns (ran': seq<string>, tick': nat)
      requires tick == |done| && UpTo(log, repoKey, done, clock, lastTriggerTime, ran)
      modifies this
      ensures var wants := done + WantsOf(rule.taskKeys, rule.minInterval);
              tick' == |wants| && UpTo(log, repoKey, wants, clock, lastTriggerTime, ran')
    {
      ran', tick' := ran, tick;
      ghost var wants := done;
      for j := 0 to |rule.taskKeys|
        invariant wants == done + WantsOf(rule.taskKeys[..j], rule.minInterval) && tick' == |wants|
        invariant UpTo(log, repoKey, wants, clock, lastTriggerTime, ran')
      {
        TaskKeysGrow(done, rule.taskKeys, j, rule.minInterval);
        if rule.taskKeys[j] != "" {
          OneMore(log, repoKey, wants, Want(rule.taskKeys[j], rule.minInterval), clock, lastTriggerTime, ran');
          wants := wants + [Want(rule.taskKeys[j], rule.minInterval)];
          var fires := Trigger(KeyFor(repoKey, rule.taskKeys[j]), rule.minInterval, clock(tick'));
          tick' := tick' + 1;
          ran' := ran' + if fires then [rule.taskKeys[j]] else [];
        }
      }
      assert rule.taskKeys[..|rule.taskKeys|] == rule.taskKeys;
    }

    method Trigger(key: string, minInterval: int, reading: Reading) returns (fires: bool)
      modifies this
      ensures var s := Try(key, minInterval, reading.since, reading.stored);
              lastTriggerTime == StepOn(old(lastTriggerTime), s) && (fires <==> !TooSoon(old(lastTriggerTime), s))
    {
      if minInterval > 0 {
        if key in lastTriggerTime && reading.since - lastTriggerTime[key] < minInterval * SECOND {
          return false;
        }
        lastTriggerTime := lastTriggerTime[key := reading.stored];
      }
      return true;
    }

    /** Forgets what is more than an hour old. */
    method CleanupTriggerTimes(now: int)
      modifies this
      ensures lastTriggerTime == StepOn(old(lastTriggerTime), Prune(now))
    {
      var todo := lastTriggerTime.Keys;
      while todo != {}
        invariant todo <= lastTriggerTime.Keys
        invariant forall k :: k in lastTriggerTime <==>
          k in old(lastTriggerTime) && (k in todo || now - old(lastTriggerTime)[k] <= HOUR)
        invariant forall k :: k in lastTriggerTime ==> lastTriggerTime[k] == old(lastTriggerTime)[k]
        decreases |todo|
      {
        var key :| key in todo;
        if now - lastTriggerTime[key] > HOUR {
          lastTriggerTime := lastTriggerTime - {key};
        }
        todo := todo - {key};
      }
    }
  }

  ghost predicate UpTo(log: Log, repoKey: string, wants: seq<Want>, clock: nat -> Reading, log': Log,
      ran: seq<string>) {
    log' == LogAfter(log, TriesOf(repoKey, wants, clock)) && ran == Triggered(log, repoKey, wants, clock)
  }

  lemma WantsGrow(rules: seq<Rule>, i: nat, e: Event, accepts: Filter)
    requires i < |rules|
    ensures Wants(rules[..i + 1], e, accepts) == Wants(rules[..i], e, accepts)
              + if Applies(rules[i], e, accepts) then WantsOf(rules[i].taskKeys, rules[i].minInterval) else []
  {
    assert rules[..i + 1][..i] == rules[..i];
  }

  lemma TaskKeysGrow(done: seq<Want>, taskKeys: seq<string>, j: nat, interval: int)
    requires j < |taskKeys|
    ensures done + WantsOf(taskKeys[..j + 1], interval) ==
              if taskKeys[j] == "" then done + WantsOf(taskKeys[..j], interval)
                else (done + WantsOf(taskKeys[..j], interval)) + [Want(taskKeys[j], interval)]
  {
    assert taskKeys[..j + 1][..j] == taskKeys[..j];
  }

  lemma OneMore(log: Log, repoKey: string, wants: seq<Want>, w: Want, clock: nat -> Reading, was: Log, had: seq<string>)
    requires UpTo(log, repoKey, wants, clock, was, had)
    ensures var s := Try(KeyFor(repoKey, w.taskKey), w.interval, clock(|wants|).since, clock(|wants|).stored);
            UpTo(log, repoKey, wants + [w], clock, StepOn(was, s), had + if TooSoon(was, s) then [] else [w.taskKey])
  {
    var n := |wants|;
    assert TriesOf(repoKey, wants + [w], clock)[..n] == TriesOf(repoKey, wants, clock);
    assert (wants + [w])[..n] == wants;
  }

  // ---------------------------------------------------------------- which tasks are wanted

  /** Tasks of different repositories, and different tasks of one, do not share a key, as long as
      no repository's own key holds a colon. */
  lemma KeysTellApart(repo: string, task: string, repo': string, task': string)
    requires ':' !in repo && ':' !in repo'
    ensures KeyFor(repo, task) == KeyFor(repo', task') <==> repo == repo' && task == task'
  {
    ColonIsBehindRepo(repo, task);
    ColonIsBehindRepo(repo', task');
    if KeyFor(repo, task) == KeyFor(repo', task') {
      assert repo == KeyFor(repo, task)[..|repo|] && task == KeyFor(repo, task)[|repo| + 1..];
      assert repo' == KeyFor(repo, task)[..|repo|] && task' == KeyFor(repo, task)[|repo| + 1..];
    }
  }

  function FirstColon(s: string): nat { if s == [] || s[0] == ':' then 0 else 1 + FirstColon(s[1..]) }

  lemma {:induction false} ColonIsBehindRepo(repo: string, task: string)
    requires ':' !in repo
    ensures FirstColon(KeyFor(repo, task)) == |repo|
  {
    if repo == [] {
      assert KeyFor(repo, task) == ":" + task;
    } else {
      assert KeyFor(repo, task)[1..] == KeyFor(repo[1..], task) && repo[0] in repo;
      ColonIsBehindRepo(repo[1..], task);
    }
  }

  /** With a colon they may. */
  lemma ColonsMixKeysUp()
    ensures KeyFor("a:b", "c") == KeyFor("a", "b:c")
  {
  }

  lemma {:induction false} WantsOfMeans(taskKeys: seq<string>, interval: int, w: Want)
    ensures w in WantsOf(taskKeys, interval) <==> w.taskKey in taskKeys && w.taskKey != "" && w.interval == interval
  {
    if taskKeys != [] {
      WantsOfMeans(taskKeys[..|taskKeys| - 1], interval, w);
      assert taskKeys == taskKeys[..|taskKeys| - 1] + [taskKeys[|taskKeys| - 1]];
    }
  }

  /** A rule wants a task: it is enabled, synchronizes, fits the event's type and branch, and
      lists the task. */
  predicate Wanted(r: Rule, e: Event, accepts: Filter, w: Want) {
    && r.enabled && r.action == Sync
    && accepts(r.eventType, e.eventType) && accepts(r.branchPattern, e.branch)
    && w.taskKey in r.taskKeys && w.taskKey != "" && w.interval == r.minInterval
  }

  lemma {:induction false} WantsMean(rules: seq<Rule>, e: Event, accepts: Filter, w: Want)
    ensures w in Wants(rules, e, accepts) <==> exists r :: r in rules && Wanted(r, e, accepts, w)
  {
    if rules != [] {
      var last := rules[|rules| - 1];
      WantsMean(rules[..|rules| - 1], e, accepts, w);
      WantsOfMeans(last.taskKeys, last.minInterval, w);
      assert rules == rules[..|rules| - 1] + [last];
      assert last in rules;
    }
  }

  /** They are tried in the order of the rules, and of the tasks of a rule. */
  lemma {:induction false} WantsAreInOrder(a: seq<Rule>, b: seq<Rule>, e: Event, accepts: Filter)
    ensures Wants(a + b, e, accepts) == Wants(a, e, accepts) + Wants(b, e, accepts)
  {
    if b == [] {
      assert a + b == a;
    } else {
      var n := |b| - 1;
      assert (a + b)[..|a + b| - 1] == a + b[..n];
      WantsAreInOrder(a, b[..n], e, accepts);
    }
  }

  lemma {:induction false} TaskKeysAreInOrder(a: seq<string>, b: seq<string>, interval: int)
    ensures WantsOf(a + b, interval) == WantsOf(a, interval) + WantsOf(b, interval)
  {
    if b == [] {
      assert a + b == a;
    } else {
      var n := |b| - 1;
      assert (a + b)[..|a + b| - 1] == a + b[..n];
      TaskKeysAreInOrder(a, b[..n], interval);
    }
  }

  /** A task is triggered exactly if it is wanted and its try fires. */
  lemma {:induction false} TriggeredMeans(log: Log, repoKey: string, wants: seq<Want>, clock: nat -> Reading, t: string)
    ensures t in Triggered(log, repoKey, wants, clock) <==>
              exists i: nat :: i < |wants| && wants[i].taskKey == t && Fires(log, TriesOf(repoKey, wants, clock), i)
  {
    if wants != [] {
      var n := |wants| - 1;
      TriggeredMeans(log, repoKey, wants[..n], clock, t);
      assert TriesOf(repoKey, wants, clock)[..n] == TriesOf(repoKey, wants[..n], clock);
      forall i: nat | i < n
        ensures Fires(log, TriesOf(repoKey, wants, clock), i) <==> Fires(log, TriesOf(repoKey, wants[..n], clock), i)
      {
        assert TriesOf(repoKey, wants, clock)[..i] == TriesOf(repoKey, wants[..n], clock)[..i];
      }
    }
  }

  /** So a disabled rule, another kind of event, another branch or another action triggers
      nothing: whatever is triggered, some rule wants. */
  lemma OnlyWantedTasksRun(log: Log, repoKey: string, rules: seq<Rule>, e: Event, accepts: Filter,
      clock: nat -> Reading, t: string)
    returns (r: Rule)
    requires t in Triggered(log, repoKey, Wants(rules, e, accepts), clock)
    ensures r in rules && r.enabled && r.action == Sync && t in r.taskKeys && t != ""
    ensures accepts(r.eventType, e.eventType) && accepts(r.branchPattern, e.branch)
  {
    var wants := Wants(rules, e, accepts);
    TriggeredMeans(log, repoKey, wants, clock, t);
    var i: nat :| i < |wants| && wants[i].taskKey == t && Fires(log, TriesOf(repoKey, wants, clock), i);
    WantsMean(rules, e, accepts, wants[i]);
    r :| r in rules && Wanted(r, e, accepts, wants[i]);
  }

  /** And every task that a rule wants is tried under the rule's interval; it is triggered if that
      try fires, as it always does without an interval. */
  lemma WantedTasksAreTried(log: Log, repoKey: string, rules: seq<Rule>, e: Event, accepts: Filter,
      clock: nat -> Reading, r: Rule, t: string) returns (i: nat)
    requires r in rules && r.enabled && r.action == Sync && t in r.taskKeys && t != ""
    requires accepts(r.eventType, e.eventType) && accepts(r.branchPattern, e.branch)
    ensures var wants := Wants(rules, e, accepts);
            && i < |wants| && wants[i] == Want(t, r.minInterval)
            && (r.minInterval <= 0 ==> Fires(log, TriesOf(repoKey, wants, clock), i))
            && (Fires(log, TriesOf(repoKey, wants, clock), i) ==> t in Triggered(log, repoKey, wants, clock))
  {
    var wants, w := Wants(rules, e, accepts), Want(t, r.minInterval);
    WantsMean(rules, e, accepts, w);
    assert Wanted(r, e, accepts, w);
    i :| 0 <= i < |wants| && wants[i] == w;
    TriggeredMeans(log, repoKey, wants, clock, t);
  }

  // ---------------------------------------------------------------- what throttling means

  function Start(s: Step): int { if s.Try? then s.since else s.now }

  function End(s: Step): int { if s.Try? then s.stored else s.now }

  /** One step after the other, on a clock that never goes back. */
  predicate Orderly(steps: seq<Step>) {
    && (forall i :: 0 <= i < |steps| ==> Start(steps[i]) <= End(steps[i]))
    && (forall i, j :: 0 <= i < j < |steps| ==> End(steps[i]) <= Start(steps[j]))
  }

  /** Step i triggers a task and is remembered. */
  predicate Records(steps: seq<Step>, i: nat) {
    Fires(map[], steps, i) && steps[i].interval > 0
  }

  predicate Within(steps: seq<Step>, interval: int) {
    forall i :: 0 <= i < |steps| && steps[i].Try? ==> steps[i].interval <= interval
  }

  /** The remembered time of a key is that of its last trigger. */
  ghost predicate Grounded(log: Log, steps: seq<Step>, n: nat)
    requires n <= |steps|
  {
    forall k :: k in log ==>
      exists i :: 0 <= i < n && Records(steps, i) && steps[i].key == k && steps[i].stored == log[k]
  }

  /** A key that is not remembered was last triggered more than an hour ago. */
  ghost predicate Faithful(log: Log, steps: seq<Step>, n: nat, now: int)
    requires n <= |steps|
  {
    forall i :: 0 <= i < n && Records(steps, i) ==>
      if steps[i].key in log then steps[i].stored <= log[steps[i].key] else now - steps[i].stored > HOUR
  }

  lemma {:induction false} LogIsGrounded(steps: seq<Step>, n: nat)
    requires n <= |steps|
    ensures Grounded(LogAfter(map[], steps[..n]), steps, n)
  {
    if n > 0 {
      LogIsGrounded(steps, n - 1);
      assert steps[..n][..n - 1] == steps[..n - 1];
      var log, log' := LogAfter(map[], steps[..n - 1]), LogAfter(map[], steps[..n]);
      forall k | k in log'
        ensures exists i :: 0 <= i < n && Records(steps, i) && steps[i].key == k && steps[i].stored == log'[k] {
        if k in log && log'[k] == log[k] {
          var i :| 0 <= i < n - 1 && Records(steps, i) && steps[i].key == k && steps[i].stored == log[k];
        } else {
          assert Records(steps, n - 1);
        }
      }
    }
  }

  lemma {:induction false} LogIsFaithful(steps: seq<Step>, n: nat)
    requires Orderly(steps) && n <= |steps|
    ensures Faithful(LogAfter(map[], steps[..n]), steps, n, if n == 0 then 0 else End(steps[n - 1]))
  {
    if n > 0 {
      LogIsFaithful(steps, n - 1);
      assert steps[..n][..n - 1] == steps[..n - 1];
      StepKeepsFaithful(LogAfter(map[], steps[..n - 1]), steps, n - 1, if n == 1 then 0 else End(steps[n - 2]));
    }
  }

  lemma StepKeepsFaithful(log: Log, steps: seq<Step>, n: nat, now: int)
    requires Orderly(steps) && n < |steps| && (n > 0 ==> now <= Start(steps[n])) && Faithful(log, steps, n, now)
    requires log == LogAfter(map[], steps[..n])
    ensures Faithful(StepOn(log, steps[n]), steps, n + 1, End(steps[n]))
  {
    var log', now' := StepOn(log, steps[n]), End(steps[n]);
    forall i | 0 <= i < n + 1 && Records(steps, i)
      ensures if steps[i].key in log' then steps[i].stored <= log'[steps[i].key] else now' - steps[i].stored > HOUR
    {
      if i < n {
        assert End(steps[i]) <= Start(steps[n]);
      }
    }
  }

  /** What throttling is for, without any map: with intervals of at most an hour, a task is
      triggered exactly when no remembered trigger of its key is less than the rule's interval
      ago.  So pruning is never noticed. */
  lemma FiresExactlyWhenQuiet(steps: seq<Step>, j: nat)
    requires Orderly(steps) && Within(steps, 3600) && j < |steps| && steps[j].Try?
    ensures Fires(map[], steps, j) <==>
              forall i :: 0 <= i < j && steps[i].Try? && Records(steps, i) && steps[i].key == steps[j].key ==>
                steps[j].since - steps[i].stored >= steps[j].interval * SECOND
  {
    LogIsFaithful(steps, j);
    LogIsGrounded(steps, j);
    var log := LogAfter(map[], steps[..j]);
    if TooSoon(log, steps[j]) {
      var i :| 0 <= i < j && Records(steps, i) && steps[i].key == steps[j].key && steps[i].stored == log[steps[j].key];
    }
  }

  /** Two remembered triggers of one key are at least the later rule's interval apart. */
  lemma TriggersAreSpaced(steps: seq<Step>, i: nat, j: nat)
    requires Orderly(steps) && Within(steps, 3600) && i < j && Records(steps, i) && Records(steps, j)
      && steps[i].key == steps[j].key
    ensures steps[j].stored - steps[i].stored >= steps[j].interval * SECOND
  {
    FiresExactlyWhenQuiet(steps, j);
  }

  // ---------------------------------------------------------------- pruning

  /** The same steps on a map that is never pruned. */
  function FullLogAfter(log: Log, steps: seq<Step>): Log {
    if steps == [] then log
    else
      var before := FullLogAfter(log, steps[..|steps| - 1]);
      if steps[|steps| - 1].Try? then StepOn(before, steps[|steps| - 1]) else before
  }

  predicate FiresOnFullLog(steps: seq<Step>, i: nat) {
    i < |steps| && steps[i].Try? && !TooSoon(FullLogAfter(map[], steps[..i]), steps[i])
  }

  /** The pruned map is the full one without some entries of more than an hour ago. */
  predicate Remembers(log: Log, full: Log, now: int) {
    && (forall k :: k in log ==> k in full && log[k] == full[k])
    && (forall k :: k in full && k !in log ==> now - full[k] > HOUR)
  }

  lemma {:induction false} PruningIsUnseenUpTo(steps: seq<Step>, n: nat)
    requires Orderly(steps) && Within(steps, 3600) && n <= |steps|
    ensures Remembers(LogAfter(map[], steps[..n]), FullLogAfter(map[], steps[..n]),
                      if n == 0 then 0 else End(steps[n - 1]))
  {
    if n > 0 {
      PruningIsUnseenUpTo(steps, n - 1);
      assert steps[..n][..n - 1] == steps[..n - 1];
    }
  }

  /** Every decision is the one that the never-pruned map would lead to. */
  lemma {:induction false} PruningIsUnseen(steps: seq<Step>, i: nat)
    requires Orderly(steps) && Within(steps, 3600)
    ensures Fires(map[], steps, i) <==> FiresOnFullLog(steps, i)
  {
    if i < |steps| {
      PruningIsUnseenUpTo(steps, i);
    }
  }

  /** All runs whose intervals are at most this long are unaffected by pruning. */
  ghost predicate SafeInterval(interval: int) {
    forall steps, i: nat :: Orderly(steps) && Within(steps, interval) ==>
      (Fires(map[], steps, i) <==> FiresOnFullLog(steps, i))
  }

  /** An hour is the longest safe interval: with any longer one, a task can be triggered twice
      within it. */
  lemma {:induction false} AnHourIsTheLimit(interval: int)
    ensures SafeInterval(interval) <==> interval <= 3600
  {
    if interval <= 3600 {
      forall steps, i: nat | Orderly(steps) && Within(steps, interval)
        ensures Fires(map[], steps, i) <==> FiresOnFullLog(steps, i) {
        PruningIsUnseen(steps, i);
      }
    } else {
      PrunedTooEarly(interval);
    }
  }

  lemma PrunedTooEarly(interval: int)
    requires interval > 3600
    ensures !SafeInterval(interval)
  {
    var first := Try("r:t", interval, 0, 0);
    var prune := Prune(HOUR + 1);
    var second := Try("r:t", interval, HOUR + 1, HOUR + 1);
    var steps := [first, prune, second];
    assert steps[..2] == [first, prune] && [first, prune][..1] == [first];
    assert LogAfter(map[], [first]) == map["r:t" := 0];
    assert FullLogAfter(map[], [first]) == map["r:t" := 0];
    assert LogAfter(map[], steps[..2]) == map[];
    assert FullLogAfter(map[], steps[..2]) == map["r:t" := 0];
    assert Fires(map[], steps, 2) && !FiresOnFullLog(steps, 2);
  }
}
