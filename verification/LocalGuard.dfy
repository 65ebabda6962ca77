/** The in-process guard: a buffered channel of tokens and a map of running tasks, used by
    any number of goroutines whose channel and map operations interleave. */
module LocalGuard {
  import opened Basics
  import GuardSpec

  datatype Phase =
    | Calling    // about to try the channel
    | HasToken   // about to store its task key
    | Backing    // the key was taken; about to receive its token back
    | Running    // Acquire has returned
    | Deleted    // release has deleted the key; about to receive its token back
    | Gone

  datatype Thread = Thread(key: string, phase: Phase) {
    predicate Holds() { phase.HasToken? || phase.Backing? || phase.Running? || phase.Deleted? }
  }

  /** len is the length of the channel, tasks are the keys of the map. */
  datatype State = State(cap: nat, len: nat, tasks: set<string>, threads: map<nat, Thread>)

  datatype Step =
    | Call(id: nat, key: string)
    | TrySend(id: nat)
    | LoadOrStore(id: nat)
    | SendBack(id: nat)
    | Delete(id: nat)
    | Receive(id: nat)

  predicate In(s: State, id: nat, phase: Phase) {
    id in s.threads && s.threads[id].phase == phase
  }

  /** A receive from an empty channel would block. */
  predicate Enabled(s: State, a: Step) {
    match a
    case Call(id, _) => id !in s.threads
    case TrySend(id) => In(s, id, Calling)
    case LoadOrStore(id) => In(s, id, HasToken)
    case SendBack(id) => In(s, id, Backing) && s.len > 0
    case Delete(id) => In(s, id, Running)
    case Receive(id) => In(s, id, Deleted) && s.len > 0
  }

  function ThreadAfter(s: State, a: Step): Thread
    requires Enabled(s, a)
  {
    match a
    case Call(_, key) => Thread(key, Calling)
    case TrySend(id) => s.threads[id].(phase := if s.len < s.cap then HasToken else Gone)
    case LoadOrStore(id) => s.threads[id].(phase := if s.threads[id].key in s.tasks then Backing else Running)
    case SendBack(id) => s.threads[id].(phase := Gone)
    case Delete(id) => s.threads[id].(phase := Deleted)
    case Receive(id) => s.threads[id].(phase := Gone)
  }

  function LenAfter(s: State, a: Step): nat
    requires Enabled(s, a)
  {
    if a.TrySend? && s.len < s.cap then s.len + 1
    else if a.SendBack? || a.Receive? then s.len - 1
    else s.len
  }

  function TasksAfter(s: State, a: Step): set<string>
    requires Enabled(s, a)
  {
    if a.LoadOrStore? then s.tasks + {s.threads[a.id].key}
    else if a.Delete? then s.tasks - {s.threads[a.id].key}
    else s.tasks
  }

  function Apply(s: State, a: Step): State
    requires Enabled(s, a)
  {
    State(s.cap, LenAfter(s, a), TasksAfter(s, a), s.threads[a.id := ThreadAfter(s, a)])
  }

  function Holders(threads: map<nat, Thread>): set<nat> {
    set id | id in threads && threads[id].Holds()
  }

  function Runners(threads: map<nat, Thread>): map<nat, string> {
    map id | id in threads && threads[id].phase.Running? :: threads[id].key
  }

  ghost predicate Valid(s: State) {
    && s.len == |Holders(s.threads)| <= s.cap
    && s.tasks == Runners(s.threads).Values
    && (forall a, b :: In(s, a, Running) && In(s, b, Running) && s.threads[a].key == s.threads[b].key ==> a == b)
  }

  lemma HoldersAfter(threads: map<nat, Thread>, id: nat, t: Thread)
    ensures Holders(threads[id := t]) == if t.Holds() then Holders(threads) + {id} else Holders(threads) - {id}
  {
  }

  lemma RunnersAfter(threads: map<nat, Thread>, id: nat, t: Thread)
    ensures Runners(threads[id := t]) == if t.phase.Running? then Runners(threads)[id := t.key]
      else Runners(threads) - {id}
  {
  }

  lemma SizeWithout(all: set<nat>, id: nat)
    ensures |all| == |all - {id}| + if id in all then 1 else 0
    ensures |all + {id}| == |all - {id}| + 1
  {
    assert all + {id} == (all - {id}) + {id};
    assert id !in all ==> all - {id} == all;
  }

  lemma CountAfter(threads: map<nat, Thread>, id: nat, t: Thread)
    ensures |Holders(threads[id := t])| ==
              |Holders(threads)|
              + (if t.Holds() then 1 else 0)
              - (if id in threads && threads[id].Holds() then 1 else 0)
  {
    HoldersAfter(threads, id, t);
    SizeWithout(Holders(threads), id);
  }

  lemma LenFits(s: State, a: Step)
    requires Valid(s) && Enabled(s, a)
    ensures LenAfter(s, a) == |Holders(s.threads[a.id := ThreadAfter(s, a)])| <= s.cap
  {
    CountAfter(s.threads, a.id, ThreadAfter(s, a));
  }

  /** The keys of the runners, when one of them leaves, joins, or neither. */
  lemma KeysWithout(r: map<nat, string>, id: nat)
    requires id in r && forall a, b :: a in r && b in r && r[a] == r[b] ==> a == b
    ensures (r - {id}).Values == r.Values - {r[id]}
  {
    var r' := r - {id};
    forall key ensures key in r'.Values <==> key in r.Values - {r[id]} {
      if key in r.Values - {r[id]} {
        var x :| x in r && r[x] == key;
        assert x in r' && r'[x] == key;
      }
    }
  }

  lemma KeysWith(r: map<nat, string>, id: nat, key: string)
    requires id !in r
    ensures r[id := key].Values == r.Values + {key}
  {
    var r' := r[id := key];
    forall k ensures k in r'.Values <==> k in r.Values + {key} {
      if k in r.Values {
        var x :| x in r && r[x] == k;
        assert r'[x] == k;
      }
      assert r'[id] == key;
    }
  }

  lemma TasksFit(s: State, a: Step)
    requires Valid(s) && Enabled(s, a)
    ensures TasksAfter(s, a) == Runners(s.threads[a.id := ThreadAfter(s, a)]).Values
  {
    RunnersAfter(s.threads, a.id, ThreadAfter(s, a));
    var r := Runners(s.threads);
    assert forall id :: id in r <==> In(s, id, Running);
    if a.Delete? {
      KeysWithout(r, a.id);
    } else if a.LoadOrStore? && s.threads[a.id].key !in s.tasks {
      KeysWith(r, a.id, s.threads[a.id].key);
    } else {
      assert r - {a.id} == r;
      assert TasksAfter(s, a) == s.tasks;
    }
  }

  lemma KeysStayDistinct(s: State, a: Step, x: nat, y: nat)
    requires Valid(s) && Enabled(s, a)
    requires var s' := Apply(s, a); In(s', x, Running) && In(s', y, Running) && s'.threads[x].key == s'.threads[y].key
    ensures x == y
  {
    var r := Runners(s.threads);
    assert In(s, x, Running) ==> x in r && r[x] in r.Values;
    assert In(s, y, Running) ==> y in r && r[y] in r.Values;
  }

  lemma StepKeepsValid(s: State, a: Step)
    requires Valid(s) && Enabled(s, a)
    ensures Valid(Apply(s, a))
  {
    var s' := Apply(s, a);
    LenFits(s, a);
    TasksFit(s, a);
    forall x, y | In(s', x, Running) && In(s', y, Running) && s'.threads[x].key == s'.threads[y].key ensures x == y {
      KeysStayDistinct(s, a, x, y);
    }
  }

  ghost predicate IsRun(ss: seq<State>, acts: seq<Step>) {
    && |ss| == |acts| + 1
    && ss[0] == State(ss[0].cap, 0, {}, map[])
    && (forall i :: 0 <= i < |acts| ==> Enabled(ss[i], acts[i]) && ss[i + 1] == Apply(ss[i], acts[i]))
  }

  lemma {:induction false} RunKeepsValid(ss: seq<State>, acts: seq<Step>, i: nat)
    requires IsRun(ss, acts) && i < |ss|
    ensures Valid(ss[i]) && ss[i].cap == ss[0].cap
  {
    if i > 0 {
      RunKeepsValid(ss, acts, i - 1);
      StepKeepsValid(ss[i - 1], acts[i - 1]);
    } else {
      assert Holders(ss[0].threads) == {} && Runners(ss[0].threads) == map[];
    }
  }

  /** In every state of every interleaving: the channel holds one token per goroutine that
      owes one, the map holds exactly the keys of the running goroutines, each key once, and
      no more than cap of them run. */
  lemma ChannelAndMapAgree(ss: seq<State>, acts: seq<Step>, i: nat)
    requires IsRun(ss, acts) && i < |ss|
    ensures ss[i].len == |Holders(ss[i].threads)| <= ss[0].cap
    ensures forall key :: key in ss[i].tasks <==> exists id :: In(ss[i], id, Running) && ss[i].threads[id].key == key
    ensures forall a, b ::
              In(ss[i], a, Running) && In(ss[i], b, Running) && ss[i].threads[a].key == ss[i].threads[b].key ==> a == b
    ensures |Runners(ss[i].threads)| == |ss[i].tasks| <= ss[0].cap
  {
    RunKeepsValid(ss, acts, i);
    var r := Runners(ss[i].threads);
    forall key ensures key in ss[i].tasks <==> exists id :: In(ss[i], id, Running) && ss[i].threads[id].key == key {
      if key in ss[i].tasks {
        var id :| id in r && r[id] == key;
        assert In(ss[i], id, Running);
      }
      if id :| In(ss[i], id, Running) && ss[i].threads[id].key == key {
        assert id in r && r[id] == key;
      }
    }
    assert forall a, b :: a in r && b in r && r[a] == r[b] ==> In(ss[i], a, Running) && In(ss[i], b, Running);
    InjectiveSize(r);
    assert r.Keys <= Holders(ss[i].threads);
    SubsetIsSmaller(r.Keys, Holders(ss[i].threads));
  }

  /** Neither receive of the guard ever blocks. */
  lemma ReceivesNeverBlock(ss: seq<State>, acts: seq<Step>, i: nat, id: nat)
    requires IsRun(ss, acts) && i < |ss|
    ensures In(ss[i], id, Backing) ==> Enabled(ss[i], SendBack(id))
    ensures In(ss[i], id, Deleted) ==> Enabled(ss[i], Receive(id))
  {
    RunKeepsValid(ss, acts, i);
    assert In(ss[i], id, Backing) || In(ss[i], id, Deleted) ==> id in Holders(ss[i].threads);
  }

  /** When no goroutine is inside the guard, nothing is left in it. */
  lemma QuietGuardIsEmpty(ss: seq<State>, acts: seq<Step>, i: nat)
    requires IsRun(ss, acts) && i < |ss|
    requires forall id :: id in ss[i].threads ==> !ss[i].threads[id].Holds()
    ensures ss[i].len == 0 && ss[i].tasks == {}
  {
    RunKeepsValid(ss, acts, i);
    assert Holders(ss[i].threads) == {} && Runners(ss[i].threads) == map[];
  }

  lemma {:induction false} InjectiveSize(m: map<nat, string>)
    requires forall a, b :: a in m && b in m && m[a] == m[b] ==> a == b
    ensures |m| == |m.Values|
    decreases |m|
  {
    if m != map[] {
      var a :| a in m;
      var m' := m - {a};
      assert m' == map b | b in m && b != a :: m[b];
      assert m.Keys == m'.Keys + {a};
      InjectiveSize(m');
      forall v ensures v in m.Values <==> v in m'.Values + {m[a]} {
        if v in m.Values {
          var b :| b in m && m[b] == v;
          assert b == a || (b in m' && m'[b] == v);
        }
      }
      assert m.Values == m'.Values + {m[a]};
      assert m[a] !in m'.Values;
    }
  }

  // ---------------------------------------------------------------- the abstract guard

  function Abstract(s: State): GuardSpec.Guard {
    GuardSpec.Guard(s.cap, Holders(s.threads), Runners(s.threads))
  }

  function MoveOf(s: State, a: Step): GuardSpec.Move
    requires Enabled(s, a)
  {
    match a
    case Call(_, _) => GuardSpec.Stutter
    case TrySend(id) => if s.len < s.cap then GuardSpec.TakeToken(id) else GuardSpec.Stutter
    case LoadOrStore(id) => if s.threads[id].key in s.tasks then GuardSpec.Stutter
      else GuardSpec.Start(id, s.threads[id].key)
    case SendBack(id) => GuardSpec.Leave(id)
    case Delete(id) => GuardSpec.Stop(id)
    case Receive(id) => GuardSpec.Leave(id)
  }

  lemma MoveIsAllowed(s: State, a: Step)
    requires Valid(s) && Enabled(s, a)
    ensures GuardSpec.Allowed(Abstract(s), MoveOf(s, a))
  {
    var r := Runners(s.threads);
    assert forall other :: other in r ==> r[other] in r.Values;
    assert a.id in Holders(s.threads) <==> a.id in s.threads && s.threads[a.id].Holds();
  }

  lemma TokensMove(s: State, a: Step)
    requires Valid(s) && Enabled(s, a)
    ensures GuardSpec.Do(Abstract(s), MoveOf(s, a)).tokens == Holders(Apply(s, a).threads)
  {
    HoldersAfter(s.threads, a.id, ThreadAfter(s, a));
    assert a.id in Holders(s.threads) <==> a.id in s.threads && s.threads[a.id].Holds();
  }

  lemma RunnersMove(s: State, a: Step)
    requires Valid(s) && Enabled(s, a)
    ensures GuardSpec.Do(Abstract(s), MoveOf(s, a)).running == Runners(Apply(s, a).threads)
  {
    RunnersAfter(s.threads, a.id, ThreadAfter(s, a));
    assert a.id in Runners(s.threads) <==> In(s, a.id, Running);
    assert Runners(s.threads) - {a.id} == Runners(s.threads) <==> !In(s, a.id, Running);
  }

  /** Every step of the channel and the map is a move of the abstract guard. */
  lemma StepRefines(s: State, a: Step)
    requires Valid(s) && Enabled(s, a)
    ensures GuardSpec.Next(Abstract(s), Abstract(Apply(s, a)))
  {
    MoveIsAllowed(s, a);
    TokensMove(s, a);
    RunnersMove(s, a);
    assert GuardSpec.Do(Abstract(s), MoveOf(s, a)) == Abstract(Apply(s, a));
  }

  lemma RunRefines(ss: seq<State>, acts: seq<Step>)
    requires IsRun(ss, acts)
    ensures GuardSpec.IsBehavior(seq(|ss|, i requires 0 <= i < |ss| => Abstract(ss[i])))
  {
    var gs := seq(|ss|, i requires 0 <= i < |ss| => Abstract(ss[i]));
    forall i | 0 < i < |gs| ensures GuardSpec.Next(gs[i - 1], gs[i]) {
      RunKeepsValid(ss, acts, i - 1);
      StepRefines(ss[i - 1], acts[i - 1]);
    }
    assert gs[0] == GuardSpec.Empty(ss[0].cap);
  }

  // ---------------------------------------------------------------- one caller alone

  datatype Grant = Granted | TooManyConcurrent | TaskRunning

  /** One undisturbed stretch of the protocol, taken by the goroutine id. */
  ghost predicate IsPath(ss: seq<State>, acts: seq<Step>, id: nat) {
    && |ss| == |acts| + 1
    && (forall i :: 0 <= i < |acts| ==>
      acts[i].id == id && Enabled(ss[i], acts[i]) && ss[i + 1] == Apply(ss[i], acts[i]))
  }

  lemma PathGrows(ss: seq<State>, acts: seq<Step>, id: nat, a: Step)
    requires IsPath(ss, acts, id) && a.id == id && Enabled(ss[|acts|], a)
    ensures IsPath(ss + [Apply(ss[|acts|], a)], acts + [a], id)
  {
  }

  /** A path goes on by one step. */
  lemma GoOn(ss: seq<State>, acts: seq<Step>, id: nat, a: Step) returns (ss': seq<State>, acts': seq<Step>, s': State)
    requires IsPath(ss, acts, id) && Valid(ss[|acts|]) && a.id == id && Enabled(ss[|acts|], a)
    ensures IsPath(ss', acts', id) && ss'[0] == ss[0] && ss'[|acts'|] == s' == Apply(ss[|acts|], a) && Valid(s')
  {
    PathGrows(ss, acts, id, a);
    StepKeepsValid(ss[|acts|], a);
    s' := Apply(ss[|acts|], a);
    ss', acts' := ss + [s'], acts + [a];
  }

  lemma BackingHolds(s: State, id: nat)
    requires Valid(s) && In(s, id, Backing)
    ensures Enabled(s, SendBack(id))
  {
    assert id in Holders(s.threads);
  }

  lemma TokenLeg(s: State, id: nat) returns (ss: seq<State>, acts: seq<Step>, s': State)
    requires Valid(s) && In(s, id, Calling)
    ensures IsPath(ss, acts, id) && ss[0] == s && ss[|acts|] == s' && Valid(s')
    ensures In(s', id, if s.len < s.cap then HasToken else Gone) && s'.threads[id].key == s.threads[id].key
    ensures s'.cap == s.cap && s'.tasks == s.tasks && s'.len == if s.len < s.cap then s.len + 1 else s.len
  {
    s' := Apply(s, TrySend(id));
    PathGrows([s], [], id, TrySend(id));
    StepKeepsValid(s, TrySend(id));
    ss, acts := [s] + [s'], [] + [TrySend(id)];
  }

  lemma TaskLeg(ss: seq<State>, acts: seq<Step>, id: nat) returns (ss': seq<State>, acts': seq<Step>, s': State)
    requires IsPath(ss, acts, id) && Valid(ss[|acts|]) && In(ss[|acts|], id, HasToken)
    ensures IsPath(ss', acts', id) && ss'[0] == ss[0] && ss'[|acts'|] == s' && Valid(s') && s'.cap == ss[|acts|].cap
    ensures var s := ss[|acts|];
            var taken := s.threads[id].key in s.tasks;
            && In(s', id, if taken then Gone else Running)
            && s'.len == (if taken then s.len - 1 else s.len)
            && s'.tasks == s.tasks + {s.threads[id].key}
  {
    ss', acts', s' := GoOn(ss, acts, id, LoadOrStore(id));
    if In(s', id, Backing) {
      BackingHolds(s', id);
      ss', acts', s' := GoOn(ss', acts', id, SendBack(id));
    }
  }

  lemma ReleaseLeg(s: State, id: nat) returns (ss: seq<State>, acts: seq<Step>, s': State)
    requires Valid(s) && In(s, id, Running)
    ensures IsPath(ss, acts, id) && ss[0] == s && ss[|acts|] == s' && Valid(s')
    ensures In(s', id, Gone) && s.len > 0
    ensures s'.cap == s.cap && s'.len == s.len - 1 && s'.tasks == s.tasks - {s.threads[id].key}
  {
    var s1 := Apply(s, Delete(id));
    PathGrows([s], [], id, Delete(id));
    StepKeepsValid(s, Delete(id));
    assert id in Holders(s1.threads);
    s' := Apply(s1, Receive(id));
    PathGrows([s] + [s1], [] + [Delete(id)], id, Receive(id));
    StepKeepsValid(s1, Receive(id));
    ss, acts := [s] + [s1] + [s'], [] + [Delete(id)] + [Receive(id)];
  }

  /** The guard as its callers see it between two switches of goroutine. */
  class Guard {
    const cap: nat
    var sem: nat
    var runningTasks: set<string>

    ghost predicate Mirrors(s: State) reads this {
      s.cap == cap && s.len == sem && s.tasks == runningTasks
    }

    constructor (maxConcurrent: int)
      ensures cap == (if maxConcurrent <= 0 then 5 else maxConcurrent) && Mirrors(State(cap, 0, {}, map[]))
    {
      cap, sem, runningTasks := if maxConcurrent <= 0 then 5 else maxConcurrent, 0, {};
    }

    /** Acquire takes steps of the protocol, and when it is refused it leaves nothing behind. */
    method Acquire(taskKey: string, id: nat, ghost s: State)
        returns (g: Grant, ghost ss: seq<State>, ghost acts: seq<Step>)
      requires Valid(s) && Mirrors(s) && In(s, id, Calling) && s.threads[id].key == taskKey
      modifies this
      ensures IsPath(ss, acts, id) && ss[0] == s && Valid(ss[|acts|]) && Mirrors(ss[|acts|])
      ensures In(ss[|acts|], id, if g.Granted? then Running else Gone)
      ensures g.TooManyConcurrent? <==> old(sem) == cap
      ensures g.TaskRunning? <==> old(sem) < cap && taskKey in old(runningTasks)
      ensures !g.Granted? ==> sem == old(sem) && runningTasks == old(runningTasks)
      ensures g.Granted? ==> sem == old(sem) + 1 && runningTasks == old(runningTasks) + {taskKey}
    {
      ghost var s1, s2: State;
      ss, acts, s1 := TokenLeg(s, id);
      if sem == cap {
        return TooManyConcurrent, ss, acts;
      }
      sem := sem + 1;
      ss, acts, s2 := TaskLeg(ss, acts, id);
      if taskKey in runningTasks {
        sem := sem - 1;
        return TaskRunning, ss, acts;
      }
      runningTasks := runningTasks + {taskKey};
      return Granted, ss, acts;
    }

    /** The function Acquire returns. */
    method Release(taskKey: string, id: nat, ghost s: State) returns (ghost ss: seq<State>, ghost acts: seq<Step>)
      requires Valid(s) && Mirrors(s) && In(s, id, Running) && s.threads[id].key == taskKey
      modifies this
      ensures IsPath(ss, acts, id) && ss[0] == s && Valid(ss[|acts|]) && Mirrors(ss[|acts|]) && In(ss[|acts|], id, Gone)
      ensures sem == old(sem) - 1 && runningTasks == old(runningTasks) - {taskKey}
    {
      ghost var s2;
      ss, acts, s2 := ReleaseLeg(s, id);
      runningTasks := runningTasks - {taskKey};
      sem := sem - 1;
    }
  }
}
