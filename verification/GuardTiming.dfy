/** Exclusion across instances, from the timing of the watchdog: if less than one TTL passes
    between successive good ticks, whatever has been granted is still held.  Ticks 10 s
    apart give that, if two in a row never fail and each lands less than 10 s late. */
module GuardTiming {
  import opened Basics
  import opened RedisStore
  import opened GuardMachine
  import GuardSpec

  /** All readings come from one clock, and each is taken before its command lands.  A renewal
      that its client has given up may land late, but not so late that a later tick has been good
      in between: it would write a reading that is too old. */
  predicate OneClock(w: World, a: Action) {
    match a
    case AskSlot(_, read1, read2, _) => read1 <= read2 <= w.now
    case TickRenew(id, read, _) => id in w.execs ==> w.execs[id].tickAt <= read <= w.now
    case Late(_, LateSlot(read1, read2)) => read1 <= read2 <= w.now
    case Late(id, LateRenew(read)) => id in w.execs ==> w.execs[id].okAt <= read <= w.now
    case _ => true
  }

  /** The last good tick of every guarding execution is less than one TTL old. */
  ghost predicate Renewed(w: World) {
    forall id :: id in w.execs && w.execs[id].Guarding() ==> w.now < w.execs[id].okAt + LOCK_TTL
  }

  /** What the timing buys: whoever has been granted its slot or its lock still has it. */
  ghost predicate Leased(w: World) {
    forall id :: id in w.execs ==> LeaseFits(w, id, w.execs[id])
  }

  predicate LeaseFits(w: World, id: Token, e: Exec) {
    && RecordFits(w.now, e)
    && (e.Guarding() ==> SlotLeased(w.slots, id, e))
    && (e.phase.Holding? ==> LockLeased(w.locks, id, e))
  }

  predicate SlotLeased(slots: map<Token, int>, id: Token, e: Exec) {
    id in slots && e.okAt + SLOT_TTL <= slots[id]
  }

  predicate LockLeased(locks: map<string, Entry>, id: Token, e: Exec) {
    && e.key in locks && locks[e.key].value == id
    && e.okAt + LOCK_TTL <= locks[e.key].expireAt
    && (e.watch.Renewing? ==> e.tickAt + LOCK_TTL <= locks[e.key].expireAt)
  }

  predicate RecordFits(now: int, e: Exec) {
    && (e.Guarding() ==> e.okAt <= now)
    && (e.phase.Slotted? || e.phase.Entering? ==> e.watch.Unborn?)
    && (e.Guarding() && e.watch.Renewing? ==> e.okAt <= e.tickAt <= now)
  }

  ghost predicate Timed(w: World) { Owned(w) && Leased(w) }

  lemma OthersStayLeased(w: World, a: Action, id: Token)
    requires Timed(w) && Renewed(w) && Enabled(w, a) && !a.Pass? && OneClock(w, a)
    requires id in w.execs && id != a.id
    ensures LeaseFits(Apply(w, a), id, w.execs[id])
  {
    var e := w.execs[id];
    assert LeaseFits(w, id, e);
  }

  lemma ActorRecordFits(w: World, a: Action)
    requires Timed(w) && Renewed(w) && Enabled(w, a) && !a.Pass? && OneClock(w, a)
    ensures RecordFits(w.now, ExecAfter(w, a))
  {
    if a.id in w.execs {
      var e := w.execs[a.id];
      assert LeaseFits(w, a.id, e) && PhaseFits(e);
    }
  }

  lemma ActorSlotStaysLeased(w: World, a: Action)
    requires Timed(w) && Renewed(w) && Enabled(w, a) && !a.Pass? && OneClock(w, a)
    ensures ExecAfter(w, a).Guarding() ==> SlotLeased(SlotsAfter(w, a), a.id, ExecAfter(w, a))
  {
    if a.id in w.execs {
      var e := w.execs[a.id];
      assert LeaseFits(w, a.id, e) && PhaseFits(e);
    }
  }

  lemma ActorLockStaysLeased(w: World, a: Action)
    requires Timed(w) && Renewed(w) && Enabled(w, a) && !a.Pass? && OneClock(w, a)
    ensures ExecAfter(w, a).phase.Holding? ==> LockLeased(LocksAfter(w, a), a.id, ExecAfter(w, a))
  {
    if a.id in w.execs {
      var e := w.execs[a.id];
      assert LeaseFits(w, a.id, e) && PhaseFits(e);
    }
  }

  lemma ActorStaysLeased(w: World, a: Action)
    requires Timed(w) && Renewed(w) && Enabled(w, a) && !a.Pass? && OneClock(w, a)
    ensures LeaseFits(Apply(w, a), a.id, ExecAfter(w, a))
  {
    ActorRecordFits(w, a);
    ActorSlotStaysLeased(w, a);
    ActorLockStaysLeased(w, a);
  }

  lemma StepKeepsTimed(w: World, a: Action)
    requires Timed(w) && Renewed(w) && Enabled(w, a) && OneClock(w, a)
    ensures Timed(Apply(w, a))
  {
    StepKeepsOwned(w, a);
    var w' := Apply(w, a);
    forall id | id in w'.execs ensures LeaseFits(w', id, w'.execs[id]) {
      if a.Pass? {
        assert LeaseFits(w, id, w.execs[id]);
      } else if id == a.id {
        ActorStaysLeased(w, a);
      } else {
        OthersStayLeased(w, a, id);
      }
    }
  }

  ghost predicate IsTimedRun(ws: seq<World>, acts: seq<Action>) {
    && IsRun(ws, acts)
    && (forall i :: 0 <= i < |acts| ==> OneClock(ws[i], acts[i]))
    && (forall i :: 0 <= i < |ws| ==> Renewed(ws[i]))
  }

  lemma {:induction false} RunKeepsTimed(ws: seq<World>, acts: seq<Action>, i: nat)
    requires IsTimedRun(ws, acts) && i < |ws|
    ensures Timed(ws[i]) && ws[i].max == ws[0].max
  {
    if i > 0 {
      RunKeepsTimed(ws, acts, i - 1);
      StepKeepsOwned(ws[i - 1], acts[i - 1]);
      StepKeepsTimed(ws[i - 1], acts[i - 1]);
    }
  }

  // ---------------------------------------------------------------- the abstract guard

  function Abstract(w: World): GuardSpec.Guard {
    GuardSpec.Guard(w.max, Tokens(w.execs), Running(w.execs))
  }

  function Tokens(execs: map<Token, Exec>): set<Token> {
    set id | id in execs && execs[id].Guarding()
  }

  function Running(execs: map<Token, Exec>): map<Token, string> {
    map id | id in execs && execs[id].phase.Holding? :: execs[id].key
  }

  /** The abstract move a step amounts to, read off the record it changes. */
  function MoveOf(id: Token, before: Exec, after: Exec): GuardSpec.Move {
    if !before.Guarding() && after.phase.Slotted? then GuardSpec.TakeToken(id)
    else if before.phase.Slotted? && after.phase.Holding? then GuardSpec.Start(id, before.key)
    else if before.Guarding() && !after.Guarding() then GuardSpec.Leave(id)
    else GuardSpec.Stutter
  }

  lemma MoveIsAllowed(w: World, a: Action)
    requires Timed(w) && Renewed(w) && Enabled(w, a) && OneClock(w, a) && !a.Pass? && !a.Arrive?
    ensures GuardSpec.Allowed(Abstract(w), MoveOf(a.id, w.execs[a.id], ExecAfter(w, a)))
  {
    var m := MoveOf(a.id, w.execs[a.id], ExecAfter(w, a));
    if m.TakeToken? {
      // every guarding execution has an unexpired slot, so the purge spares it
      var current := Purge(w.slots, a.read1);
      forall id | id in Tokens(w.execs) ensures id in current {
        assert LeaseFits(w, id, w.execs[id]);
      }
      SubsetIsSmaller(Tokens(w.execs), current.Keys);
      assert |current.Keys| == |current|;
    } else if m.Start? {
      // every running execution has an unexpired lock entry, so SETNX respects it
      forall id | id in Running(w.execs) ensures Running(w.execs)[id] != m.key {
        assert LeaseFits(w, id, w.execs[id]);
      }
    }
  }

  lemma AbstractAfter(execs: map<Token, Exec>, id: Token, e: Exec)
    ensures Tokens(execs[id := e]) == if e.Guarding() then Tokens(execs) + {id} else Tokens(execs) - {id}
    ensures Running(execs[id := e]) == if e.phase.Holding? then Running(execs)[id := e.key] else Running(execs) - {id}
  {
  }

  /** An execution comes to hold the guard only by way of a slot, and never changes its task. */
  lemma GrantsAreOrdered(w: World, a: Action)
    requires Enabled(w, a) && !a.Pass? && !a.Arrive?
    ensures var before, after := w.execs[a.id], ExecAfter(w, a);
            && after.key == before.key
            && (after.phase.Slotted? ==> !before.phase.Holding?)
            && (after.phase.Holding? ==> before.Guarding())
  {
  }

  lemma DoneIsAbstract(g: GuardSpec.Guard, execs: map<Token, Exec>, id: Token, after: Exec)
    requires id in execs && g.tokens == Tokens(execs) && g.running == Running(execs)
    requires after.key == execs[id].key
    requires after.phase.Slotted? ==> !execs[id].phase.Holding?
    requires after.phase.Holding? ==> execs[id].Guarding()
    ensures var g' := GuardSpec.Do(g, MoveOf(id, execs[id], after));
            g'.cap == g.cap && g'.tokens == Tokens(execs[id := after]) && g'.running == Running(execs[id := after])
  {
    AbstractAfter(execs, id, after);
    AbstractAfter(execs, id, execs[id]);
    assert execs[id := execs[id]] == execs;
  }

  lemma GrantedMove(g: GuardSpec.Guard, execs: map<Token, Exec>, id: Token, after: Exec, g': GuardSpec.Guard)
    requires id in execs && g.tokens == Tokens(execs) && g.running == Running(execs)
    requires after.key == execs[id].key
    requires after.phase.Slotted? ==> !execs[id].phase.Holding?
    requires after.phase.Holding? ==> execs[id].Guarding()
    requires g' == GuardSpec.Guard(g.cap, Tokens(execs[id := after]), Running(execs[id := after]))
    requires GuardSpec.Allowed(g, MoveOf(id, execs[id], after))
    ensures GuardSpec.Next(g, g')
  {
    DoneIsAbstract(g, execs, id, after);
    assert GuardSpec.Do(g, MoveOf(id, execs[id], after)) == g';
  }

  lemma ActorRefines(w: World, a: Action)
    requires Timed(w) && Renewed(w) && Enabled(w, a) && OneClock(w, a) && !a.Pass? && !a.Arrive?
    ensures GuardSpec.Next(Abstract(w),
      GuardSpec.Guard(w.max, Tokens(w.execs[a.id := ExecAfter(w, a)]), Running(w.execs[a.id := ExecAfter(w, a)])))
  {
    MoveIsAllowed(w, a);
    GrantsAreOrdered(w, a);
    var execs' := w.execs[a.id := ExecAfter(w, a)];
    GrantedMove(Abstract(w), w.execs, a.id, ExecAfter(w, a), GuardSpec.Guard(w.max, Tokens(execs'), Running(execs')));
  }

  lemma ArrivalRefines(w: World, a: Action)
    requires Enabled(w, a) && a.Arrive?
    ensures Abstract(Apply(w, a)) == Abstract(w)
  {
    AbstractAfter(w.execs, a.id, ExecAfter(w, a));
  }

  /** Under the timing, every step of the Redis guard is a move of the abstract guard. */
  lemma StepRefines(w: World, a: Action)
    requires Timed(w) && Renewed(w) && Enabled(w, a) && OneClock(w, a)
    ensures GuardSpec.Next(Abstract(w), Abstract(Apply(w, a)))
  {
    if a.Pass? || a.Arrive? {
      if a.Arrive? { ArrivalRefines(w, a); }
      assert GuardSpec.Do(Abstract(w), GuardSpec.Stutter) == Abstract(w);
    } else {
      ActorRefines(w, a);
    }
  }

  lemma RunRefines(ws: seq<World>, acts: seq<Action>)
    requires IsTimedRun(ws, acts)
    ensures GuardSpec.IsBehavior(seq(|ws|, i requires 0 <= i < |ws| => Abstract(ws[i])))
  {
    var gs := seq(|ws|, i requires 0 <= i < |ws| => Abstract(ws[i]));
    forall i | 0 < i < |gs| ensures GuardSpec.Next(gs[i - 1], gs[i]) {
      RunKeepsTimed(ws, acts, i - 1);
      StepRefines(ws[i - 1], acts[i - 1]);
    }
    assert gs[0] == GuardSpec.Empty(ws[0].max);
  }

  function Holders(w: World): set<Token> {
    set id | id in w.execs && w.execs[id].phase.Holding?
  }

  /** Timed exclusion: in every state of every timed run no two executions hold the guard
      for one task key, and at most max executions hold it. */
  lemma TimedExclusion(ws: seq<World>, acts: seq<Action>, i: nat)
    requires IsTimedRun(ws, acts) && i < |ws|
    ensures forall a, b ::
              In(ws[i], a, Holding) && In(ws[i], b, Holding) && ws[i].execs[a].key == ws[i].execs[b].key ==> a == b
    ensures |Holders(ws[i])| <= ws[0].max
  {
    RunRefines(ws, acts);
    var gs := seq(|ws|, i requires 0 <= i < |ws| => Abstract(ws[i]));
    GuardSpec.BehaviorsAreSafe(gs, i);
    assert Holders(ws[i]) == gs[i].running.Keys;
    SubsetIsSmaller(Holders(ws[i]), gs[i].tokens);
    forall a, b | In(ws[i], a, Holding) && In(ws[i], b, Holding) && ws[i].execs[a].key == ws[i].execs[b].key
      ensures a == b
    {
      assert a in gs[i].running && b in gs[i].running && gs[i].running[a] == gs[i].running[b];
    }
  }
}
