/** Where the timing comes from, and that it is needed. */
module GuardTicks {
  import opened RedisStore
  import opened GuardMachine
  import opened GuardTiming

  /** A ticker delivers its n-th tick no earlier than n intervals after it was made. */
  predicate TickerIsHonest(w: World, a: Action) {
    a.TickExtend? && a.id in w.execs ==> w.execs[a.id].Due() <= w.now
  }

  /** From when the ticks of e count: when its ticker was made; until its first good tick, the
      reading that its slot was taken with, as the slot and the lock are as old as that. */
  function Origin(e: Exec): int { if e.lastOk == 0 then e.base else e.start }

  /** The watchdog of e keeps up: at most one tick since the last good one has failed, and it
      is not yet 10 s past the nominal time of the next tick. */
  predicate KeepsUp(e: Exec, now: int) {
    && e.ticks <= e.lastOk + 1
    && now < Origin(e) + RENEW_INTERVAL * (e.ticks + 1) + RENEW_INTERVAL
  }

  ghost predicate Prompt(w: World) {
    forall id :: id in w.execs && w.execs[id].Guarding() ==> KeepsUp(w.execs[id], w.now)
  }

  /** A good tick is no older than its nominal time. */
  ghost predicate Nominal(w: World) {
    forall id :: id in w.execs ==> NominalFits(w.now, w.execs[id])
  }

  predicate NominalFits(now: int, e: Exec) {
    && (e.phase.Entering? || e.phase.Slotted? ==> e.watch.Unborn?)
    && (e.watch.Unborn? ==> e.ticks == e.lastOk == 0)
    && (e.Guarding() ==> e.base <= now && Origin(e) + RENEW_INTERVAL * e.lastOk <= e.okAt)
    && (e.Guarding() && !e.watch.Unborn? ==> e.base <= e.start)
    && (e.Guarding() && e.lastOk > 0 ==> !e.watch.Unborn?)
    && (e.Guarding() && e.watch.Renewing? ==> e.Due() <= e.tickAt)
  }

  lemma ActorStaysNominal(w: World, a: Action)
    requires Nominal(w) && Enabled(w, a) && OneClock(w, a) && TickerIsHonest(w, a) && !a.Pass?
    ensures NominalFits(w.now, ExecAfter(w, a))
  {
    assert a.id in w.execs ==> NominalFits(w.now, w.execs[a.id]);
  }

  lemma StepKeepsNominal(w: World, a: Action)
    requires Nominal(w) && Enabled(w, a) && OneClock(w, a) && TickerIsHonest(w, a)
    ensures Nominal(Apply(w, a))
  {
    if !a.Pass? {
      ActorStaysNominal(w, a);
    }
    var w' := Apply(w, a);
    forall id | id in w'.execs && (a.Pass? || id != a.id) ensures NominalFits(w'.now, w'.execs[id]) {
      assert NominalFits(w.now, w.execs[id]);
    }
  }

  ghost predicate IsPromptRun(ws: seq<World>, acts: seq<Action>) {
    && IsRun(ws, acts)
    && (forall i :: 0 <= i < |acts| ==> OneClock(ws[i], acts[i]) && TickerIsHonest(ws[i], acts[i]))
    && (forall i :: 0 <= i < |ws| ==> Prompt(ws[i]))
  }

  lemma {:induction false} RunKeepsNominal(ws: seq<World>, acts: seq<Action>, i: nat)
    requires IsPromptRun(ws, acts) && i < |ws|
    ensures Nominal(ws[i])
  {
    if i > 0 {
      RunKeepsNominal(ws, acts, i - 1);
      assert Enabled(ws[i - 1], acts[i - 1]) && ws[i] == Apply(ws[i - 1], acts[i - 1]);
      StepKeepsNominal(ws[i - 1], acts[i - 1]);
    }
  }

  /** Two intervals and a delay of less than 10 s fit into the TTL of 30 s: ticks of which
      no two in a row fail, each landing less than 10 s late, renew in time.  Only until the
      first good tick is the time between the reading for the slot and the making of the
      ticker part of the delay. */
  lemma PromptTicksRenewInTime(ws: seq<World>, acts: seq<Action>)
    requires IsPromptRun(ws, acts)
    ensures IsTimedRun(ws, acts)
  {
    forall i | 0 <= i < |ws| ensures Renewed(ws[i]) {
      RunKeepsNominal(ws, acts, i);
      forall id | id in ws[i].execs && ws[i].execs[id].Guarding()
        ensures ws[i].now < ws[i].execs[id].okAt + LOCK_TTL
      {
        assert NominalFits(ws[i].now, ws[i].execs[id]) && KeepsUp(ws[i].execs[id], ws[i].now);
      }
    }
  }

  /** Hence exclusion and the bound, from the tick schedule alone. */
  lemma PromptExclusion(ws: seq<World>, acts: seq<Action>, i: nat)
    requires IsPromptRun(ws, acts) && i < |ws|
    ensures forall a, b ::
              In(ws[i], a, Holding) && In(ws[i], b, Holding) && ws[i].execs[a].key == ws[i].execs[b].key ==> a == b
    ensures |Holders(ws[i])| <= ws[0].max
  {
    PromptTicksRenewInTime(ws, acts);
    TimedExclusion(ws, acts, i);
  }

  // ---------------------------------------------------------------- the bounds are exact

  /** How late a renewal may land: the slot still covers the last good tick if and only if the
      reading is not older than that tick. */
  lemma LateRenewKeepsSlotExactlyWhen(w: World, id: Token, read: int)
    requires Timed(w) && Renewed(w) && In(w, id, Holding) && Enabled(w, Late(id, LateRenew(read)))
    ensures var w' := Apply(w, Late(id, LateRenew(read)));
            SlotLeased(w'.slots, id, w'.execs[id]) <==> w.execs[id].okAt <= read
  {
    assert LeaseFits(w, id, w.execs[id]);
  }

  /** Like a timed run, except that a good tick may be exactly one TTL old. */
  ghost predicate IsLaxRun(ws: seq<World>, acts: seq<Action>) {
    && IsRun(ws, acts)
    && (forall i :: 0 <= i < |acts| ==> OneClock(ws[i], acts[i]))
    && (forall w :: w in ws ==> Lax(w))
  }

  ghost predicate Lax(w: World) {
    forall id :: id in w.execs && w.execs[id].Guarding() ==> w.now <= w.execs[id].okAt + LOCK_TTL
  }

  lemma Extend(ws: seq<World>, acts: seq<Action>, a: Action, w: World)
    requires IsLaxRun(ws, acts) && Enabled(ws[|acts|], a) && OneClock(ws[|acts|], a)
    requires w == Apply(ws[|acts|], a) && Lax(w)
    ensures IsLaxRun(ws + [w], acts + [a])
  {
  }

  function Record(key: string, phase: Phase, t: int): Exec {
    Exec(key, phase, Unborn, t, t, 0, 0, 0, 0, t, false, false)
  }

  /** An Acquire that finds every slot and every entry for its key expired holds the guard. */
  lemma AcquireAmongExpired(ws: seq<World>, acts: seq<Action>, w: World, id: Token, key: string)
    returns (ws': seq<World>, acts': seq<Action>, w': World)
    requires IsLaxRun(ws, acts) && w == ws[|acts|]
    requires id !in w.execs && w.max > 0 && Purge(w.slots, w.now) == map[] && !Live(w.locks, key, w.now)
    ensures IsLaxRun(ws', acts') && w' == ws'[|acts'|]
    ensures w' == World(w.now, w.max, w.locks[key := Entry(id, w.now + LOCK_TTL)], map[id := w.now + SLOT_TTL],
      w.execs[id := Record(key, Holding, w.now)])
  {
    var w2: World;
    ws', acts', w2 := SlotLeg(ws, acts, w, id, key);
    w' := w2.(locks := w.locks[key := Entry(id, w.now + LOCK_TTL)],
      execs := w.execs[id := Record(key, Holding, w.now)]);
    assert w2.execs[id := Record(key, Holding, w.now)] == w'.execs;
    assert Apply(w2, AskLock(id, Answered)) == w';
    Extend(ws', acts', AskLock(id, Answered), w');
    ws', acts' := ws' + [w'], acts' + [AskLock(id, Answered)];
  }

  lemma SlotLeg(ws: seq<World>, acts: seq<Action>, w: World, id: Token, key: string)
    returns (ws': seq<World>, acts': seq<Action>, w2: World)
    requires IsLaxRun(ws, acts) && w == ws[|acts|]
    requires id !in w.execs && w.max > 0 && Purge(w.slots, w.now) == map[]
    ensures IsLaxRun(ws', acts') && w2 == ws'[|acts'|] && Lax(w)
    ensures w2 == w.(slots := map[id := w.now + SLOT_TTL], execs := w.execs[id := Record(key, Slotted, w.now)])
  {
    var w1 := w.(execs := w.execs[id := Record(key, Entering, 0)]);
    assert Apply(w, Arrive(id, key)) == w1;
    assert Lax(w);
    Extend(ws, acts, Arrive(id, key), w1);
    w2 := w.(slots := map[id := w.now + SLOT_TTL], execs := w.execs[id := Record(key, Slotted, w.now)]);
    SlotAmongExpired(w1, id, key, w2);
    Extend(ws + [w1], acts + [Arrive(id, key)], AskSlot(id, w.now, w.now, Answered), w2);
    ws', acts' := ws + [w1] + [w2], acts + [Arrive(id, key)] + [AskSlot(id, w.now, w.now, Answered)];
  }

  lemma SlotAmongExpired(w1: World, id: Token, key: string, w2: World)
    requires id in w1.execs && w1.execs[id] == Record(key, Entering, 0)
    requires w1.max > 0 && Purge(w1.slots, w1.now) == map[]
    requires w2 == w1.(slots := map[id := w1.now + SLOT_TTL], execs := w1.execs[id := Record(key, Slotted, w1.now)])
    ensures Enabled(w1, AskSlot(id, w1.now, w1.now, Answered)) && Apply(w1, AskSlot(id, w1.now, w1.now, Answered)) == w2
  {
    assert |Purge(w1.slots, w1.now)| == 0;
  }

  /** The TTL is exactly how late a renewal may be: while the last good tick of every
      execution is at most one TTL old, a second execution can already hold the same task. */
  lemma OneTtlIsTooLate(key: string) returns (ws: seq<World>, acts: seq<Action>)
    ensures IsLaxRun(ws, acts)
    ensures exists w :: w in ws && In(w, 0, Holding) && In(w, 1, Holding) && w.execs[0].key == w.execs[1].key == key
  {
    var w0 := Start(1, 0);
    assert Purge(w0.slots, w0.now) == map[];
    var w3, w7: World;
    ws, acts, w3 := AcquireAmongExpired([w0], [], w0, 0, key);
    var w4 := w3.(now := LOCK_TTL);
    Extend(ws, acts, Pass(LOCK_TTL), w4);
    assert Purge(w4.slots, w4.now) == map[];
    ws, acts := ws + [w4], acts + [Pass(LOCK_TTL)];
    ws, acts, w7 := AcquireAmongExpired(ws, acts, w4, 1, key);
    assert w7 in ws && In(w7, 0, Holding) && In(w7, 1, Holding);
  }
}
