/** The Redis-backed guard as a protocol.  Every execution is one call of Acquire and what
    follows it: the slot, the lock, the watchdog that renews both, and the release.  Each
    Redis command is one atomic step, any number of executions on any number of instances
    interleave, and a step may be lost, dropped, never taken, or land after its client has
    given it up. */
module GuardMachine {
  import opened RedisStore

  datatype Phase =
    | Entering      // about to ask for a slot
    | Slotted       // has a slot, about to ask for the task lock
    | RollingBack   // the lock was refused or failed, about to give the slot back
    | Holding       // Acquire has returned; the task runs
    | Unlocking     // release has closed the stop channel
    | Freeing       // release has called unlock
    | Finished      // release has returned
    | Refused       // Acquire has returned an error
    | Crashed

  /** Where the watchdog goroutine stands. */
  datatype Watch = Unborn | Waiting | Renewing | Stopped

  /** One execution.  Its number stands for its semaphore member and for its lock value.
      The rest is its history: base is the clock reading its slot was taken with, slotStamp
      the reading last written to the slot, start the time its ticker was made, ticks the
      number of ticks taken, tickAt the time the extension of the current tick landed,
      lastOk and okAt the number and the time of the last tick whose two calls both
      succeeded (Acquire itself is tick 0), unlocked and freed whether its unlock and the
      release of its slot have run. */
  datatype Exec = Exec(
    key: string, phase: Phase, watch: Watch,
    base: int, slotStamp: int, start: int, ticks: nat, tickAt: int, lastOk: nat, okAt: int,
    unlocked: bool, freed: bool)
  {
    predicate Guarding() { phase.Slotted? || phase.Holding? }
    predicate Closed() { phase.Unlocking? || phase.Freeing? || phase.Finished? }
    /** The nominal time of the next tick. */
    function Due(): int { start + RENEW_INTERVAL * (ticks + 1) }
  }

  datatype World = World(now: int, max: nat, locks: map<string, Entry>, slots: map<Token, int>, execs: map<Token, Exec>)

  datatype Action =
    | Pass(d: nat)
    | Arrive(id: Token, key: string)
    | AskSlot(id: Token, read1: int, read2: int, reply: Reply)
    | AskLock(id: Token, reply: Reply)
    | GiveBack(id: Token, reply: Reply)
    | StartWatch(id: Token)
    | TickExtend(id: Token, reply: Reply)
    | TickRenew(id: Token, read: int, reply: Reply)
    | Close(id: Token)
    | Unlock(id: Token, reply: Reply)
    | Free(id: Token, reply: Reply)
    | StopWatch(id: Token)
    | Crash(id: Token)
    | Late(id: Token, c: Command)

  /** A command that lands after its client has given it up: the client has gone on as if it had
      been dropped. */
  datatype Command =
    | LateSlot(read1: int, read2: int)
    | LateLock
    | LateExtend
    | LateRenew(read: int)
    | LateUnlock
    | LateDrop

  function Start(max: nat, now: int): World { World(now, max, map[], map[], map[]) }

  predicate In(w: World, id: Token, phase: Phase) {
    id in w.execs && w.execs[id].phase == phase
  }

  predicate Enabled(w: World, a: Action) {
    match a
    case Pass(_) => true
    case Arrive(id, _) => id !in w.execs
    case AskSlot(id, _, _, _) => In(w, id, Entering)
    case AskLock(id, _) => In(w, id, Slotted)
    case GiveBack(id, _) => In(w, id, RollingBack)
    case StartWatch(id) => id in w.execs && (w.execs[id].phase.Holding? || w.execs[id].Closed())
      && w.execs[id].watch.Unborn?
    case TickExtend(id, _) => id in w.execs && !w.execs[id].phase.Crashed? && w.execs[id].watch.Waiting?
    case TickRenew(id, _, _) => id in w.execs && !w.execs[id].phase.Crashed? && w.execs[id].watch.Renewing?
    case Close(id) => In(w, id, Holding)
    case Unlock(id, _) => In(w, id, Unlocking)
    case Free(id, _) => In(w, id, Freeing)
    case StopWatch(id) => id in w.execs && w.execs[id].Closed() && w.execs[id].watch.Waiting?
    case Crash(id) => id in w.execs && !w.execs[id].phase.Crashed?
    case Late(id, c) => id in w.execs && MayBeLate(w.execs[id], c)
  }

  /** The client may have given up such a command: it has left the phase in which it issues it,
      and has not had the answer that only this command brings. */
  predicate MayBeLate(e: Exec, c: Command) {
    match c
    case LateSlot(_, _) => (e.phase.Refused? || e.phase.Crashed?) && !e.freed
    case LateLock => (e.phase.RollingBack? || e.phase.Refused? || e.phase.Crashed?) && !e.unlocked
    case LateExtend => !e.watch.Unborn?
    case LateRenew(_) => !e.watch.Unborn?
    case LateUnlock => e.phase.Freeing? || e.phase.Finished? || e.phase.Crashed?
    case LateDrop => e.phase.Refused? || e.phase.Finished? || e.phase.Crashed?
  }

  function LocksAfter(w: World, a: Action): map<string, Entry>
    requires Enabled(w, a)
  {
    match a
    case AskLock(id, reply) => if reply.Ran() then SetNX(w.locks, w.execs[id].key, id, LOCK_TTL, w.now).0 else w.locks
    case TickExtend(id, reply) => if reply.Ran() then ExtendIfHeld(w.locks, w.execs[id].key, id, LOCK_TTL, w.now)
      else w.locks
    case Unlock(id, reply) => if reply.Ran() then DeleteIfHeld(w.locks, w.execs[id].key, id) else w.locks
    case Late(id, LateLock) => SetNX(w.locks, w.execs[id].key, id, LOCK_TTL, w.now).0
    case Late(id, LateExtend) => ExtendIfHeld(w.locks, w.execs[id].key, id, LOCK_TTL, w.now)
    case Late(id, LateUnlock) => DeleteIfHeld(w.locks, w.execs[id].key, id)
    case _ => w.locks
  }

  function SlotsAfter(w: World, a: Action): map<Token, int>
    requires Enabled(w, a)
  {
    match a
    case AskSlot(id, read1, read2, reply) => if reply.Ran() then TakeSlot(w.slots, id, w.max, read1, read2 + SLOT_TTL).0
      else w.slots
    case TickRenew(id, read, reply) => if reply.Ran() then RenewSlot(w.slots, id, read + SLOT_TTL) else w.slots
    case GiveBack(id, reply) => if reply.Ran() then DropSlot(w.slots, id) else w.slots
    case Free(id, reply) => if reply.Ran() then DropSlot(w.slots, id) else w.slots
    case Late(id, LateSlot(read1, read2)) => TakeSlot(w.slots, id, w.max, read1, read2 + SLOT_TTL).0
    case Late(id, LateRenew(read)) => RenewSlot(w.slots, id, read + SLOT_TTL)
    case Late(id, LateDrop) => DropSlot(w.slots, id)
    case _ => w.slots
  }

  function ExecAfter(w: World, a: Action): Exec
    requires Enabled(w, a) && !a.Pass?
  {
    if a.Arrive? then Exec(a.key, Entering, Unborn, 0, 0, 0, 0, 0, 0, 0, false, false) else
    var e := w.execs[a.id];
    match a
    case AskSlot(id, read1, read2, reply) =>
      var got := reply.Ran() && TakeSlot(w.slots, id, w.max, read1, read2 + SLOT_TTL).1;
      var e' := if got then e.(base := read2, slotStamp := read2, okAt := read2) else e;
      e'.(phase := if got && !reply.Failed() then Slotted else Refused)
    case AskLock(id, reply) =>
      var got := reply.Ran() && SetNX(w.locks, e.key, id, LOCK_TTL, w.now).1;
      e.(phase := if got && !reply.Failed() then Holding else RollingBack)
    case GiveBack(_, reply) => e.(phase := Refused, freed := reply.Ran())
    case StartWatch(_) => e.(watch := Waiting, start := w.now)
    case TickExtend(_, reply) =>
      // Only an error skips the slot: the script's own answer is not looked at.
      if reply.Failed() then e.(ticks := e.ticks + 1) else e.(watch := Renewing, tickAt := w.now)
    case TickRenew(_, read, reply) =>
      var e' := if reply.Ran() then e.(slotStamp := read) else e;
      var e'' := if reply.Failed() then e' else e'.(lastOk := e.ticks + 1, okAt := e.tickAt);
      e''.(watch := Waiting, ticks := e.ticks + 1)
    case Close(_) => e.(phase := Unlocking)
    case Unlock(_, reply) => e.(phase := Freeing, unlocked := reply.Ran())
    case Free(_, reply) => e.(phase := Finished, freed := reply.Ran())
    case StopWatch(_) => e.(watch := Stopped)
    case Crash(_) => e.(phase := Crashed)
    case Late(id, LateSlot(read1, read2)) => if TakeSlot(w.slots, id, w.max, read1, read2 + SLOT_TTL).1
      then e.(slotStamp := read2) else e
    case Late(_, LateRenew(read)) => e.(slotStamp := read)
    case Late(_, LateUnlock) => e.(unlocked := true)
    case Late(_, LateDrop) => e.(freed := true)
    case Late(_, _) => e
  }

  function Apply(w: World, a: Action): World
    requires Enabled(w, a)
  {
    if a.Pass? then w.(now := w.now + a.d)
    else World(w.now, w.max, LocksAfter(w, a), SlotsAfter(w, a), w.execs[a.id := ExecAfter(w, a)])
  }

  ghost predicate IsRun(ws: seq<World>, acts: seq<Action>) {
    && |ws| == |acts| + 1
    && ws[0] == Start(ws[0].max, ws[0].now)
    && (forall i :: 0 <= i < |acts| ==> Enabled(ws[i], acts[i]) && ws[i + 1] == Apply(ws[i], acts[i]))
  }

  // ---------------------------------------------------------------- any timing at all

  /** What holds in every state of every run, with arbitrary clocks, delays and crashes. */
  ghost predicate Owned(w: World) {
    && |w.slots| <= w.max
    && LocksFit(w.locks, w.execs)
    && SlotsFit(w.slots, w.execs)
    && (forall id :: id in w.execs ==> PhaseFits(w.execs[id]))
  }

  /** Every entry was written by an execution that wants that key, has asked for the lock
      and has not unlocked. */
  ghost predicate LocksFit(locks: map<string, Entry>, execs: map<Token, Exec>) {
    forall k :: k in locks ==> LockFits(k, locks[k].value, execs)
  }

  predicate LockFits(key: string, id: Token, execs: map<Token, Exec>) {
    id in execs && MayLock(execs[id], key)
  }

  predicate MayLock(e: Exec, key: string) {
    e.key == key && !e.unlocked && !e.phase.Entering? && !e.phase.Slotted?
  }

  /** Every slot was taken by an execution that has not released it, and carries the
      reading of its last renewal. */
  ghost predicate SlotsFit(slots: map<Token, int>, execs: map<Token, Exec>) {
    forall m :: m in slots ==> SlotFits(m, slots[m], execs)
  }

  predicate SlotFits(id: Token, score: int, execs: map<Token, Exec>) {
    id in execs && MayHaveSlot(execs[id], score)
  }

  predicate MayHaveSlot(e: Exec, score: int) {
    !e.freed && !e.phase.Entering? && score == e.slotStamp + SLOT_TTL
  }

  predicate PhaseFits(e: Exec) {
    && (e.unlocked ==> e.phase.Freeing? || e.phase.Finished? || e.phase.Crashed?)
    && (e.freed ==> e.phase.Refused? || e.phase.Finished? || e.phase.Crashed?)
    && (!e.watch.Unborn? ==> e.phase.Holding? || e.Closed() || e.phase.Crashed?)
  }

  lemma LocksStillFit(locks: map<string, Entry>, execs: map<Token, Exec>, locks': map<string, Entry>, id: Token,
      e: Exec)
    requires LocksFit(locks, execs)
    requires forall k :: k in locks' && k in locks && locks'[k] == locks[k] && locks[k].value == id ==> MayLock(e, k)
    requires forall k :: k in locks' && !(k in locks && locks'[k] == locks[k]) ==>
      locks'[k].value == id && MayLock(e, k)
    ensures LocksFit(locks', execs[id := e])
  {
    forall k | k in locks' ensures LockFits(k, locks'[k].value, execs[id := e]) {
      if k in locks && locks'[k] == locks[k] {
        assert LockFits(k, locks[k].value, execs);
      }
    }
  }

  lemma SlotsStillFit(slots: map<Token, int>, execs: map<Token, Exec>, slots': map<Token, int>, id: Token, e: Exec)
    requires SlotsFit(slots, execs)
    requires forall m :: m in slots' && m != id ==> m in slots && slots'[m] == slots[m]
    requires id in slots' ==> MayHaveSlot(e, slots'[id])
    ensures SlotsFit(slots', execs[id := e])
  {
    forall m | m in slots' ensures SlotFits(m, slots'[m], execs[id := e]) {
      if m != id {
        assert SlotFits(m, slots[m], execs);
      }
    }
  }

  lemma LocksFitAfter(w: World, a: Action)
    requires Owned(w) && Enabled(w, a) && !a.Pass?
    ensures LocksFit(LocksAfter(w, a), w.execs[a.id := ExecAfter(w, a)])
  {
    assert forall k :: k in w.locks ==> LockFits(k, w.locks[k].value, w.execs);
    assert a.id in w.execs ==> PhaseFits(w.execs[a.id]);
    LocksStillFit(w.locks, w.execs, LocksAfter(w, a), a.id, ExecAfter(w, a));
  }

  lemma SlotsFitAfter(w: World, a: Action)
    requires Owned(w) && Enabled(w, a) && !a.Pass?
    ensures SlotsFit(SlotsAfter(w, a), w.execs[a.id := ExecAfter(w, a)])
  {
    assert a.id in w.slots ==> SlotFits(a.id, w.slots[a.id], w.execs);
    assert a.id in w.execs ==> PhaseFits(w.execs[a.id]);
    SlotsStillFit(w.slots, w.execs, SlotsAfter(w, a), a.id, ExecAfter(w, a));
  }

  lemma StepKeepsBound(w: World, a: Action)
    requires |w.slots| <= w.max && Enabled(w, a)
    ensures |SlotsAfter(w, a)| <= w.max
  {
    match a
    case AskSlot(id, read1, read2, _) => TakeSlotStaysBounded(w.slots, id, w.max, read1, read2 + SLOT_TTL);
    case TickRenew(id, read, _) => RenewSlotStaysBounded(w.slots, id, read + SLOT_TTL);
    case Late(id, LateSlot(read1, read2)) => TakeSlotStaysBounded(w.slots, id, w.max, read1, read2 + SLOT_TTL);
    case Late(id, LateRenew(read)) => RenewSlotStaysBounded(w.slots, id, read + SLOT_TTL);
    case _ => SubMapIsSmaller(SlotsAfter(w, a), w.slots);
  }

  lemma PhaseFitsAfter(w: World, a: Action)
    requires Enabled(w, a) && !a.Pass? && (a.id in w.execs ==> PhaseFits(w.execs[a.id]))
    ensures PhaseFits(ExecAfter(w, a))
  {
  }

  lemma StepKeepsOwned(w: World, a: Action)
    requires Owned(w) && Enabled(w, a)
    ensures Owned(Apply(w, a)) && Apply(w, a).max == w.max
  {
    StepKeepsBound(w, a);
    if !a.Pass? {
      LocksFitAfter(w, a);
      SlotsFitAfter(w, a);
      PhaseFitsAfter(w, a);
    }
  }

  lemma {:induction false} RunKeepsOwned(ws: seq<World>, acts: seq<Action>, i: nat)
    requires IsRun(ws, acts) && i < |ws|
    ensures Owned(ws[i]) && ws[i].max == ws[0].max
  {
    if i > 0 {
      RunKeepsOwned(ws, acts, i - 1);
      StepKeepsOwned(ws[i - 1], acts[i - 1]);
    }
  }
}
