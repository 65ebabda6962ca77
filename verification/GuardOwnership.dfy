/** What the Redis guard keeps without any assumption about time: clocks may be skewed,
    entries may expire at any moment, executions may stall or crash, ticks may come late. */
module GuardOwnership {
  import opened RedisStore
  import opened GuardMachine

  predicate By(a: Action, id: Token) { !a.Pass? && a.id == id }

  /** Nobody deletes, extends or overwrites a live lock entry written under another value. */
  lemma OthersLockIsUntouched(ws: seq<World>, acts: seq<Action>, i: nat, key: string)
    requires IsRun(ws, acts) && i < |acts|
    requires Live(ws[i].locks, key, ws[i].now) && !By(acts[i], ws[i].locks[key].value)
    ensures key in ws[i + 1].locks && ws[i + 1].locks[key] == ws[i].locks[key]
  {
    assert Enabled(ws[i], acts[i]) && ws[i + 1] == Apply(ws[i], acts[i]);
  }

  /** The action does not purge a slot that expires then. */
  predicate Spares(a: Action, expire: int) {
    match a
    case AskSlot(_, read1, _, _) => read1 < expire
    case Late(_, LateSlot(read1, _)) => read1 < expire
    case _ => true
  }

  /** A slot of another execution is never renewed, and is removed only by a purge whose
      clock reading has reached its expiry. */
  lemma OthersSlotIsUntouched(ws: seq<World>, acts: seq<Action>, i: nat, m: Token)
    requires IsRun(ws, acts) && i < |acts|
    requires m in ws[i].slots && !By(acts[i], m)
    requires Spares(acts[i], ws[i].slots[m])
    ensures m in ws[i + 1].slots && ws[i + 1].slots[m] == ws[i].slots[m]
  {
    assert Enabled(ws[i], acts[i]) && ws[i + 1] == Apply(ws[i], acts[i]);
  }

  lemma {:induction false} HistoryStays(ws: seq<World>, acts: seq<Action>, i: nat, j: nat, id: Token)
    requires IsRun(ws, acts) && i <= j < |ws| && id in ws[i].execs
    ensures id in ws[j].execs
    ensures ws[i].execs[id].unlocked ==> ws[j].execs[id].unlocked
    ensures ws[i].execs[id].freed ==> ws[j].execs[id].freed
  {
    if i < j {
      HistoryStays(ws, acts, i, j - 1, id);
      RunKeepsOwned(ws, acts, j - 1);
      assert PhaseFits(ws[j - 1].execs[id]);
      assert Enabled(ws[j - 1], acts[j - 1]) && ws[j] == Apply(ws[j - 1], acts[j - 1]);
    }
  }

  /** Once its unlock has run, in time or late, an execution has no lock entry in any later state, whatever
      ticks of its watchdog are still in flight and whatever else lands late. */
  lemma UnlockIsFinal(ws: seq<World>, acts: seq<Action>, i: nat, j: nat, id: Token, key: string)
    requires IsRun(ws, acts) && i < j < |ws|
    requires By(acts[i], id) && (if acts[i].Unlock? then acts[i].reply.Ran() else acts[i] == Late(id, LateUnlock))
    ensures key in ws[j].locks ==> ws[j].locks[key].value != id
  {
    assert Enabled(ws[i], acts[i]) && ws[i + 1] == Apply(ws[i], acts[i]);
    HistoryStays(ws, acts, i + 1, j, id);
    RunKeepsOwned(ws, acts, j);
    assert key in ws[j].locks ==> LockFits(key, ws[j].locks[key].value, ws[j].execs);
  }

  /** Once its slot has been given back, by the release or by the rollback of a failed
      Acquire, an execution has no slot in any later state. */
  lemma FreeIsFinal(ws: seq<World>, acts: seq<Action>, i: nat, j: nat, id: Token)
    requires IsRun(ws, acts) && i < j < |ws|
    requires By(acts[i], id)
    requires if acts[i].Free? || acts[i].GiveBack? then acts[i].reply.Ran() else acts[i] == Late(id, LateDrop)
    ensures id !in ws[j].slots
  {
    assert Enabled(ws[i], acts[i]) && ws[i + 1] == Apply(ws[i], acts[i]);
    HistoryStays(ws, acts, i + 1, j, id);
    RunKeepsOwned(ws, acts, j);
    assert id in ws[j].slots ==> SlotFits(id, ws[j].slots[id], ws[j].execs);
  }

  /** The semaphore never holds more than max members, whatever the clocks of its clients say. */
  lemma SemaphoreBound(ws: seq<World>, acts: seq<Action>, i: nat)
    requires IsRun(ws, acts) && i < |ws|
    ensures |ws[i].slots| <= ws[0].max
  {
    RunKeepsOwned(ws, acts, i);
  }

  // ---------------------------------------------------------------- recovery after a crash

  /** None of its commands that take or renew anything lands, in time or late. */
  predicate Silent(acts: seq<Action>, i: nat, j: nat, id: Token) {
    forall k :: 0 <= i <= k < j <= |acts| && By(acts[k], id) ==>
      !acts[k].AskSlot? && !acts[k].TickRenew? && !acts[k].AskLock? && !acts[k].TickExtend? && !acts[k].Late?
  }

  lemma {:induction false} SilentStampStays(ws: seq<World>, acts: seq<Action>, i: nat, j: nat, id: Token)
    requires IsRun(ws, acts) && i <= j < |ws| && id in ws[i].execs && Silent(acts, i, j, id)
    ensures id in ws[j].execs && ws[j].execs[id].slotStamp == ws[i].execs[id].slotStamp
  {
    if i < j {
      SilentStampStays(ws, acts, i, j - 1, id);
      assert Enabled(ws[j - 1], acts[j - 1]) && ws[j] == Apply(ws[j - 1], acts[j - 1]);
    }
  }

  /** A holder that has renewed its slot for the last time with a reading of at most c no
      longer counts in an Acquire that reads c plus the slot TTL or later; that Acquire is
      granted exactly when fewer than max other slots are unexpired. */
  lemma SilentSlotLapses(ws: seq<World>, acts: seq<Action>, i: nat, j: nat, id: Token, c: int)
    requires IsRun(ws, acts) && i <= j < |acts| && id in ws[i].execs && Silent(acts, i, j, id)
    requires ws[i].execs[id].slotStamp <= c
    requires acts[j].AskSlot? && acts[j].id != id && acts[j].reply == Answered && c + SLOT_TTL <= acts[j].read1
    ensures id !in ws[j + 1].slots
    ensures In(ws[j + 1], acts[j].id, Slotted) <==>
              |set m | m in ws[j].slots && m != id && acts[j].read1 < ws[j].slots[m]| < ws[j].max
  {
    assert Enabled(ws[j], acts[j]) && ws[j + 1] == Apply(ws[j], acts[j]);
    SilentStampStays(ws, acts, i, j, id);
    RunKeepsOwned(ws, acts, j);
    assert id in ws[j].slots ==> SlotFits(id, ws[j].slots[id], ws[j].execs);
    var current := Purge(ws[j].slots, acts[j].read1);
    assert current.Keys == set m | m in ws[j].slots && m != id && acts[j].read1 < ws[j].slots[m];
  }

  ghost predicate LeasesBounded(w: World, from: World, id: Token) {
    forall k :: k in w.locks && w.locks[k].value == id ==> w.locks[k].expireAt <= from.now + LOCK_TTL
  }

  lemma {:induction false} LeasesStayBounded(ws: seq<World>, acts: seq<Action>, i: nat, id: Token)
    requires IsRun(ws, acts) && i < |ws|
    ensures LeasesBounded(ws[i], ws[i], id)
  {
    if i > 0 {
      LeasesStayBounded(ws, acts, i - 1, id);
      assert Enabled(ws[i - 1], acts[i - 1]) && ws[i] == Apply(ws[i - 1], acts[i - 1]);
    }
  }

  lemma {:induction false} SilentLeaseStays(ws: seq<World>, acts: seq<Action>, i: nat, j: nat, id: Token)
    requires IsRun(ws, acts) && i <= j < |ws| && Silent(acts, i, j, id)
    ensures LeasesBounded(ws[j], ws[i], id)
  {
    if i == j {
      LeasesStayBounded(ws, acts, i, id);
    } else {
      SilentLeaseStays(ws, acts, i, j - 1, id);
      assert Enabled(ws[j - 1], acts[j - 1]) && ws[j] == Apply(ws[j - 1], acts[j - 1]);
    }
  }

  /** A holder that has fallen silent keeps nobody out of its task for longer than the lock TTL. */
  lemma SilentLockLapses(ws: seq<World>, acts: seq<Action>, i: nat, j: nat, id: Token, key: string)
    requires IsRun(ws, acts) && i <= j < |ws| && Silent(acts, i, j, id)
    requires ws[i].now + LOCK_TTL <= ws[j].now
    ensures !HeldBy(ws[j].locks, key, id, ws[j].now)
  {
    SilentLeaseStays(ws, acts, i, j, id);
  }
}
