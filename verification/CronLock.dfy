/** The short lock that every instance asks for when its cron entry fires.  It is never
    released: it lapses after 10 s, well before the next tick of a five-field cron line. */
module CronLock {
  import opened RedisStore
  import opened RedisLock

  const CRON_TTL: int := 10_000
  const MINUTE: int := 60_000

  /** One instance's entry for a task fires for the tick-th time of the schedule; its SETNX
      lands at the given time, or never.  The n-th fire of a run draws the value n. */
  datatype Fire = Fire(at: int, tick: nat, reply: Reply)

  /** The lock table after the first n fires. */
  function After(locks: map<string, Entry>, key: string, fires: seq<Fire>, n: nat): map<string, Entry>
    requires n <= |fires|
  {
    if n == 0 then locks
    else
      var before := After(locks, key, fires, n - 1);
      if fires[n - 1].reply.Ran() then SetNX(before, key, n - 1, CRON_TTL, fires[n - 1].at).0 else before
  }

  /** Whether fire n gets past TryCronLock and runs the task. */
  predicate Runs(locks: map<string, Entry>, key: string, fires: seq<Fire>, n: nat)
    requires n < |fires|
  {
    fires[n].reply.Answered? && SetNX(After(locks, key, fires, n), key, n, CRON_TTL, fires[n].at).1
  }

  /** The job that an instance's cron entry runs. */
  method CronJob(rlock: RedisLock, taskKey: string, value: Token, reply: Reply) returns (runs: bool)
    requires rlock.Valid() && value !in rlock.redis.drawnBy
    modifies rlock, rlock.redis`locks, rlock.redis`drawnBy
    ensures rlock.Valid()
    ensures var key := LockKey("cron:" + taskKey);
            var granted := SetNX(old(rlock.redis.locks), key, value, CRON_TTL, rlock.redis.now);
            && rlock.redis.locks == (if reply.Ran() then granted.0 else old(rlock.redis.locks))
            && runs == (reply.Answered? && granted.1)
  {
    var locked := rlock.TryLockWithTTL("cron:" + taskKey, CRON_TTL, value, reply);
    if locked.Err? {
      return false;
    }
    return locked.value;
  }

  /** The fires reach Redis in time order; tick t is due at due(t), a minute or more after
      the one before, and each instance's SETNX lands less than 10 s after it was due. */
  ghost predicate Scheduled(fires: seq<Fire>, due: nat -> int) {
    && (forall t: nat, u: nat :: t < u ==> due(t) + MINUTE <= due(u))
    && (forall i :: 0 <= i < |fires| ==> due(fires[i].tick) <= fires[i].at < due(fires[i].tick) + CRON_TTL)
    && (forall i, j :: 0 <= i < j < |fires| ==> fires[i].at <= fires[j].at)
  }

  /** The first fire of its tick whose command has run. */
  predicate FirstOfTick(fires: seq<Fire>, n: nat)
    requires n < |fires|
  {
    fires[n].reply.Ran() && forall i :: 0 <= i < n && fires[i].tick == fires[n].tick ==> !fires[i].reply.Ran()
  }

  lemma TicksAreOrdered(fires: seq<Fire>, due: nat -> int, i: nat, j: nat)
    requires Scheduled(fires, due) && i < j < |fires|
    ensures fires[i].tick <= fires[j].tick
  {
    var earlier, later := fires[j].tick, fires[i].tick;
    assert earlier < later ==> due(earlier) + MINUTE <= due(later);
  }

  /** The first fire of a tick comes after every earlier entry has lapsed. */
  lemma NewTick(fires: seq<Fire>, due: nat -> int, n: nat)
    requires Scheduled(fires, due) && 0 < n < |fires| && fires[n - 1].tick != fires[n].tick
    ensures forall i :: 0 <= i < n ==> fires[i].tick != fires[n].tick && fires[i].at + CRON_TTL <= fires[n].at
  {
    forall i | 0 <= i < n ensures fires[i].tick != fires[n].tick && fires[i].at + CRON_TTL <= fires[n].at {
      TicksAreOrdered(fires, due, n - 1, n);
      if i < n - 1 {
        TicksAreOrdered(fires, due, i, n - 1);
      }
      assert due(fires[i].tick) + MINUTE <= due(fires[n].tick);
    }
  }

  /** After a fire, the entry is that of the first fire of its tick whose command has run; if
      there is none yet, nothing keeps the next one out. */
  lemma {:induction false} LockIsOfFirst(locks: map<string, Entry>, key: string, fires: seq<Fire>, due: nat -> int,
      n: nat) returns (first: int)
    requires Scheduled(fires, due) && n < |fires| && !Live(locks, key, fires[0].at)
    ensures -1 <= first <= n
    ensures first == -1 ==>
              && (forall i :: 0 <= i <= n && fires[i].tick == fires[n].tick ==> !fires[i].reply.Ran())
              && !Live(After(locks, key, fires, n + 1), key, fires[n].at)
    ensures first >= 0 ==>
              && fires[first].tick == fires[n].tick && FirstOfTick(fires, first)
              && key in After(locks, key, fires, n + 1)
              && After(locks, key, fires, n + 1)[key] == Entry(first, fires[first].at + CRON_TTL)
    ensures Runs(locks, key, fires, n) <==> first == n && fires[n].reply.Answered?
  {
    if n == 0 {
      return if fires[0].reply.Ran() then 0 else -1;
    }
    var prev := LockIsOfFirst(locks, key, fires, due, n - 1);
    if fires[n - 1].tick == fires[n].tick {
      return if prev == -1 && fires[n].reply.Ran() then n else prev;
    }
    NewTick(fires, due, n);
    return if fires[n].reply.Ran() then n else -1;
  }

  /** In every tick, over any number of ticks and instances and whatever becomes of the calls,
      at most one fire runs the task: the first to reach Redis, provided it is answered. */
  lemma OneFirePerTick(locks: map<string, Entry>, key: string, fires: seq<Fire>, due: nat -> int, n: nat)
    requires Scheduled(fires, due) && n < |fires| && !Live(locks, key, fires[0].at)
    ensures Runs(locks, key, fires, n) <==> FirstOfTick(fires, n) && fires[n].reply.Answered?
    ensures Runs(locks, key, fires, n) ==>
              forall v: nat :: v < |fires| && fires[v].tick == fires[n].tick && Runs(locks, key, fires, v) ==> v == n
  {
    var first := LockIsOfFirst(locks, key, fires, due, n);
    forall v: nat | v < |fires| && fires[v].tick == fires[n].tick && Runs(locks, key, fires, v)
      ensures Runs(locks, key, fires, n) ==> v == n
    {
      var _ := LockIsOfFirst(locks, key, fires, due, v);
    }
  }

  /** And if every call of a tick is answered, exactly one does. */
  lemma AnsweredTickRuns(locks: map<string, Entry>, key: string, fires: seq<Fire>, due: nat -> int, n: nat)
      returns (w: nat)
    requires Scheduled(fires, due) && n < |fires| && !Live(locks, key, fires[0].at)
    requires forall i :: 0 <= i < |fires| && fires[i].tick == fires[n].tick ==> fires[i].reply.Answered?
    ensures w < |fires| && fires[w].tick == fires[n].tick
    ensures forall v: nat :: v < |fires| && fires[v].tick == fires[n].tick ==> (Runs(locks, key, fires, v) <==> v == w)
  {
    w := LockIsOfFirst(locks, key, fires, due, n);
    OneFirePerTick(locks, key, fires, due, w);
  }

  /** Fires first, first + 1, ..., last reach Redis in time order and are answered, and nothing
      keeps the first of them out: the fires of one tick, whatever has been scheduled before. */
  ghost predicate Answered(locks: map<string, Entry>, key: string, fires: seq<Fire>, first: nat, last: nat) {
    && first <= last < |fires|
    && (forall i :: first <= i <= last ==> fires[i].reply.Answered?)
    && (forall i, j :: first <= i < j <= last ==> fires[i].at <= fires[j].at)
    && !Live(After(locks, key, fires, first), key, fires[first].at)
  }

  /** As long as the first entry lives, it stays and keeps the others out. */
  lemma {:induction false} EntryStays(locks: map<string, Entry>, key: string, fires: seq<Fire>, first: nat, n: nat)
    requires Answered(locks, key, fires, first, n) && fires[n].at < fires[first].at + CRON_TTL
    ensures After(locks, key, fires, n + 1)
      == After(locks, key, fires, first)[key := Entry(first, fires[first].at + CRON_TTL)]
    ensures Runs(locks, key, fires, n) <==> n == first
  {
    if n > first {
      EntryStays(locks, key, fires, first, n - 1);
    }
  }

  /** The first fire behind its lapse runs as well. */
  lemma {:induction false} LapsedEntryLetsIn(locks: map<string, Entry>, key: string, fires: seq<Fire>, first: nat,
      last: nat)
    requires Answered(locks, key, fires, first, last) && fires[first].at + CRON_TTL <= fires[last].at
    ensures exists n :: first < n <= last && Runs(locks, key, fires, n)
  {
    if fires[first].at + CRON_TTL <= fires[last - 1].at {
      LapsedEntryLetsIn(locks, key, fires, first, last - 1);
    } else {
      EntryStays(locks, key, fires, first, last - 1);
      assert Runs(locks, key, fires, last);
    }
  }

  /** The spread of 10 s is exact: of any number of answered fires that nothing keeps out, the
      first alone runs if and only if the last of them lands less than 10 s after it. */
  lemma SpreadIsExact(locks: map<string, Entry>, key: string, fires: seq<Fire>, first: nat, last: nat)
    requires Answered(locks, key, fires, first, last)
    ensures Runs(locks, key, fires, first)
    ensures (forall n :: first < n <= last ==> !Runs(locks, key, fires, n)) <==>
      fires[last].at < fires[first].at + CRON_TTL
  {
    EntryStays(locks, key, fires, first, first);
    if fires[last].at < fires[first].at + CRON_TTL {
      forall n | first < n <= last ensures !Runs(locks, key, fires, n) {
        EntryStays(locks, key, fires, first, n);
      }
    } else {
      LapsedEntryLetsIn(locks, key, fires, first, last);
    }
  }

  /** Inside a schedule whose ticks are spread by less than 10 s, nothing keeps the first fire
      of a tick out: what an earlier tick has written has lapsed. */
  lemma NothingKeepsTickOut(locks: map<string, Entry>, key: string, fires: seq<Fire>, due: nat -> int, first: nat)
    requires first < |fires| && !Live(locks, key, fires[0].at)
    requires Scheduled(fires[..first], due) && due(fires[first].tick) <= fires[first].at
    requires forall t: nat, u: nat :: t < u ==> due(t) + MINUTE <= due(u)
    requires forall i :: 0 <= i < first ==> fires[i].tick < fires[first].tick
    ensures !Live(After(locks, key, fires, first), key, fires[first].at)
  {
    if first > 0 {
      AfterOfPrefix(locks, key, fires, first, first);
      var w := LockIsOfFirst(locks, key, fires[..first], due, first - 1);
      assert due(fires[first - 1].tick) + MINUTE <= due(fires[first].tick);
    }
  }

  lemma {:induction false} AfterOfPrefix(locks: map<string, Entry>, key: string, fires: seq<Fire>, m: nat, n: nat)
    requires n <= m <= |fires|
    ensures After(locks, key, fires[..m], n) == After(locks, key, fires, n)
  {
    if n > 0 {
      AfterOfPrefix(locks, key, fires, m, n - 1);
    }
  }
}
