/** The clients of the Redis server: RedisLock, Semaphore, and the guard built on them.
    What happens to each command on the wire is a parameter of the call. */
module RedisLock {
  import opened RedisStore
  import opened GuardMachine

  datatype Result<+T> = Ok(value: T) | Err

  class Redis {
    var now: int
    var locks: map<string, Entry>
    var slots: map<Token, int>
    /** Which client has drawn which value: no value is drawn twice, by whomever. */
    ghost var drawnBy: map<Token, RedisLock>

    constructor (now: int)
      ensures this.now == now && locks == map[] && slots == map[] && drawnBy == map[]
    {
      this.now, locks, slots, drawnBy := now, map[], map[], map[];
    }
  }

  function LockKey(key: string): string { "git-sync:lock:" + key }

  class RedisLock {
    const redis: Redis
    var lockValues: map<string, Token>

    /** The value is one that this instance has drawn, and so no other. */
    ghost predicate Drew(value: Token) reads redis {
      value in redis.drawnBy && redis.drawnBy[value] == this
    }

    ghost predicate Valid() reads this, redis {
      forall key :: key in lockValues ==> Drew(lockValues[key])
    }

    constructor (redis: Redis)
      ensures Valid() && this.redis == redis && lockValues == map[]
    {
      this.redis, lockValues := redis, map[];
    }

    method LockWithTTL(key: string, ttl: int, value: Token, reply: Reply) returns (r: Result<bool>)
      requires Valid() && value !in redis.drawnBy
      modifies this, redis`locks, redis`drawnBy
      ensures Valid() && redis.drawnBy == old(redis.drawnBy)[value := this]
      ensures redis.locks == if reply.Ran() then SetNX(old(redis.locks), LockKey(key), value, ttl, redis.now).0
        else old(redis.locks)
      ensures r == if reply.Failed() then Err else Ok(!Live(old(redis.locks), LockKey(key), redis.now))
      ensures lockValues == if r == Ok(true) then old(lockValues)[key := value] else old(lockValues)
    {
      redis.drawnBy := redis.drawnBy[value := this];
      var ok := false;
      if reply.Ran() {
        var (locks, granted) := SetNX(redis.locks, LockKey(key), value, ttl, redis.now);
        redis.locks, ok := locks, granted;
      }
      if reply.Failed() {
        return Err;
      }
      if ok {
        lockValues := lockValues[key := value];
      }
      return Ok(ok);
    }

    /** The same for callers that will not need the value. */
    method TryLockWithTTL(key: string, ttl: int, value: Token, reply: Reply) returns (r: Result<bool>)
      requires Valid() && value !in redis.drawnBy
      modifies this, redis`locks, redis`drawnBy
      ensures Valid() && redis.drawnBy == old(redis.drawnBy)[value := this]
      ensures redis.locks == if reply.Ran() then SetNX(old(redis.locks), LockKey(key), value, ttl, redis.now).0
        else old(redis.locks)
      ensures r == if reply.Failed() then Err else Ok(!Live(old(redis.locks), LockKey(key), redis.now))
      ensures lockValues == if r == Ok(true) then old(lockValues)[key := value] else old(lockValues)
    {
      r := LockWithTTL(key, ttl, value, reply);
    }

    method UnlockWithValue(key: string, value: Token, reply: Reply) returns (r: Result<()>)
      requires Valid()
      modifies this`lockValues, redis`locks
      ensures Valid()
      ensures redis.locks == if reply.Ran() then DeleteIfHeld(old(redis.locks), LockKey(key), value)
        else old(redis.locks)
      ensures r.Err? <==> reply.Failed()
      ensures lockValues ==
                if r.Ok? && key in old(lockValues) && old(lockValues)[key] == value then old(lockValues) - {key}
                else old(lockValues)
    {
      if reply.Ran() {
        redis.locks := DeleteIfHeld(redis.locks, LockKey(key), value);
      }
      if reply.Failed() {
        return Err;
      }
      if key in lockValues && lockValues[key] == value {
        lockValues := lockValues - {key};
      }
      return Ok(());
    }

    method ExtendLockWithValue(key: string, value: Token, ttl: int, reply: Reply) returns (r: Result<bool>)
      modifies redis`locks
      ensures redis.locks == if reply.Ran() then ExtendIfHeld(old(redis.locks), LockKey(key), value, ttl, redis.now)
        else old(redis.locks)
      ensures r == if reply.Failed() then Err else Ok(HeldBy(old(redis.locks), LockKey(key), value, redis.now))
    {
      var held := HeldBy(redis.locks, LockKey(key), value, redis.now);
      if reply.Ran() {
        redis.locks := ExtendIfHeld(redis.locks, LockKey(key), value, ttl, redis.now);
      }
      return if reply.Failed() then Err else Ok(held);
    }

    /** Only ever deletes the entry of this key, and only if this instance drew its value. */
    method Unlock(key: string, reply: Reply) returns (r: Result<()>)
      requires Valid()
      modifies this`lockValues, redis`locks
      ensures Valid() && key !in lockValues && lockValues == old(lockValues) - {key}
      ensures forall k :: k in old(redis.locks) && !(k in redis.locks && redis.locks[k] == old(redis.locks)[k]) ==>
                k == LockKey(key) && key in old(lockValues) && old(redis.locks)[k].value == old(lockValues)[key]
                && Drew(old(redis.locks)[k].value)
      ensures redis.locks.Keys <= old(redis.locks.Keys)
      ensures r.Err? <==> key in old(lockValues) && reply.Failed()
      ensures key in old(lockValues) && reply.Ran() ==>
        !HeldBy(redis.locks, LockKey(key), old(lockValues)[key], redis.now)
    {
      if key !in lockValues {
        // nothing here shows that this instance owns the lock
        return Ok(());
      }
      var value := lockValues[key];
      lockValues := lockValues - {key};
      r := UnlockWithValue(key, value, reply);
    }

    /** Refuses to extend a lock this instance has no value for. */
    method ExtendLock(key: string, ttl: int, reply: Reply) returns (r: Result<()>)
      requires Valid()
      modifies redis`locks
      ensures r.Err? <==> key !in lockValues || reply.Failed()
      ensures key in lockValues && reply.Ran() && HeldBy(old(redis.locks), LockKey(key), lockValues[key], redis.now) ==>
                redis.locks == old(redis.locks)[LockKey(key) := Entry(lockValues[key], redis.now + ttl)]
      ensures forall k :: k in redis.locks && !(k in old(redis.locks) && redis.locks[k] == old(redis.locks)[k]) ==>
                k == LockKey(key) && Live(old(redis.locks), k, redis.now)
                  && redis.locks[k] == Entry(old(redis.locks)[k].value, redis.now + ttl)
                && Drew(redis.locks[k].value)
      ensures redis.locks.Keys == old(redis.locks.Keys)
    {
      if key !in lockValues {
        return Err;
      }
      var extended := ExtendLockWithValue(key, lockValues[key], ttl, reply);
      return if extended.Err? then Err else Ok(());
    }
  }

  class Semaphore {
    const redis: Redis
    const max: nat

    constructor (redis: Redis, max: nat)
      ensures this.redis == redis && this.max == max
    {
      this.redis, this.max := redis, max;
    }

    /** Granted exactly when fewer than max members have not expired by read1; either way
        the expired ones are gone. */
    method Acquire(id: Token, read1: int, read2: int, reply: Reply) returns (r: Result<bool>)
      modifies redis`slots
      ensures redis.slots == if reply.Ran() then TakeSlot(old(redis.slots), id, max, read1, read2 + SLOT_TTL).0
        else old(redis.slots)
      ensures r == if reply.Failed() then Err else Ok(|Purge(old(redis.slots), read1)| < max)
    {
      var (slots, granted) := TakeSlot(redis.slots, id, max, read1, read2 + SLOT_TTL);
      if reply.Ran() {
        redis.slots := slots;
      }
      return if reply.Failed() then Err else Ok(granted);
    }

    method Renew(id: Token, read: int, reply: Reply) returns (r: Result<()>)
      modifies redis`slots
      ensures redis.slots == if reply.Ran() then RenewSlot(old(redis.slots), id, read + SLOT_TTL) else old(redis.slots)
      ensures r.Err? <==> reply.Failed()
    {
      if reply.Ran() {
        redis.slots := RenewSlot(redis.slots, id, read + SLOT_TTL);
      }
      return if reply.Failed() then Err else Ok(());
    }

    method Release(id: Token, reply: Reply) returns (r: Result<()>)
      modifies redis`slots
      ensures redis.slots == if reply.Ran() then DropSlot(old(redis.slots), id) else old(redis.slots)
      ensures r.Err? <==> reply.Failed()
    {
      if reply.Ran() {
        redis.slots := DropSlot(redis.slots, id);
      }
      return if reply.Failed() then Err else Ok(());
    }
  }

  // ---------------------------------------------------------------- the guard

  datatype Grant = Granted | TooManyConcurrent | TaskRunning | RedisFailed

  /** One undisturbed stretch of the protocol. */
  ghost predicate IsPath(ws: seq<World>, acts: seq<Action>) {
    && |ws| == |acts| + 1
    && (forall i :: 0 <= i < |acts| ==> Enabled(ws[i], acts[i]) && ws[i + 1] == Apply(ws[i], acts[i]))
  }

  lemma PathGrows(ws: seq<World>, acts: seq<Action>, a: Action)
    requires IsPath(ws, acts) && Enabled(ws[|acts|], a)
    ensures IsPath(ws + [Apply(ws[|acts|], a)], acts + [a])
  {
  }

  /** Asking for a slot, seen by the execution that asks. */
  lemma SlotLeg(w: World, id: Token, key: string, read1: int, read2: int, reply: Reply)
    returns (ws: seq<World>, acts: seq<Action>, w': World)
    requires id !in w.execs
    ensures IsPath(ws, acts) && ws[0] == w && ws[|acts|] == w'
    ensures acts == [Arrive(id, key), AskSlot(id, read1, read2, reply)]
    ensures w'.now == w.now && w'.max == w.max && w'.locks == w.locks
    ensures w'.slots == if reply.Ran() then TakeSlot(w.slots, id, w.max, read1, read2 + SLOT_TTL).0 else w.slots
    ensures In(w', id, if reply.Answered? && |Purge(w.slots, read1)| < w.max then Slotted else Refused)
      && w'.execs[id].key == key
  {
    var w1 := Apply(w, Arrive(id, key));
    PathGrows([w], [], Arrive(id, key));
    PathGrows([w, w1], [Arrive(id, key)], AskSlot(id, read1, read2, reply));
    w' := Apply(w1, AskSlot(id, read1, read2, reply));
    assert [w] + [w1] == [w, w1] && [] + [Arrive(id, key)] == [Arrive(id, key)];
    ws := [w, w1] + [w'];
    acts := [Arrive(id, key)] + [AskSlot(id, read1, read2, reply)];
  }

  /** Asking for the lock, and giving the slot back if it is not granted. */
  lemma LockLeg(ws: seq<World>, acts: seq<Action>, id: Token, lockReply: Reply, backReply: Reply)
    returns (ws': seq<World>, acts': seq<Action>, w': World)
    requires IsPath(ws, acts) && In(ws[|acts|], id, Slotted)
    ensures IsPath(ws', acts') && ws'[0] == ws[0] && ws'[|acts'|] == w'
    ensures var w := ws[|acts|];
            var key := w.execs[id].key;
            var granted := lockReply.Answered? && !Live(w.locks, key, w.now);
            && acts' == acts + [AskLock(id, lockReply)] + (if granted then [] else [GiveBack(id, backReply)])
            && w'.now == w.now && w'.max == w.max
            && w'.locks == (if lockReply.Ran() then SetNX(w.locks, key, id, LOCK_TTL, w.now).0 else w.locks)
            && w'.slots == (if granted || !backReply.Ran() then w.slots else DropSlot(w.slots, id))
            && In(w', id, if granted then Holding else Refused)
  {
    var w := ws[|acts|];
    w' := Apply(w, AskLock(id, lockReply));
    PathGrows(ws, acts, AskLock(id, lockReply));
    ws', acts' := ws + [w'], acts + [AskLock(id, lockReply)];
    if In(w', id, RollingBack) {
      PathGrows(ws', acts', GiveBack(id, backReply));
      w' := Apply(w', GiveBack(id, backReply));
      ws', acts' := ws' + [w'], acts' + [GiveBack(id, backReply)];
    }
  }

  /** The steps of an Acquire that has come to the answer g. */
  function ActsOf(g: Grant, id: Token, key: string, read1: int, read2: int, slotReply: Reply, lockReply: Reply,
      backReply: Reply): seq<Action> {
    var slot := [Arrive(id, key), AskSlot(id, read1, read2, slotReply)];
    if g.TooManyConcurrent? || slotReply.Failed() then slot
    else if g.Granted? then slot + [AskLock(id, lockReply)]
    else slot + [AskLock(id, lockReply)] + [GiveBack(id, backReply)]
  }

  lemma AcquirePath(w: World, id: Token, key: string, read1: int, read2: int, slotReply: Reply, lockReply: Reply,
      backReply: Reply, g: Grant)
    returns (ws: seq<World>, acts: seq<Action>, w': World)
    requires id !in w.execs && id !in w.slots
    requires var full := |Purge(w.slots, read1)| >= w.max;
             g == if slotReply.Failed() then RedisFailed
                  else if full then TooManyConcurrent
                  else if lockReply.Failed() then RedisFailed
                  else if Live(w.locks, key, w.now) then TaskRunning
                  else Granted
    ensures IsPath(ws, acts) && ws[0] == w && ws[|acts|] == w' && w'.now == w.now && w'.max == w.max
    ensures acts == ActsOf(g, id, key, read1, read2, slotReply, lockReply, backReply)
    ensures In(w', id, if g.Granted? then Holding else Refused)
    ensures w'.locks ==
              if slotReply.Answered? && |Purge(w.slots, read1)| < w.max && lockReply.Ran() && !Live(w.locks, key, w.now)
              then w.locks[key := Entry(id, w.now + LOCK_TTL)]
              else w.locks
    ensures w'.slots ==
              if slotReply.Dropped? then w.slots
              else if |Purge(w.slots, read1)| < w.max && (g.Granted? || slotReply.Lost? || backReply.Dropped?)
              then Purge(w.slots, read1)[id := read2 + SLOT_TTL]
              else Purge(w.slots, read1)
  {
    ws, acts, w' := SlotLeg(w, id, key, read1, read2, slotReply);
    if slotReply.Answered? && |Purge(w.slots, read1)| < w.max {
      ws, acts, w' := LockLeg(ws, acts, id, lockReply, backReply);
      assert Purge(w.slots, read1)[id := read2 + SLOT_TTL] - {id} == Purge(w.slots, read1);
    }
  }

  class RedisGuard {
    const redis: Redis
    const rlock: RedisLock
    const sem: Semaphore

    ghost predicate Valid() reads this, rlock, redis {
      rlock.redis == redis && sem.redis == redis && rlock.Valid()
    }

    /** The state of the server is that of the world w. */
    ghost predicate Mirrors(w: World) reads this, redis {
      w.now == redis.now && w.max == sem.max && w.locks == redis.locks && w.slots == redis.slots
    }

    constructor (redis: Redis, maxConcurrent: int)
      ensures Valid() && this.redis == redis && fresh(rlock)
      ensures sem.max == if maxConcurrent <= 0 then 5 else maxConcurrent
      ensures Mirrors(Start(sem.max, redis.now)) <==> redis.locks == map[] && redis.slots == map[]
    {
      this.redis := redis;
      rlock := new RedisLock(redis);
      sem := new Semaphore(redis, if maxConcurrent <= 0 then 5 else maxConcurrent);
    }

    /** Acquire is granted exactly if both commands are answered, a slot is free and nobody holds
        the task; every other answer has its cause.  A lock that was granted and not answered
        stays, and so does a slot whose answer or whose rollback got lost. */
    method Acquire(taskKey: string, id: Token, read1: int, read2: int, slotReply: Reply, lockReply: Reply,
        backReply: Reply)
      returns (g: Grant)
      requires Valid() && id !in redis.slots && id !in redis.drawnBy
      modifies redis`locks, redis`slots, redis`drawnBy, rlock
      ensures Valid()
      ensures var full := |Purge(old(redis.slots), read1)| >= sem.max;
              var taken := Live(old(redis.locks), LockKey("task:" + taskKey), redis.now);
              g == if slotReply.Failed() then RedisFailed
                   else if full then TooManyConcurrent
                   else if lockReply.Failed() then RedisFailed
                   else if taken then TaskRunning
                   else Granted
      ensures redis.locks ==
                if slotReply.Answered? && |Purge(old(redis.slots), read1)| < sem.max && lockReply.Ran()
                   && !Live(old(redis.locks), LockKey("task:" + taskKey), redis.now)
                then old(redis.locks)[LockKey("task:" + taskKey) := Entry(id, redis.now + LOCK_TTL)]
                else old(redis.locks)
      ensures redis.slots ==
                if slotReply.Dropped? then old(redis.slots)
                else if |Purge(old(redis.slots), read1)| < sem.max
                  && (g.Granted? || slotReply.Lost? || backReply.Dropped?)
                then Purge(old(redis.slots), read1)[id := read2 + SLOT_TTL]
                else Purge(old(redis.slots), read1)
      ensures rlock.lockValues ==
                if g.Granted? then old(rlock.lockValues)["task:" + taskKey := id] else old(rlock.lockValues)
    {
      var taken := sem.Acquire(id, read1, read2, slotReply);
      if taken.Err? {
        return RedisFailed;
      }
      if !taken.value {
        return TooManyConcurrent;
      }
      g := TakeLock("task:" + taskKey, id, lockReply, backReply);
      assert Purge(old(redis.slots), read1)[id := read2 + SLOT_TTL] - {id} == Purge(old(redis.slots), read1);
    }

    /** It takes the protocol's steps for the execution id, with the replies of this call. */
    method AcquireInProtocol(taskKey: string, id: Token, read1: int, read2: int, slotReply: Reply, lockReply: Reply,
        backReply: Reply, ghost w: World)
      returns (g: Grant, ghost ws: seq<World>, ghost acts: seq<Action>)
      requires Valid() && Mirrors(w) && id !in w.execs && id !in w.slots && id !in redis.drawnBy
      modifies redis`locks, redis`slots, redis`drawnBy, rlock
      ensures Valid() && IsPath(ws, acts) && ws[0] == w && Mirrors(ws[|acts|])
      ensures acts == ActsOf(g, id, LockKey("task:" + taskKey), read1, read2, slotReply, lockReply, backReply)
      ensures In(ws[|acts|], id, if g.Granted? then Holding else Refused)
    {
      ghost var w';
      g := Acquire(taskKey, id, read1, read2, slotReply, lockReply, backReply);
      ws, acts, w' := AcquirePath(w, id, LockKey("task:" + taskKey), read1, read2, slotReply, lockReply, backReply, g);
    }

    /** The second phase, once the slot has been granted. */
    method TakeLock(lockKey: string, id: Token, lockReply: Reply, backReply: Reply) returns (g: Grant)
      requires Valid() && id !in redis.drawnBy
      modifies redis`locks, redis`slots, redis`drawnBy, rlock
      ensures Valid()
      ensures g == if lockReply.Failed() then RedisFailed
                   else if Live(old(redis.locks), LockKey(lockKey), redis.now) then TaskRunning
                   else Granted
      ensures redis.locks ==
                if lockReply.Ran() && !Live(old(redis.locks), LockKey(lockKey), redis.now)
                then old(redis.locks)[LockKey(lockKey) := Entry(id, redis.now + LOCK_TTL)]
                else old(redis.locks)
      ensures redis.slots == if g.Granted? || backReply.Dropped? then old(redis.slots) else old(redis.slots) - {id}
      ensures rlock.lockValues == if g.Granted? then old(rlock.lockValues)[lockKey := id] else old(rlock.lockValues)
    {
      var locked := rlock.LockWithTTL(lockKey, LOCK_TTL, id, lockReply);
      if locked == Ok(true) {
        return Granted;
      }
      var _ := sem.Release(id, backReply);
      return if locked.Err? then RedisFailed else TaskRunning;
    }

    /** The function Acquire returns: the two calls are tried one after the other, whatever
        becomes of the first. */
    method Release(taskKey: string, id: Token, unlockReply: Reply, freeReply: Reply, ghost w: World)
      returns (ghost ws: seq<World>, ghost acts: seq<Action>)
      requires Valid() && Mirrors(w) && In(w, id, Holding) && w.execs[id].key == LockKey("task:" + taskKey)
      modifies redis`locks, redis`slots, rlock`lockValues
      ensures Valid()
      ensures IsPath(ws, acts) && ws[0] == w && Mirrors(ws[|acts|]) && In(ws[|acts|], id, Finished)
      ensures acts == [Close(id), Unlock(id, unlockReply), Free(id, freeReply)]
      ensures var key := LockKey("task:" + taskKey);
              var held := key in old(redis.locks) && old(redis.locks)[key].value == id;
              redis.locks == if unlockReply.Ran() && held then old(redis.locks) - {key} else old(redis.locks)
      ensures redis.slots == if freeReply.Ran() then old(redis.slots) - {id} else old(redis.slots)
    {
      ghost var w1 := Apply(w, Close(id));
      ghost var w2 := Apply(w1, Unlock(id, unlockReply));
      ghost var w3 := Apply(w2, Free(id, freeReply));
      var _ := rlock.UnlockWithValue("task:" + taskKey, id, unlockReply);
      var _ := sem.Release(id, freeReply);
      ws, acts := [w, w1, w2, w3], [Close(id), Unlock(id, unlockReply), Free(id, freeReply)];
    }

    /** One tick of the watchdog: the lock is extended if it is still held, and the slot renewed
        if it is still there, unless extending the lock failed.  Nothing else changes.  The tick
        counts as good exactly if both calls were answered. */
    method Tick(taskKey: string, id: Token, read: int, lockReply: Reply, slotReply: Reply, ghost w: World)
      returns (ghost ws: seq<World>, ghost acts: seq<Action>)
      requires Valid() && Mirrors(w) && id in w.execs && w.execs[id].key == LockKey("task:" + taskKey)
      requires !w.execs[id].phase.Crashed? && w.execs[id].watch.Waiting?
      modifies redis`locks, redis`slots
      ensures IsPath(ws, acts) && ws[0] == w && Mirrors(ws[|acts|])
      ensures acts == [TickExtend(id, lockReply)] + if lockReply.Failed() then [] else [TickRenew(id, read, slotReply)]
      ensures var key := LockKey("task:" + taskKey);
              redis.locks ==
                if lockReply.Ran() && HeldBy(old(redis.locks), key, id, redis.now)
                then old(redis.locks)[key := Entry(id, redis.now + LOCK_TTL)]
                else old(redis.locks)
      ensures redis.slots ==
                if lockReply.Answered? && slotReply.Ran() && id in old(redis.slots)
                then old(redis.slots)[id := read + SLOT_TTL]
                else old(redis.slots)
      ensures id in ws[|acts|].execs
      ensures var e, e' := w.execs[id], ws[|acts|].execs[id];
              && e'.watch.Waiting? && e'.ticks == e.ticks + 1
              && (e'.lastOk, e'.okAt) == (if lockReply.Answered? && slotReply.Answered? then (e'.ticks, redis.now)
                                          else (e.lastOk, e.okAt))
    {
      ghost var a1, w1 := TickExtend(id, lockReply), Apply(w, TickExtend(id, lockReply));
      ws, acts := [w, w1], [a1];
      var extended := rlock.ExtendLockWithValue("task:" + taskKey, id, LOCK_TTL, lockReply);
      if extended.Ok? {
        var _ := sem.Renew(id, read, slotReply);
        ws, acts := [w, w1, Apply(w1, TickRenew(id, read, slotReply))], [a1, TickRenew(id, read, slotReply)];
      }
    }
  }
}
