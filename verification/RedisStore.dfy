/** The part of Redis that the locks and the semaphore use, one function per command or
    Lua script.  Redis runs each of them atomically. */
module RedisStore {
  import opened Basics

  /** A value drawn by generateLockValue or uuid.NewString. */
  type Token = nat

  /** Times are in milliseconds. */
  const LOCK_TTL: int := 30_000
  const SLOT_TTL: int := 30_000
  const RENEW_INTERVAL: int := 10_000

  datatype Entry = Entry(value: Token, expireAt: int)

  /** What became of one command: it ran and was answered, it ran but the caller saw an
      error, or it never ran and the caller saw an error. */
  datatype Reply = Answered | Lost | Dropped {
    predicate Ran() { !Dropped? }
    predicate Failed() { !Answered? }
  }

  predicate Live(locks: map<string, Entry>, key: string, now: int) {
    key in locks && now < locks[key].expireAt
  }

  predicate HeldBy(locks: map<string, Entry>, key: string, value: Token, now: int) {
    Live(locks, key, now) && locks[key].value == value
  }

  function SetNX(locks: map<string, Entry>, key: string, value: Token, ttl: int, now: int): (map<string, Entry>, bool) {
    if Live(locks, key, now) then (locks, false)
    else (locks[key := Entry(value, now + ttl)], true)
  }

  /** unlockScript.  Redis drops a key that has expired when it is read, so an expired entry
      of the caller goes as well: to every reader it was gone already. */
  function DeleteIfHeld(locks: map<string, Entry>, key: string, value: Token): map<string, Entry> {
    if key in locks && locks[key].value == value then locks - {key} else locks
  }

  /** extendScript; the answer is the held test. */
  function ExtendIfHeld(locks: map<string, Entry>, key: string, value: Token, ttl: int, now: int): map<string, Entry> {
    if HeldBy(locks, key, value, now) then locks[key := Entry(value, now + ttl)] else locks
  }

  /** ZREMRANGEBYSCORE key -inf now */
  function Purge(slots: map<Token, int>, now: int): map<Token, int> {
    map m | m in slots && now < slots[m] :: slots[m]
  }

  /** semaphoreAcquireScript */
  function TakeSlot(slots: map<Token, int>, member: Token, max: int, now: int, expire: int): (map<Token, int>, bool) {
    var current := Purge(slots, now);
    if |current| >= max then (current, false) else (current[member := expire], true)
  }

  /** renewScript */
  function RenewSlot(slots: map<Token, int>, member: Token, expire: int): map<Token, int> {
    if member in slots then slots[member := expire] else slots
  }

  /** ZREM */
  function DropSlot(slots: map<Token, int>, member: Token): map<Token, int> {
    slots - {member}
  }

  lemma SubMapIsSmaller<K, V>(a: map<K, V>, b: map<K, V>)
    requires a.Keys <= b.Keys
    ensures |a| <= |b|
  {
    SubsetIsSmaller(a.Keys, b.Keys);
    assert |a| == |a.Keys| && |b| == |b.Keys|;
  }

  lemma OneMoreMember(slots: map<Token, int>, member: Token, expire: int)
    ensures |slots[member := expire]| <= |slots| + 1
  {
    assert slots[member := expire].Keys == slots.Keys + {member};
  }

  /** Whatever the clocks of the clients say, no script lets the set outgrow max. */
  lemma TakeSlotStaysBounded(slots: map<Token, int>, member: Token, max: nat, now: int, expire: int)
    requires |slots| <= max
    ensures |TakeSlot(slots, member, max, now, expire).0| <= max
  {
    var current := Purge(slots, now);
    SubMapIsSmaller(current, slots);
    OneMoreMember(current, member, expire);
  }

  lemma RenewSlotStaysBounded(slots: map<Token, int>, member: Token, expire: int)
    ensures |RenewSlot(slots, member, expire)| == |slots|
  {
    if member in slots {
      assert slots[member := expire].Keys == slots.Keys;
    }
  }
}
