/**
 The reentrant Redis lock. The key holds a hash with the holder string and a count;
 a Lua lock script (run atomically by Redis) creates the hash with count 1 or, for
 the same holder, adds 1 to the count, and an unlock script takes 1 off and deletes
 the hash once the count reaches 0. The keyspace is an in-memory map from key to
 record; a failed round trip to Redis is the `storeDown` parameter and changes
 nothing.
 */
module ReentrantLock {
  import opened Wrappers
  import GoInt
  import opened Durations

  /** The hash under a key, its "holder" and "count" fields, and the key's TTL in
      milliseconds. */
  datatype Record = Record(holder: string, count: int, ttlMillis: int)

  /** Why Lock or Unlock report an error. */
  datatype LockError = StoreUnavailable | HeldByDifferentHolder

  type Keyspace = map<string, Record>

  /** What PTTL reports for a key that has no TTL: HSET alone sets none. */
  const NoTtl: int := -1

  /** PEXPIRE: gives an existing key a new TTL; a TTL that is not positive has
      already run out, and Redis deletes the key. */
  function PExpire(m: Keyspace, key: string, ttlMillis: int): Keyspace {
    if key !in m then m
    else if ttlMillis <= 0 then m - {key}
    else m[key := m[key].(ttlMillis := ttlMillis)]
  }

  /** The lock script. HGET of "holder" on an absent key is false: HSET the holder
      with count 1. The same holder: HINCRBY the count by 1. Both then PEXPIRE the
      key and return 1. Any other holder: return 0. */
  function LockScript(m: Keyspace, key: string, holder: string, ttlMillis: int): (Keyspace, int) {
    if key !in m then
      (PExpire(m[key := Record(holder, 1, NoTtl)], key, ttlMillis), 1)
    else if m[key].holder == holder then
      (PExpire(m[key := m[key].(count := m[key].count + 1)], key, ttlMillis), 1)
    else
      (m, 0)
  }

  /** The unlock script. When the key's holder is `holder`: HINCRBY the count by -1;
      a count at or below 0 DELs the key and returns 0, otherwise it returns 1.
      Otherwise, the key being absent included: -1. */
  function UnlockScript(m: Keyspace, key: string, holder: string): (Keyspace, int) {
    if key in m && m[key].holder == holder then
      var count := m[key].count - 1;
      if count <= 0 then (m - {key}, 0) else (m[key := m[key].(count := count)], 1)
    else
      (m, -1)
  }

  /** Unlock's switch on the script's status: only -1 is an error. */
  function UnlockError(status: int): Option<LockError> {
    if status == -1 then Some(HeldByDifferentHolder) else None
  }

  /** The scripts only ever store a positive count. */
  predicate CountsPositive(m: Keyspace) {
    forall k :: k in m ==> m[k].count >= 1
  }

  /** With a positive TTL, Lock acquires exactly when the key is free or already
      this holder's; then the key holds this holder with one more hold than before
      and the given TTL, and no other key changes. A refused Lock changes nothing. */
  lemma LockScriptMeaning(m: Keyspace, key: string, holder: string, ttlMillis: int)
    requires ttlMillis > 0
    ensures var (m', status) := LockScript(m, key, holder, ttlMillis);
      && (status == 1 || status == 0)
      && (status == 1 <==> key !in m || m[key].holder == holder)
      && (status == 1 ==>
            && key in m' && m'[key].holder == holder && m'[key].ttlMillis == ttlMillis
            && m'[key].count == (if key in m then m[key].count else 0) + 1
            && m' - {key} == m - {key})
      && (status == 0 ==> m' == m)
  {
    var m' := LockScript(m, key, holder, ttlMillis).0;
    if key !in m || m[key].holder == holder {
      assert m' - {key} == m - {key};
    }
  }

  /** The script's PEXPIRE takes whole milliseconds rounded toward zero, so an
      expiration below one millisecond sends 0, or a negative count when it is
      -1 ms or less: the script reports the lock acquired, yet PEXPIRE has just
      deleted the hash. On a first acquire nobody
      holds the lock; on a nested one every earlier hold of the same holder is
      dropped with it. */
  lemma ShortExpirationLosesLock(m: Keyspace, key: string, holder: string, expiration: int)
    requires (key !in m || m[key].holder == holder) && expiration < Millisecond
    ensures LockScript(m, key, holder, WholeMillis(expiration)) == (m - {key}, 1)
  {
    if key !in m {
      assert m[key := Record(holder, 1, NoTtl)] - {key} == m - {key};
    } else {
      assert m[key := m[key].(count := m[key].count + 1)] - {key} == m - {key};
    }
  }

  /** Unlock by the holder takes one hold off: the last hold deletes the key with
      status 0, an earlier one leaves the count one lower with status 1. An absent
      key or another holder gets -1 and nothing changes; status 0 is never an
      error. */
  lemma UnlockScriptMeaning(m: Keyspace, key: string, holder: string)
    requires CountsPositive(m)
    ensures var (m', status) := UnlockScript(m, key, holder);
      && (status == 1 || status == 0 || status == -1)
      && (status == -1 <==> !(key in m && m[key].holder == holder))
      && (status == -1 ==> m' == m && UnlockError(status) == Some(HeldByDifferentHolder))
      && (status == 0 <==> key in m && m[key].holder == holder && m[key].count == 1)
      && (status == 0 ==> m' == m - {key})
      && (status == 1 ==>
            && key in m' && m'[key] == m[key].(count := m[key].count - 1)
            && m'[key].count >= 1 && m' - {key} == m - {key})
      && (status != -1 ==> UnlockError(status) == None)
  {
    var m' := UnlockScript(m, key, holder).0;
    if key in m && m[key].holder == holder && m[key].count > 1 {
      assert m' - {key} == m - {key};
    }
  }

  /** Both scripts, a keep-alive refresh and an expiry keep every count positive. */
  lemma {:induction false} ScriptsKeepCountsPositive(m: Keyspace, key: string, holder: string, ttlMillis: int)
    requires CountsPositive(m)
    ensures CountsPositive(LockScript(m, key, holder, ttlMillis).0)
    ensures CountsPositive(UnlockScript(m, key, holder).0)
    ensures CountsPositive(PExpire(m, key, ttlMillis))
    ensures CountsPositive(m - {key})
  {
    var l := LockScript(m, key, holder, ttlMillis).0;
    forall k | k in l
      ensures l[k].count >= 1
    {
      if k != key {
        assert k in m;
      }
    }
    var u := UnlockScript(m, key, holder).0;
    forall k | k in u
      ensures u[k].count >= 1
    {
      assert k in m;
    }
  }

  /** While one holder has the key, another can neither lock nor unlock it: both
      are refused and leave the keyspace unchanged. */
  lemma MutualExclusion(m: Keyspace, key: string, holder: string, other: string, ttlMillis: int)
    requires key in m && m[key].holder == holder && other != holder
    ensures LockScript(m, key, other, ttlMillis) == (m, 0)
    ensures UnlockScript(m, key, other) == (m, -1)
  {
  }

  /** A keep-alive refresh with a positive TTL changes only that TTL: the same keys
      hold the same holders and counts, so neither script can tell it happened. */
  lemma {:induction false} RefreshKeepsHolds(m: Keyspace, key: string, ttlMillis: int, holder: string, ttl2: int)
    requires ttlMillis > 0
    ensures var m' := PExpire(m, key, ttlMillis);
      && m'.Keys == m.Keys
      && (forall k :: k in m ==> m'[k].holder == m[k].holder && m'[k].count == m[k].count)
      && LockScript(m', key, holder, ttl2).1 == LockScript(m, key, holder, ttl2).1
      && UnlockScript(m', key, holder).1 == UnlockScript(m, key, holder).1
  {
    var m' := PExpire(m, key, ttlMillis);
    if key in m {
      assert m'.Keys == m.Keys by {
        assert forall k :: k in m' <==> k in m;
      }
    }
  }

  /** n lock scripts in a row by one holder. */
  function LockTimes(m: Keyspace, key: string, holder: string, ttlMillis: int, n: nat): Keyspace {
    if n == 0 then m else LockScript(LockTimes(m, key, holder, ttlMillis, n - 1), key, holder, ttlMillis).0
  }

  /** n unlock scripts in a row by one holder. */
  function UnlockTimes(m: Keyspace, key: string, holder: string, n: nat): Keyspace {
    if n == 0 then m else UnlockScript(UnlockTimes(m, key, holder, n - 1), key, holder).0
  }

  /** From a free key, n locks by one holder all succeed and leave one record
      with count n. */
  lemma {:induction false} LockTimesCount(m: Keyspace, key: string, holder: string, ttlMillis: int, n: nat)
    requires key !in m && ttlMillis > 0 && n >= 1
    ensures LockTimes(m, key, holder, ttlMillis, n) == m[key := Record(holder, n, ttlMillis)]
    ensures LockScript(LockTimes(m, key, holder, ttlMillis, n - 1), key, holder, ttlMillis).1 == 1
  {
    if n > 1 {
      LockTimesCount(m, key, holder, ttlMillis, n - 1);
    }
  }

  /** From a record with count n, k < n unlocks by its holder leave the count at
      n - k. */
  lemma {:induction false} UnlockTimesCount(m: Keyspace, key: string, holder: string, ttlMillis: int, n: nat, k: nat)
    requires key !in m && k < n
    ensures UnlockTimes(m[key := Record(holder, n, ttlMillis)], key, holder, k)
         == m[key := Record(holder, n - k, ttlMillis)]
  {
    if k > 0 {
      UnlockTimesCount(m, key, holder, ttlMillis, n, k - 1);
    }
  }

  /** The reentrant round trip: after n locks from a free key, each of the first
      n - 1 unlocks returns 1 and keeps the lock, and the n-th returns 0 and gives
      back the keyspace the locks started from. */
  lemma {:induction false} ReentrantRoundTrip(m: Keyspace, key: string, holder: string, ttlMillis: int, n: nat, k: nat)
    requires key !in m && ttlMillis > 0 && k < n
    ensures var before := UnlockTimes(LockTimes(m, key, holder, ttlMillis, n), key, holder, k);
      && key in before && before[key].holder == holder && before[key].count == n - k
      && UnlockScript(before, key, holder).1 == (if k + 1 < n then 1 else 0)
    ensures UnlockTimes(LockTimes(m, key, holder, ttlMillis, n), key, holder, n) == m
  {
    LockTimesCount(m, key, holder, ttlMillis, n);
    UnlockTimesCount(m, key, holder, ttlMillis, n, k);
    UnlockTimesCount(m, key, holder, ttlMillis, n, n - 1);
    assert m[key := Record(holder, 1, ttlMillis)] - {key} == m;
  }

  /** The Redis server behind the handles: its keys and their hashes. */
  class Store {
    var records: Keyspace

    constructor ()
      ensures records == map[]
    {
      records := map[];
    }

    /** The key's TTL runs out: Redis deletes it. */
    method Expire(key: string)
      modifies this
      ensures records == old(records) - {key}
    {
      records := records - {key};
    }
  }

  /** A reentrant lock handle: the key it guards, the holder string that identifies
      it, its expiration and keep-alive period, and whether its keep-alive runs. */
  class ReentrantLock {
    const store: Store
    const key: string
    const holder: string
    const expiration: int
    const keepAliveTtl: int
    var keepAlive: bool

    /** NewReentrantLock. The holder is the handle's unique identifier. */
    constructor (store: Store, key: string, holder: string, expiration: int)
      ensures this.store == store && this.key == key && this.holder == holder
      ensures this.expiration == EffectiveExpiration(expiration)
      ensures keepAliveTtl == KeepAliveTtl(this.expiration)
      ensures !keepAlive
    {
      this.store := store;
      this.key := key;
      this.holder := holder;
      var e := expiration;
      if e == 0 {
        e := DefaultExpiration;
      }
      this.expiration := e;
      this.keepAlive := false;
      this.keepAliveTtl := GoInt.Div(e, 2);
    }

    /** Lock: run the lock script with this holder and the expiration in whole
        milliseconds. On success the keep-alive starts unless it already runs; a
        failed round trip changes nothing. */
    method Lock(storeDown: bool) returns (acquired: bool, err: Option<LockError>)
      modifies this, store
      ensures storeDown ==> !acquired && err == Some(StoreUnavailable)
      ensures storeDown ==> store.records == old(store.records) && keepAlive == old(keepAlive)
      ensures !storeDown ==>
        var (m, status) := LockScript(old(store.records), key, holder, WholeMillis(expiration));
        && err == None
        && store.records == m
        && acquired == (status == 1)
        && keepAlive == (old(keepAlive) || acquired)
    {
      if storeDown {
        return false, Some(StoreUnavailable);
      }
      var r := LockScript(store.records, key, holder, WholeMillis(expiration));
      store.records := r.0;
      acquired := r.1 != 0;
      if acquired && !keepAlive {
        StartKeepAlive();
      }
      return acquired, None;
    }

    /** Unlock: run the unlock script; status 0 (the last hold is gone) stops the
        keep-alive, 1 leaves it running, -1 is reported as an error. */
    method Unlock(storeDown: bool) returns (err: Option<LockError>)
      modifies this, store
      ensures storeDown ==> err == Some(StoreUnavailable)
      ensures storeDown ==> store.records == old(store.records) && keepAlive == old(keepAlive)
      ensures !storeDown ==>
        var (m, status) := UnlockScript(old(store.records), key, holder);
        && store.records == m
        && err == UnlockError(status)
        && keepAlive == (if status == 0 then false else old(keepAlive))
    {
      if storeDown {
        return Some(StoreUnavailable);
      }
      var r := UnlockScript(store.records, key, holder);
      store.records := r.0;
      var status := r.1;
      if status == 0 {
        StopKeepAlive();
      } else if status == 1 {
        return None;
      } else if status == -1 {
        return Some(HeldByDifferentHolder);
      }
      return None;
    }

    /** startKeepAlive, without the goroutine: only the flag. */
    method StartKeepAlive()
      modifies this
      ensures keepAlive
    {
      keepAlive := true;
    }

    /** stopKeepAlive: the keep-alive loop ends at its next check. */
    method StopKeepAlive()
      modifies this
      ensures !keepAlive
    {
      keepAlive := false;
    }

    /** One tick of the keep-alive loop: while the keep-alive runs, PEXPIRE the key
        with the full expiration. */
    method KeepAliveTick()
      modifies store
      ensures store.records == if keepAlive then PExpire(old(store.records), key, ClientMillis(expiration))
                               else old(store.records)
    {
      if keepAlive {
        store.records := PExpire(store.records, key, ClientMillis(expiration));
      }
    }
  }
}
