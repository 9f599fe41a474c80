/**
 The non-reentrant Redis lock. The key holds the holder string of the handle that
 set it; SETNX acquires, and a Lua script (which Redis runs atomically) deletes the
 key only when it still holds this handle's holder. The store is an in-memory map
 from key to entry; a failed round trip to Redis is the `storeDown` parameter and
 changes nothing.
 */
module RedisLock {
  import opened Wrappers
  import GoInt
  import opened Durations

  /** A key's value and the time to live, in milliseconds, last given to it. */
  datatype Entry = Entry(value: string, ttlMillis: int)

  /** Why Lock or Unlock report an error. */
  datatype LockError = StoreUnavailable | LockDoesNotExist | HeldByDifferentHolder

  /** SETNX: sets the key, with its TTL, only when it is absent; reports whether it did. */
  function SetNX(m: map<string, Entry>, key: string, value: string, ttlMillis: int): (map<string, Entry>, bool) {
    if key in m then (m, false) else (m[key := Entry(value, ttlMillis)], true)
  }

  /** DEL: removes the key and returns how many keys it removed. */
  function Del(m: map<string, Entry>, key: string): (map<string, Entry>, int) {
    if key in m then (m - {key}, 1) else (m, 0)
  }

  /** The unlock script: GET the key; when it holds `holder`, return DEL's count,
      otherwise -1. GET on an absent key yields nil, which equals no holder. */
  function UnlockScript(m: map<string, Entry>, key: string, holder: string): (map<string, Entry>, int) {
    if key in m && m[key].value == holder then Del(m, key) else (m, -1)
  }

  /** PEXPIRE: gives an existing key a new TTL; a TTL that is not positive has
      already run out, and Redis deletes the key. */
  function PExpire(m: map<string, Entry>, key: string, ttlMillis: int): map<string, Entry> {
    if key !in m then m
    else if ttlMillis <= 0 then m - {key}
    else m[key := m[key].(ttlMillis := ttlMillis)]
  }

  /** Unlock's switch on the script's status. */
  function UnlockError(status: int): Option<LockError> {
    if status == 0 then Some(LockDoesNotExist)
    else if status == -1 then Some(HeldByDifferentHolder)
    else None
  }

  /** Lock acquires exactly when the key is free, and then the key holds this holder;
      a refused Lock leaves the store as it was. */
  lemma LockIffFree(m: map<string, Entry>, key: string, holder: string, ttlMillis: int)
    ensures var (m', ok) := SetNX(m, key, holder, ttlMillis);
      && (ok <==> key !in m)
      && (ok ==> key in m' && m'[key].value == holder && m' - {key} == m - {key})
      && (!ok ==> m' == m)
  {
  }

  /** The lock is not reentrant: once a holder has the key, a second Lock, by the same
      holder or any other, is refused and changes nothing. */
  lemma NotReentrant(m: map<string, Entry>, key: string, holder: string, other: string, ttlMillis: int, ttl2: int)
    requires key !in m
    ensures var m1 := SetNX(m, key, holder, ttlMillis).0;
      SetNX(m1, key, other, ttl2) == (m1, false)
  {
  }

  /** The unlock script never returns 0: DEL runs only after GET found the key in the
      same atomic script. It returns 1 and deletes the key exactly when the key holds
      this holder, and otherwise returns -1 and changes nothing. */
  lemma UnlockStatus(m: map<string, Entry>, key: string, holder: string)
    ensures var (m', status) := UnlockScript(m, key, holder);
      && status != 0
      && (status == 1 <==> key in m && m[key].value == holder)
      && (status == 1 ==> key !in m' && m' == m - {key})
      && (status == -1 ==> m' == m)
      && UnlockError(status) == (if status == 1 then None else Some(HeldByDifferentHolder))
  {
  }

  /** While one holder has the key, another holder can neither lock nor unlock it:
      both are refused and leave the store unchanged. */
  lemma MutualExclusion(m: map<string, Entry>, key: string, holder: string, other: string, ttlMillis: int, ttl2: int)
    requires key !in m && other != holder
    ensures var m1 := SetNX(m, key, holder, ttlMillis).0;
      && SetNX(m1, key, other, ttl2) == (m1, false)
      && UnlockScript(m1, key, other) == (m1, -1)
  {
  }

  /** Lock then Unlock by the same holder on a free key gives back the store it
      started from, with status 1. */
  lemma {:induction false} LockUnlockRoundTrip(m: map<string, Entry>, key: string, holder: string, ttlMillis: int)
    requires key !in m
    ensures UnlockScript(SetNX(m, key, holder, ttlMillis).0, key, holder) == (m, 1)
  {
    var m1 := m[key := Entry(holder, ttlMillis)];
    assert m1 - {key} == m;
  }

  /** A keep-alive refresh changes only the key's TTL: the same keys hold the same
      values, so neither Lock nor Unlock can tell it happened. */
  lemma {:induction false} RefreshKeepsHolders(m: map<string, Entry>, key: string, ttlMillis: int, holder: string, ttl2: int)
    requires ttlMillis > 0
    ensures var m' := PExpire(m, key, ttlMillis);
      && m'.Keys == m.Keys
      && (forall k :: k in m ==> m'[k].value == m[k].value)
      && SetNX(m', key, holder, ttl2).1 == SetNX(m, key, holder, ttl2).1
      && UnlockScript(m', key, holder).1 == UnlockScript(m, key, holder).1
  {
    var m' := PExpire(m, key, ttlMillis);
    if key in m {
      assert m'.Keys == m.Keys by {
        assert forall k :: k in m' <==> k in m;
      }
    }
  }

  /** The Redis server behind the handles: the keys and their entries. */
  class Store {
    var entries: map<string, Entry>

    constructor ()
      ensures entries == map[]
    {
      entries := map[];
    }

    /** The key's TTL runs out: Redis deletes it. */
    method Expire(key: string)
      modifies this
      ensures entries == old(entries) - {key}
    {
      entries := entries - {key};
    }
  }

  /** A lock handle: the key it guards, the holder string that identifies it, its
      expiration and keep-alive period, and whether its keep-alive is running. */
  class Lock {
    const store: Store
    const key: string
    const holder: string
    const expiration: int
    const keepAliveTtl: int
    var keepAlive: bool

    /** NewLock. The holder is the handle's unique identifier. */
    constructor (store: Store, key: string, holder: string, expiration: int)
      ensures this.store == store && this.key == key && this.holder == holder
      ensures this.expiration == EffectiveExpiration(expiration)
      ensures keepAliveTtl == KeepAliveTtl(this.expiration)
      ensures !keepAlive
    {
      this.store := store;
      this.key := key;
      this.holder := holder;
      var e := expiration;
      if e == 0 {
        e := DefaultExpiration;
      }
      this.expiration := e;
      this.keepAlive := false;
      this.keepAliveTtl := GoInt.Div(e, 2);
    }

    /** Lock: SETNX the key to this holder. On success the keep-alive starts unless it
        is already running; a failed round trip changes nothing. */
    method Lock(storeDown: bool) returns (ok: bool, err: Option<LockError>)
      modifies this, store
      ensures storeDown ==> !ok && err == Some(StoreUnavailable)
      ensures storeDown ==> store.entries == old(store.entries) && keepAlive == old(keepAlive)
      ensures !storeDown ==>
        && err == None
        && (store.entries, ok) == SetNX(old(store.entries), key, holder, ClientMillis(expiration))
        && keepAlive == (old(keepAlive) || ok)
    {
      if storeDown {
        return false, Some(StoreUnavailable);
      }
      var r := SetNX(store.entries, key, holder, ClientMillis(expiration));
      store.entries := r.0;
      var success := r.1;
      if success && !keepAlive {
        StartKeepAlive();
      }
      return success, None;
    }

    /** Unlock: run the unlock script; status 1 stops the keep-alive, 0 and -1 are
        reported as errors. */
    method Unlock(storeDown: bool) returns (err: Option<LockError>)
      modifies this, store
      ensures storeDown ==> err == Some(StoreUnavailable)
      ensures storeDown ==> store.entries == old(store.entries) && keepAlive == old(keepAlive)
      ensures !storeDown ==>
        var (m, status) := UnlockScript(old(store.entries), key, holder);
        && store.entries == m
        && err == UnlockError(status)
        && keepAlive == (if status == 1 then false else old(keepAlive))
    {
      if storeDown {
        return Some(StoreUnavailable);
      }
      var r := UnlockScript(store.entries, key, holder);
      store.entries := r.0;
      var status := r.1;
      if status == 0 {
        return Some(LockDoesNotExist);
      } else if status == 1 {
        StopKeepAlive();
      } else if status == -1 {
        return Some(HeldByDifferentHolder);
      }
      return None;
    }

    /** startKeepAlive, without the goroutine: only the flag. */
    method StartKeepAlive()
      modifies this
      ensures keepAlive
    {
      keepAlive := true;
    }

    /** stopKeepAlive: the keep-alive loop ends at its next check. */
    method StopKeepAlive()
      modifies this
      ensures !keepAlive
    {
      keepAlive := false;
    }

    /** One tick of the keep-alive loop: while the keep-alive runs, PEXPIRE the key
        with the full expiration. */
    method KeepAliveTick()
      modifies store
      ensures store.entries == if keepAlive then PExpire(old(store.entries), key, ClientMillis(expiration))
                               else old(store.entries)
    {
      if keepAlive {
        store.entries := PExpire(store.entries, key, ClientMillis(expiration));
      }
    }
  }
}
