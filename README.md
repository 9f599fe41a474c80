# Bitmap, snowflake ids and Redis locks, modelled in Dafny

This project models four small sequential cores of a Go utility repository and proves
properties of them.

- **Bitmap** (`bitmap.dfy`, module `Bitmap`). A set of integer positions stored as
  packed bits. Position `pos` lives at bit index `(pos - offset) / step` of a byte
  array, using Go's truncating division and remainder (module `GoInt`).
  - The three constructors are modelled, together with encodePos/tryEncodePos/decodePos,
    Set/Clear/IsSet, TrySet/TryClear/IsSetWithErr, GetPos/GetNoPos and the accessors.
  - The class keeps the byte `array` and changes it in place. GetPos and GetNoPos keep
    their nested loops, and each is proved against a list function.
- **Snowflake configuration** (`snow_config.dfy`, module `SnowflakeConfig`). The id
  layout `0 | timestamp (41) | datacenter | worker | sequence`, whose low three fields
  share 22 bits.
  - Covers the default configuration, NewSnowConfig's validation and derivation, and
    the pre-packed datacenter and worker ids.
  - Go's `|`, `&`, `<<`, `>>` and `-1 ^ (-1 << n)` on non-negative int64 values are
    defined over `nat` in module `Bits`.
- **Snowflake generator** (`snowflake.dfy`, module `Snowflake`). The generator
  state (`lastTimestamp`, `sequence`) and NextId, with its busy wait for the next
  millisecond.
  - The clock is a parameter: the sequence of readings the calls to the wall clock
    would return.
  - NextId is a method over the class's fields. It is proved equal to a function
    `Next` of the old state and the clock, and the properties are proved about `Next`.
- **Redis locks** (`redis_lock.dfy` and `reentrant_lock.dfy`, with `durations.dfy`).
  - The Redis server is a `Store` object whose map field the lock handles change. The
    exclusive lock maps a key to its holder string; the reentrant lock maps it to a
    `{holder, count}` hash.
  - SETNX and the three Lua scripts, which Redis runs atomically, are functions on the
    map. Lock and Unlock are methods that apply them, switch on the status they return,
    and update the handle's `keepAlive` flag.
  - A failed round trip to Redis is the `storeDown` parameter. It reports an error and
    changes nothing.
  - One tick of the keep-alive loop is a method that refreshes the key's TTL.
  - A key's TTL running out is the environment action `Store.Expire`.

The reentrant lock's script gives PEXPIRE the expiration in whole milliseconds, rounded
toward zero. A positive expiration below one millisecond therefore sends 0, and a
negative one sends 0 or a negative count. Either way PEXPIRE deletes the hash while the
script still reports the lock acquired. (An expiration of 0 never gets this far: the
constructor replaces it with the 10-second default.) On a first acquire nobody
then holds the lock. On a nested acquire by the current holder, every earlier hold is
dropped along with the new one. `ReentrantLock.ShortExpirationLosesLock` states both.

## Model

| member | source | states |
|---|---|---|
| GoInt.Div | bitmap/bitmap.go:55 | Go's `/` truncates toward zero: what is left, a - q*b, is below b in magnitude and has the sign of a |
| GoInt.Rem | bitmap/bitmap.go:52 | Go's `%` is below the divisor in magnitude and carries the dividend's sign |
| GoInt.RemIsSignedModulus | bitmap/bitmap.go:52 | Go's remainder is the magnitudes' remainder with the dividend's sign |
| GoInt.AgreeOnNonNegative | bitmap/bitmap.go:55 | on a non-negative dividend and positive divisor Go's `/` and `%` agree with the mathematical ones |
| Bitmap.ByteCount | bitmap/bitmap.go:20 | `(n+7)/8` is the number of bytes holding n bits, rounded up; it is a valid length exactly when n >= -14 |
| Bitmap.RangeSize | bitmap/bitmap.go:43 | `(end-begin+step-1)/step` is the rounded-up number of strides from begin below end, never more than end - begin |
| Bitmap.RangeSizeBounds | bitmap/bitmap.go:43 | the truncating quotient is the ceiling for d >= 0 and at most 0 for d < 0 |
| Bitmap.CeilingQuotient | bitmap/bitmap.go:43 | an exact decomposition of d + step - 1 gives the ceiling of d / step |
| Bitmap.NegativeQuotient | bitmap/bitmap.go:43 | a negative dividend gives a non-positive truncated quotient |
| Bitmap.BitMaskIsShift | bitmap/bitmap.go:85 | the byte mask table is `1 << j` |
| Bitmap.ByteBitIsMask | bitmap/bitmap.go:103 | the test `b & (1 << j) != 0` reads bit j of b |
| Bitmap.ByteOr | bitmap/bitmap.go:85 | OR with `1<<j` turns on bit j and keeps every other bit |
| Bitmap.ByteAndNot | bitmap/bitmap.go:95 | `x &^ 1<<j` turns off bit j and keeps every other bit |
| Bitmap.SetBit | bitmap/bitmap.go:83-85 | the in-place update turns on exactly one bit of the buffer and keeps its length |
| Bitmap.ClearBit | bitmap/bitmap.go:91-95 | the in-place update turns off exactly one bit of the buffer and keeps its length |
| Bitmap.ClearBitAt | bitmap/bitmap.go:95 | clearing one bit leaves every other bit index as it was |
| Bitmap.ListedBitsSound | bitmap/bitmap.go:109-115 | every index the listing loops produce is below size and has the wanted bit |
| Bitmap.ListedBitsComplete | bitmap/bitmap.go:109-115 | every index below size with the wanted bit is produced |
| Bitmap.ListedBitsIncreasing | bitmap/bitmap.go:109-115 | the loops produce indices in strictly increasing order |
| Bitmap.ListedPartition | bitmap/bitmap.go:107-129 | the set and clear listings together have one entry per index below size |
| Bitmap.Bitmap.NewBitmap | bitmap/bitmap.go:18-24 | `(size+7)/8` zero bytes, the given size, step 1, offset 0 |
| Bitmap.Bitmap.NewBitmapWithOffset | bitmap/bitmap.go:27-34 | `(size+7)/8` zero bytes, the given size and offset, step 1 |
| Bitmap.Bitmap.NewBitmapWithRang | bitmap/bitmap.go:37-46 | panics unless step > 0; `(end-begin+7)/8` zero bytes, size the rounded-up stride count, offset begin; every index below size lies in the buffer |
| Bitmap.Bitmap.EncodePos | bitmap/bitmap.go:50-60 | an accepted position gets a bit index in [0, size) that decodePos maps back to it |
| Bitmap.Bitmap.TryEncodePos | bitmap/bitmap.go:63-73 | no error exactly when encodePos accepts the position, then the same index; otherwise (-1, error) |
| Bitmap.Bitmap.DecodePos | bitmap/bitmap.go:76-78 | no contract of its own: `bit*step + offset`, which DecodeThenEncode proves inverts encodePos on [0, size) and DecodeMonotone proves order-preserving |
| Bitmap.Bitmap.DecodeThenEncode | bitmap/bitmap.go:76-78 | every index in [0, size) decodes to an accepted position that encodes back to it |
| Bitmap.Bitmap.EncodableIffOnGrid | bitmap/bitmap.go:50-60 | the truncating checks accept exactly the positions offset + k*step with 0 <= k < size |
| Bitmap.Bitmap.DecodeMonotone | bitmap/bitmap.go:76-78 | decodePos preserves the order of indices |
| Bitmap.Bitmap.IsSet | bitmap/bitmap.go:99-104 | no contract of its own: the bit of the position's encoded index; SetTouchesOnlyPos and ClearTouchesOnlyPos prove Set makes it true and Clear false for that position alone |
| Bitmap.Bitmap.IsSetWithErr | bitmap/bitmap.go:158-166 | no error exactly for accepted positions, then IsSet's answer; otherwise false and an error |
| Bitmap.Bitmap.Set | bitmap/bitmap.go:81-86 | the buffer afterwards is the old one with the position's bit turned on |
| Bitmap.Bitmap.Clear | bitmap/bitmap.go:89-96 | the buffer afterwards is the old one with the position's bit turned off |
| Bitmap.Bitmap.TrySet | bitmap/bitmap.go:132-141 | an error and an unchanged buffer exactly for rejected positions, otherwise Set |
| Bitmap.Bitmap.TryClear | bitmap/bitmap.go:144-155 | an error and an unchanged buffer exactly for rejected positions, otherwise Clear |
| Bitmap.Bitmap.SetTouchesOnlyPos | bitmap/bitmap.go:81-104 | after Set(pos) IsSet(pos) holds and every other position keeps its bit |
| Bitmap.Bitmap.ClearTouchesOnlyPos | bitmap/bitmap.go:89-104 | after Clear(pos) IsSet(pos) fails and every other position keeps its bit |
| Bitmap.Bitmap.GetPos | bitmap/bitmap.go:107-117 | the positions whose bit is 1, exactly those, in increasing order |
| Bitmap.Bitmap.GetNoPos | bitmap/bitmap.go:119-129 | the positions whose bit is 0, exactly those, in increasing order |
| Bitmap.Bitmap.ListedMeaning | bitmap/bitmap.go:107-129 | a decoded listing is increasing and holds exactly the accepted positions with the wanted bit |
| Bitmap.Bitmap.PositionsPartition | bitmap/bitmap.go:107-129 | GetPos and GetNoPos together list each of the size positions once |
| Bits.Pow2Add | snowflake/snow_config.go:22 | shifting by a + b is shifting by a then by b |
| Bits.Pow2Split | snowflake/snow_config.go:21-22 | the same, with the sum of the widths named |
| Bits.LowMask | snowflake/snow_config.go:16-18 | `-1 ^ (-1 << n)` equals 2^n - 1 |
| Bits.ShlNat | snowflake/snow_config.go:104 | `x << n` on a non-negative value leaves the low n bits clear, and `>> n` gives x back |
| Bits.Or | snowflake/snowflake.go:106 | no contract of its own: bitwise OR of non-negative values, which OrDisjoint proves is the sum on disjoint bits |
| Bits.And | snowflake/snowflake.go:94 | no contract of its own: bitwise AND of non-negative values, which AndLowMask proves keeps the value modulo 2^n under a low mask |
| Bits.Shr | snowflake/snowflake.go:106 | no contract of its own: `x >> n`, which ShlNat proves undoes `<< n` and IdFields uses to read each field of an id back |
| Bits.DivModUnique | snowflake/snowflake.go:106 | division and remainder are determined by any exact decomposition |
| Bits.OrDisjoint | snowflake/snowflake.go:106 | OR of a value with low k bits clear and a value below 2^k is their sum |
| Bits.AndLowMask | snowflake/snowflake.go:94 | AND with the low-n-bit mask keeps exactly the value modulo 2^n |
| SnowflakeConfig.DefaultSnowConfig | snowflake/snow_config.go:43-61 | widths 12/5/5, maxima 31/31, mask 4095, shifts 12/17/22, epoch 0, and well-formed |
| SnowflakeConfig.NewSnowConfig | snowflake/snow_config.go:66-86 | panics unless the widths sum to 22 and each is at least 1; otherwise the maxima and mask are 2^n - 1 and the shifts the sums of the lower widths |
| SnowflakeConfig.WellFormedIsNewSnowConfig | snowflake/snow_config.go:71-85 | a well-formed configuration is the one NewSnowConfig derives from its epoch and widths |
| SnowflakeConfig.DefaultIsNewSnowConfig | snowflake/snow_config.go:43-61 | the default configuration is NewSnowConfig(0, 5, 5, 12) |
| SnowflakeConfig.DatacenterIdWorkId | snowflake/snow_config.go:104 | no contract of its own: the OR of `datacenterId << datacenterIdShift` and `workerId << workerIdShift`, which PackedIdsFields proves is the sum of the shifted ids and returns both |
| SnowflakeConfig.PackedIdsFields | snowflake/snow_config.go:104 | the packed datacenter/worker value is their sum, lies in bits [sequenceBits, 22), and returns both ids |
| SnowflakeConfig.PackedOrIsSum | snowflake/snow_config.go:104 | the two shifted ids occupy disjoint bits, so their OR is their sum |
| SnowflakeConfig.PackedSum | snowflake/snow_config.go:104 | the sum of the shifted ids stays below 2^22 and returns both ids by shift and mask |
| SnowflakeConfig.PackedBounds | snowflake/snow_config.go:104 | the shifted worker id is below the datacenter field, and the sum leaves room for the sequence below 2^22 |
| SnowflakeConfig.PackedWorker | snowflake/snow_config.go:104 | the worker id is read back by shift and mask |
| SnowflakeConfig.PackedDatacenter | snowflake/snow_config.go:104 | the datacenter id is read back by shift |
| SnowflakeConfig.TwoFields | snowflake/snow_config.go:104 | two non-overlapping fields are bounded and read back by division |
| Snowflake.TimestampLimitIsPow2 | snowflake/snow_config.go:7 | the 41-bit timestamp field holds values below 2^41 |
| Snowflake.LaterReading | snowflake/snowflake.go:96-98 | the reading the busy wait stops at is strictly later than the last timestamp and fits 41 bits |
| Snowflake.Next | snowflake/snowflake.go:88-106 | one NextId call keeps the state in range and never lowers the last timestamp |
| Snowflake.NextSequence | snowflake/snowflake.go:94 | no contract of its own: `(sequence+1) & sequenceMask`, which SequenceWraps proves counts modulo 2^sequenceBits |
| Snowflake.ComposeId | snowflake/snowflake.go:106 | no contract of its own: the OR of `now << timestampLeftShift`, datacenterIdWorkId and the sequence, which IdFields, IdIsInt64 and IdOrder describe |
| Snowflake.SequenceWraps | snowflake/snowflake.go:94-95 | `(sequence+1) & mask` counts modulo 2^sequenceBits and wraps to 0 exactly after the mask |
| Snowflake.IdFields | snowflake/snowflake.go:106 | the id is the sum of its fields, is below 2^41 * 2^timestampLeftShift, and returns timestamp, sequence, worker and datacenter by shift and mask |
| Snowflake.IdIsInt64 | snowflake/snowflake.go:106 | every id composed from a 41-bit timestamp and in-range fields is below 2^63, so it is a non-negative int64 |
| Snowflake.IdIsSum | snowflake/snowflake.go:106 | both ORs of the id add disjoint fields |
| Snowflake.SumHasFields | snowflake/snowflake.go:106 | the id written as a sum returns its four fields |
| Snowflake.ComposeOrIsSum | snowflake/snowflake.go:106 | with the packed ids in bits [s, t) and the sequence below 2^s, both ORs add |
| Snowflake.ShiftedMultiples | snowflake/snowflake.go:106 | the shifted timestamp and the packed ids have their low bits clear |
| Snowflake.Multiples | snowflake/snowflake.go:106 | multiples of the field units stay multiples when added |
| Snowflake.FieldsOfSum | snowflake/snowflake.go:106 | the id's four fields are read back in terms of the widths |
| Snowflake.ThreeFields | snowflake/snowflake.go:106 | four stacked fields are bounded and read back by division |
| Snowflake.NextBackwards | snowflake/snowflake.go:88-91 | an error exactly when the reading is below the last timestamp, then id 0 and the state unchanged |
| Snowflake.NextUpdatesSequence | snowflake/snowflake.go:93-102 | same millisecond: sequence + 1 modulo 2^sequenceBits, and a wrap moves to a strictly later reading; new millisecond: sequence 0 |
| Snowflake.NextAdvances | snowflake/snowflake.go:93-104 | each id moves the state strictly forward in (timestamp, sequence) order |
| Snowflake.NextIdIsStateId | snowflake/snowflake.go:104-106 | a successful call returns the id of the state it leaves |
| Snowflake.NextIdDecodes | snowflake/snowflake.go:104-106 | the returned id's fields are the new timestamp, the new sequence, the worker id and the datacenter id |
| Snowflake.IdOrder | snowflake/snowflake.go:106 | ids of one generator are ordered as their (timestamp, sequence) pairs |
| Snowflake.IdsIncrease | snowflake/snowflake.go:93-106 | two successive successful calls return strictly increasing ids |
| Snowflake.FirstNext | snowflake/snow_config.go:100-103 | a fresh generator accepts any first reading and starts that millisecond at sequence 0 |
| Snowflake.Snowflake.constructor | snowflake/snow_config.go:98-105 | the generator starts at last timestamp -1 and sequence 0 with the packed ids |
| Snowflake.Snowflake.NextId | snowflake/snowflake.go:84-109 | the returned id, error and new state are those of Next on the old state and the clock, and the state stays in range |
| Snowflake.NewSnowflake | snowflake/snow_config.go:89-107 | the worker id check comes first, then the datacenter id check; a generator only when both ids fit, starting at (-1, 0) |
| Snowflake.NewSnowflakeByDefaultConfig | snowflake/snowflake.go:79-81 | NewSnowflake under the default configuration: both ids must lie in [0, 31] |
| Durations.EffectiveExpiration | redis/redis_lock/redis_lock.go:28-30 | an expiration of 0 becomes the 10-second default, any other is kept (the reentrant lock does the same) |
| Durations.KeepAliveTtl | redis/redis_lock/redis_lock.go:37 | the keep-alive period is half the expiration rounded toward zero, so below the expiration when that exceeds 1 ns |
| Durations.WholeMillis | redis/reentrant_lock/reentrant_lock.go:62 | `int(expiration / time.Millisecond)` is the whole milliseconds, rounded toward zero |
| Durations.ClientMillis | redis/redis_lock/redis_lock.go:45 | a positive duration reaches Redis as at least 1 ms and otherwise as its whole milliseconds |
| RedisLock.SetNX | redis/redis_lock/redis_lock.go:45 | no contract of its own: SETNX, which LockIffFree proves succeeds exactly on an absent key |
| RedisLock.UnlockScript | redis/redis_lock/redis_lock.go:61-68 | no contract of its own: the GET-then-DEL script, which UnlockStatus proves deletes exactly the key its holder holds |
| RedisLock.UnlockError | redis/redis_lock/redis_lock.go:75-83 | no contract of its own: status 0 is "lock does not exist", -1 "held by a different holder", 1 no error; UnlockStatus proves 0 never occurs |
| RedisLock.PExpire | redis/redis_lock/redis_lock.go:98 | no contract of its own: a new TTL for an existing key, deletion for a TTL at or below 0; RefreshKeepsHolders proves a positive refresh keeps every holder |
| RedisLock.LockIffFree | redis/redis_lock/redis_lock.go:45 | SETNX succeeds exactly on an absent key, which then holds the holder; a refusal changes nothing |
| RedisLock.NotReentrant | redis/redis_lock/redis_lock.go:45 | a second Lock on a held key, by the same holder or another, is refused |
| RedisLock.UnlockStatus | redis/redis_lock/redis_lock.go:61-83 | the script returns 1 and deletes the key exactly when it holds the holder, otherwise -1 with no change; 0 never occurs |
| RedisLock.MutualExclusion | redis/redis_lock/redis_lock.go:45-67 | another holder can neither lock nor unlock a held key |
| RedisLock.LockUnlockRoundTrip | redis/redis_lock/redis_lock.go:45-64 | Lock then Unlock by one holder restores the store, with status 1 |
| RedisLock.RefreshKeepsHolders | redis/redis_lock/redis_lock.go:98 | a refresh with a positive TTL keeps the keys and their holders, and neither Lock nor Unlock can tell it happened |
| RedisLock.Lock.constructor | redis/redis_lock/redis_lock.go:25-39 | the default expiration for 0, keep-alive period expiration / 2, keep-alive off |
| RedisLock.Lock.Lock | redis/redis_lock/redis_lock.go:41-55 | a store error: (false, error) and nothing changes; otherwise SETNX's result, and the keep-alive starts on success |
| RedisLock.Lock.Unlock | redis/redis_lock/redis_lock.go:57-86 | a store error changes nothing; otherwise the script's new store, status 1 stops the keep-alive, 0 and -1 are errors |
| RedisLock.Lock.StartKeepAlive | redis/redis_lock/redis_lock.go:89-90 | the keep-alive flag is set |
| RedisLock.Lock.StopKeepAlive | redis/redis_lock/redis_lock.go:105-107 | the keep-alive flag is cleared |
| RedisLock.Lock.KeepAliveTick | redis/redis_lock/redis_lock.go:95-98 | while the keep-alive runs, PEXPIRE the key with the full expiration; otherwise no change |
| RedisLock.Store.Expire | redis/redis_lock/redis_lock.go:45 | the key's TTL runs out and Redis deletes it |
| ReentrantLock.LockScript | redis/reentrant_lock/reentrant_lock.go:45-60 | no contract of its own: the HGET/HSET/HINCRBY/PEXPIRE script, which LockScriptMeaning describes |
| ReentrantLock.UnlockScript | redis/reentrant_lock/reentrant_lock.go:79-91 | no contract of its own: the HINCRBY -1 script, which UnlockScriptMeaning describes |
| ReentrantLock.UnlockError | redis/reentrant_lock/reentrant_lock.go:98-107 | no contract of its own: only status -1 is an error, "held by a different holder"; UnlockScriptMeaning proves -1 means an absent key or another holder |
| ReentrantLock.PExpire | redis/reentrant_lock/reentrant_lock.go:122 | no contract of its own: a new TTL for an existing key, deletion for a TTL at or below 0; RefreshKeepsHolds proves a positive refresh keeps every hold |
| ReentrantLock.LockScriptMeaning | redis/reentrant_lock/reentrant_lock.go:45-60 | status 1 exactly when the key is absent or held by the holder, which then holds it with one more hold and the new TTL; status 0 otherwise, with no change |
| ReentrantLock.ShortExpirationLosesLock | redis/reentrant_lock/reentrant_lock.go:50-62 | any expiration below 1 ms (positive or negative), on a free key or one the same holder already holds, reports the lock acquired yet leaves no hash behind, dropping every earlier hold |
| ReentrantLock.UnlockScriptMeaning | redis/reentrant_lock/reentrant_lock.go:79-91 | the last hold deletes the key with status 0, an earlier one lowers the count with status 1; an absent key or another holder gets -1, no change, and the only error |
| ReentrantLock.ScriptsKeepCountsPositive | redis/reentrant_lock/reentrant_lock.go:45-91 | every count stored stays at least 1 through both scripts, a refresh and an expiry |
| ReentrantLock.MutualExclusion | redis/reentrant_lock/reentrant_lock.go:52-90 | another holder can neither lock nor unlock a held key |
| ReentrantLock.RefreshKeepsHolds | redis/reentrant_lock/reentrant_lock.go:122 | a refresh with a positive TTL keeps the keys, holders and counts, and neither script can tell it happened |
| ReentrantLock.LockTimesCount | redis/reentrant_lock/reentrant_lock.go:46-56 | n locks from a free key all succeed and leave the holder with count n |
| ReentrantLock.UnlockTimesCount | redis/reentrant_lock/reentrant_lock.go:80-87 | k < n unlocks of a count-n record leave count n - k |
| ReentrantLock.ReentrantRoundTrip | redis/reentrant_lock/reentrant_lock.go:45-91 | after n locks, the first n - 1 unlocks return 1 and keep the lock, and the n-th returns 0 and restores the keyspace |
| ReentrantLock.ReentrantLock.constructor | redis/reentrant_lock/reentrant_lock.go:25-39 | the default expiration for 0, keep-alive period expiration / 2, keep-alive off |
| ReentrantLock.ReentrantLock.Lock | redis/reentrant_lock/reentrant_lock.go:41-73 | a store error: (false, error) and nothing changes; otherwise the lock script's new keyspace, acquired when it returns 1, and the keep-alive starts on success |
| ReentrantLock.ReentrantLock.Unlock | redis/reentrant_lock/reentrant_lock.go:75-110 | a store error changes nothing; otherwise the unlock script's keyspace, status 0 stops the keep-alive, 1 keeps it, and -1 is the only error |
| ReentrantLock.ReentrantLock.StartKeepAlive | redis/reentrant_lock/reentrant_lock.go:113-114 | the keep-alive flag is set |
| ReentrantLock.ReentrantLock.StopKeepAlive | redis/reentrant_lock/reentrant_lock.go:128-131 | the keep-alive flag is cleared |
| ReentrantLock.ReentrantLock.KeepAliveTick | redis/reentrant_lock/reentrant_lock.go:119-123 | while the keep-alive runs, PEXPIRE the key with the full expiration; otherwise no change |
| ReentrantLock.Store.Expire | redis/reentrant_lock/reentrant_lock.go:50 | the key's TTL runs out and Redis deletes it |

## Left out

- The keep-alive goroutines and tickers are not modelled. Only the `keepAlive` flag and one refresh step (`KeepAliveTick`) are; the unsynchronised read of the flag by the goroutine is not. The goroutine tests the flag before it blocks on the ticker, so a tick already waiting when StopKeepAlive clears the flag still sends one PEXPIRE; KeepAliveTick tests the flag at the tick itself and rules that late refresh out.
- The ticker's panic on a non-positive period, when the expiration is 1 ns or negative, is not modelled, because the goroutine is not.
- The Redis client, the network and `context` are not modelled. A failed round trip is the `storeDown` parameter, reported as `StoreUnavailable` instead of the wrapped Go error text.
- The TTL countdown is not modelled. Only the environment action `Store.Expire` deletes a key.
- RedisLock.Lock.Lock: the model does not distinguish negative expirations. For those, the client sends `SET ... KEEPTTL` (for -1 ns) or Redis rejects the command. The model stores the converted milliseconds instead.
- The client's choice between whole seconds (`EX`) and milliseconds (`PX`) for SETNX is not modelled. The model always stores milliseconds, which agree for whole seconds.
- A key holding a value of the wrong type (Redis WRONGTYPE errors) is not modelled: each store holds only its own lock's records.
- `uuid.New()` is not modelled. The holder string is a constructor parameter.
- The `sync.Mutex` fields are not modelled. Sequential methods already serialise the calls on one handle.
- The wall clock is not modelled. NextId takes the readings as a parameter.
- Snowflake.Snowflake.NextId requires a later reading to exist when the sequence wraps. The busy wait would spin forever on a clock that never advances.
- The `epochTime time.Time` field and the `time.UnixMilli` conversion are not kept. NewSnowConfig takes the epoch in milliseconds.
- The commented-out legacy generator (snowflake/snowflake.go:9-62) is dead code.
- The sentinel errors of snowflake/error.go are the constructors of `SnowflakeError`.
- common.go's `IfElse` is not modelled.
- int64 overflow is not modelled. Every clock reading must lie in [epoch, epoch + 2^41), so every id is a non-negative int64 and no shift loses a bit.
- A reading equal to the initial `lastTimestamp` of -1 is excluded by the same bound.
- Panics are preconditions. These are encodePos on a rejected position, `make` with a negative length, NewBitmapWithRang with step <= 0, and NewSnowConfig with invalid widths.
- Snowflake.NewSnowflake requires WellFormed(c), the shape defaultSnowConfig and NewSnowConfig build. Go accepts any non-nil configuration, such as a zero `SnowConfig{}` literal, and does not panic on it; such configurations are excluded here.
- Go's byte `1 << j` is a table, `BitMask`, which `BitMaskIsShift` checks against the shift.
- The accessors Size, Step and Offset only return fields and carry no contract.
