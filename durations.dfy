/**
 Go's time.Duration as both locks use it: a count of nanoseconds, with the default
 expiration, the keep-alive period derived from an expiration, and the two ways a
 duration becomes the milliseconds Redis is given.
 */
module Durations {
  import GoInt

  const Millisecond: int := 1_000_000
  const Second: int := 1_000 * Millisecond
  /** `defaultExpiration = 10 * time.Second`. */
  const DefaultExpiration: int := 10 * Second

  /** The expiration a new handle keeps: 0 stands for the default. */
  function EffectiveExpiration(expiration: int): (e: int)
    ensures e != 0
    ensures expiration != 0 ==> e == expiration
    ensures expiration == 0 ==> e == 10_000_000_000
  {
    if expiration == 0 then DefaultExpiration else expiration
  }

  /** The keep-alive period `expiration / 2`: half the expiration, rounded toward
      zero, so that a refresh is due before the key expires. */
  function KeepAliveTtl(expiration: int): (t: int)
    ensures expiration >= 0 ==> 0 <= t && 2 * t <= expiration < 2 * t + 2
    ensures expiration > 1 ==> 0 < t < expiration
    ensures expiration < 0 ==> t <= 0 && 2 * t - 2 < expiration <= 2 * t
  {
    GoInt.Div(expiration, 2)
  }

  /** `int(expiration / time.Millisecond)`: whole milliseconds, rounded toward zero. */
  function WholeMillis(d: int): (ms: int)
    ensures d >= 0 ==> 0 <= ms && ms * Millisecond <= d < (ms + 1) * Millisecond
    ensures d < 0 ==> ms <= 0 && (ms - 1) * Millisecond < d <= ms * Millisecond
  {
    GoInt.Div(d, Millisecond)
  }

  /** How the Redis client turns a duration it is given into milliseconds: whole
      milliseconds, except that a positive duration below one millisecond is sent
      as 1. */
  function ClientMillis(d: int): (ms: int)
    ensures d > 0 ==> ms >= 1 && (ms - 1) * Millisecond <= d
    ensures d >= Millisecond ==> ms * Millisecond <= d < (ms + 1) * Millisecond
    ensures d <= 0 ==> ms <= 0
  {
    if 0 < d < Millisecond then 1 else WholeMillis(d)
  }
}
