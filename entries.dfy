/**
  Cache entries and the one expiry test shared by the lazy read path and the
  sweep (cache.go:46-51, cache.go:149-158). Times are Unix times in integer
  nanoseconds and durations integer nanoseconds, standing for Go's
  `time.Time` and `time.Duration`.
 */
module Entries {

  const NANOS_PER_SECOND: int := 1_000_000_000

  /** `storageData`: a persistent entry never expires; any other one is due
      once `setTime + expireDuration` is reached, in whole seconds. */
  datatype Entry<V> = Entry(isPersistence: bool, setTime: int, expireDuration: int, data: V)

  /** What `Set` stores: persistent, with a zero duration (cache.go:74-79). */
  function Persistent<V>(now: int, data: V): Entry<V>
  {
    Entry(true, now, 0, data)
  }

  /** What `SetEx` stores: not persistent, with the given duration (cache.go:84-89). */
  function WithExpiry<V>(now: int, duration: int, data: V): Entry<V>
  {
    Entry(false, now, duration, data)
  }

  /** Go's `Time.Unix()`: the whole seconds of `t`, rounded down (also before
      1970, since Go keeps the nanosecond part of a time non-negative). */
  function UnixSeconds(t: int): int
  {
    t / NANOS_PER_SECOND
  }

  /** `UnixSeconds(t)` is the second that holds `t`. */
  lemma UnixSecondsFloor(t: int)
    ensures UnixSeconds(t) * NANOS_PER_SECOND <= t < (UnixSeconds(t) + 1) * NANOS_PER_SECOND
  {
  }

  /** The test of `removeIfExpired`: a persistent entry is never expired;
      another one is when the Unix second of its deadline is at most the Unix
      second of `now` (cache.go:150-153). */
  predicate Expired<V>(sd: Entry<V>, now: int)
  {
    if sd.isPersistence then false
    else UnixSeconds(sd.setTime + sd.expireDuration) <= UnixSeconds(now)
  }

  /** The instant a non-persistent entry becomes expired: the start of the
      second that holds its deadline. */
  function ExpiryInstant<V>(sd: Entry<V>): int
  {
    UnixSeconds(sd.setTime + sd.expireDuration) * NANOS_PER_SECOND
  }

  /** Floor division by a second is monotonic. */
  lemma UnixSecondsMonotonic(t: int, u: int)
    requires t <= u
    ensures UnixSeconds(t) <= UnixSeconds(u)
  {
  }

  /** Whole seconds of `t` are at most `s` exactly when `t` is before the end
      of second `s`. */
  lemma UnixSecondsAtMost(t: int, s: int)
    ensures UnixSeconds(t) <= s <==> t < (s + 1) * NANOS_PER_SECOND
  {
  }

  /** The expiry test in instants: a non-persistent entry is expired exactly
      from `ExpiryInstant` on, and a persistent one never. */
  lemma ExpiredIffReached<V>(sd: Entry<V>, now: int)
    ensures Expired(sd, now) <==> !sd.isPersistence && ExpiryInstant(sd) <= now
  {
  }

  /** Once expired, an entry stays expired at every later time. */
  lemma ExpiredStaysExpired<V>(sd: Entry<V>, now: int, later: int)
    requires now <= later
    requires Expired(sd, now)
    ensures Expired(sd, later)
  {
  }

  /** A non-persistent entry whose full duration has elapsed is expired; in
      particular a duration of zero or less is expired at once. */
  lemma ExpiredAfterDuration<V>(sd: Entry<V>, now: int)
    requires !sd.isPersistence
    requires sd.setTime + sd.expireDuration <= now
    ensures Expired(sd, now)
  {
  }

  /** A non-persistent entry is live until the second holding its deadline
      begins, so it can expire up to one second before its duration has
      elapsed: here a one-second entry set at 0.9 s is expired at 1.0 s. */
  lemma ExpiresBeforeDurationElapses<V>(v: V)
    ensures var sd := WithExpiry(900_000_000, NANOS_PER_SECOND, v);
      Expired(sd, NANOS_PER_SECOND) && NANOS_PER_SECOND < sd.setTime + sd.expireDuration
  {
  }

  /** The expiry instant is never after the deadline, and less than a second
      before it. */
  lemma ExpiryInstantBounds<V>(sd: Entry<V>)
    ensures sd.setTime + sd.expireDuration - NANOS_PER_SECOND < ExpiryInstant(sd)
    ensures ExpiryInstant(sd) <= sd.setTime + sd.expireDuration
  {
  }
}
