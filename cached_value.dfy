/** The persisted cache entry of the caching client and the pure tests the
    client applies to it: whether an entry is fresh, whether a status is a
    server error, and what expiry a new entry records. */
module CachedValues {

  datatype Option<+T> = None | Some(value: T)

  /** An unsigned 8-bit byte. */
  newtype Byte = b: int | 0 <= b < 256

  type Bytes = seq<Byte>

  /** An HTTP status code as the transport reports it (an unsigned 16-bit value). */
  type Status = s: int | 0 <= s < 0x1_0000

  /** A reading of the wall clock; durations are counted in the same unit. */
  type Instant = int

  /** The record kept under a cache key: an optional absolute expiry and the
      response body exactly as it was fetched. */
  datatype CachedValue = CachedValue(expires: Option<Instant>, value: Bytes)

  /** What the bytes read from the store turn into: a decoded record, or
      bytes that do not decode as one. */
  datatype Record = Decodable(cached: CachedValue) | Corrupt

  /** The cache serves an entry only when its expiry is present and lies
      strictly after the current time; an absent expiry is stale. */
  predicate IsFresh(c: CachedValue, now: Instant)
    ensures c.expires.None? ==> !IsFresh(c, now)
    ensures c.expires == Some(now) ==> !IsFresh(c, now)
    ensures c.expires.Some? && c.expires.value > now ==> IsFresh(c, now)
  {
    match c.expires
    case Some(expires) => expires > now
    case None => false
  }

  /** Freshness only runs out: an entry fresh now was fresh at every earlier
      time, and an entry stale now stays stale at every later time. */
  lemma FreshnessMonotone(c: CachedValue, now: Instant, t: Instant)
    requires t <= now
    ensures IsFresh(c, now) ==> IsFresh(c, t)
    ensures !IsFresh(c, t) ==> !IsFresh(c, now)
  {
  }

  /** A server error: the response is reported to the caller and not cached. */
  predicate IsRetriable(status: Status)
    ensures 500 <= status < 600 ==> IsRetriable(status)
    ensures status < 500 ==> !IsRetriable(status)
    ensures status >= 600 ==> IsRetriable(status)
  {
    status >= 500
  }

  /** The entry written for a body fetched at `now`: it expires `duration`
      after `now`, or carries no expiry when no duration is configured.
      Under the freshness rule above it is therefore served exactly until
      `now + duration`, and never when there is no duration. */
  function NewEntry(duration: Option<nat>, now: Instant, body: Bytes): (c: CachedValue)
    ensures c.value == body
    ensures duration.None? ==> c.expires.None?
    ensures forall t :: IsFresh(c, t) <==> duration.Some? && t < now + duration.value
  {
    CachedValue(if duration.Some? then Some(now + duration.value) else None, body)
  }

  /** A newly written entry is fresh at the time of writing exactly when a
      positive duration is configured. */
  lemma NewEntryFreshNow(duration: Option<nat>, now: Instant, body: Bytes)
    ensures IsFresh(NewEntry(duration, now, body), now) <==> duration.Some? && duration.value > 0
  {
  }
}
