/**
 * The time-to-live rule shared by the status getters of src/ports/status.ts
 * and src/adapters/status.ts: a record fetched less than five minutes ago is
 * served from memory; otherwise the service is asked again, and a failed
 * attempt leaves the old record in place.
 */
module StatusCache {
  import opened Wrappers

  /** `STATUS_EXPIRATION_TIME_MS`: five minutes. */
  const StatusExpirationTimeMs: int := 1000 * 60 * 5

  /** A record stamped `time` may be served at `now`. */
  predicate Fresh(time: int, now: int) {
    now - time < StatusExpirationTimeMs
  }

  /** The answer one getter gives at `now` and the record it keeps
   *  afterwards; `refreshed` is what a new fetch would produce. */
  datatype Outcome<T> = Outcome(answer: Option<T>, kept: Option<T>)

  function Lookup<T>(cache: Option<T>, timeOf: T -> int, refreshed: Option<T>, now: int): (r: Outcome<T>)
    // a fresh record is served, whatever the service would say
    ensures cache.Some? && Fresh(timeOf(cache.value), now) ==> r == Outcome(cache, cache)
    // otherwise the service's answer is returned, and kept only when there is one
    ensures !(cache.Some? && Fresh(timeOf(cache.value), now)) ==>
      r.answer == refreshed && r.kept == (if refreshed.Some? then refreshed else cache)
  {
    if cache.Some? && Fresh(timeOf(cache.value), now) then Outcome(cache, cache)
    else if refreshed.Some? then Outcome(refreshed, refreshed)
    else Outcome(None, cache)
  }

  /** A record refreshed at `now` is served unchanged by every call in the
   *  next five minutes, whatever the service would answer then. */
  lemma RefreshedServedForFiveMinutes<T>(cache: Option<T>, timeOf: T -> int, refreshed: T, now: int, later: int, other: Option<T>)
    requires !(cache.Some? && Fresh(timeOf(cache.value), now))
    requires timeOf(refreshed) == now && now <= later < now + StatusExpirationTimeMs
    ensures Lookup(Lookup(cache, timeOf, Some(refreshed), now).kept, timeOf, other, later).answer == Some(refreshed)
  {
  }

  /** After five minutes the record is no longer served on its own. */
  lemma ExpiredRecordRefetched<T>(record: T, timeOf: T -> int, later: int, other: Option<T>)
    requires later >= timeOf(record) + StatusExpirationTimeMs
    ensures Lookup(Some(record), timeOf, other, later).answer == other
  {
  }
}
