/** What one operation on URLs sees of the one before it: create then resolve, resolve then resolve, delete then resolve. */
module UrlRoundTrips {
  import opened Wrappers
  import opened Redis
  import opened Api
  import opened Keys
  import opened RedisServer
  import opened UrlStore
  import opened UrlService
  import opened UrlServiceRuns

  /** The GET is answered before an entry written at `at` expires. */
  predicate InTime(get: Call, at: Time, ttl: int) {
    get.Reply? && (ttl > 0 ==> get.at < at + ttl as real)
  }

  lemma CreatedRow(db: Db, payload: Payload, base: string, retries: nat, draws: seq<Draw>, now: Time, o: OpId)
    requires |draws| >= retries && CreateOutcome(db, payload, base, retries, draws, now, o).1.Success?
    ensures
      var (db', r) := CreateOutcome(db, payload, base, retries, draws, now, o);
      && r.value.short_code in db'.rows && db'.rows[r.value.short_code].url == payload.url == r.value.original_url
      && db'.rows.Keys == db.rows.Keys + {r.value.short_code}
  {
    if Alias(payload).None? && retries > 0 {
      ClaimLoopAlone(World(now, db, map[]), o, payload.url, draws[..retries]);
    }
  }

  /** A created code resolves to the URL of the request, whatever the GET and the refill do, if its cache entry was primed or
      there was none; a primed entry answers for the whole TTL without asking the database or writing anything. */
  lemma CreateThenResolve(strings: Strings, db: Db, payload: Payload, base: string, retries: nat, draws: seq<Draw>, now: Time,
                          o: OpId, ttl: int, fill: Call, get: Call, refill: Call)
    requires |draws| >= retries && payload.url != ""
    requires CreateOutcome(db, payload, base, retries, draws, now, o).1.Success?
    ensures
      var (db', r) := CreateOutcome(db, payload, base, retries, draws, now, o);
      var primed, code := Primed(strings, r, ttl, fill), r.value.short_code;
      && (Applied(fill) || UrlKey(code) !in strings ==> Resolved(primed, db', code, ttl, get, refill).1 == Some(payload.url))
      && (Applied(fill) && InTime(get, fill.at, ttl) ==>
            forall any: Db :: Resolved(primed, any, code, ttl, get, refill) == (primed, Some(payload.url)))
  {
    CreatedRow(db, payload, base, retries, draws, now, o);
  }

  /** A resolve that has answered from the database and refilled the cache spares the next one the database, for the TTL. */
  lemma ResolveThenResolve(strings: Strings, db: Db, code: Code, ttl: int, get: Call, fill: Call, again: Call, refill: Call)
    requires Hit(strings, code, get) == None && code in db.rows && db.rows[code].url != ""
    requires Applied(fill) && InTime(again, fill.at, ttl)
    ensures
      var (strings', answer) := Resolved(strings, db, code, ttl, get, fill);
      && answer == Some(db.rows[code].url)
      && forall any: Db :: Resolved(strings', any, code, ttl, again, refill) == (strings', answer)
  {
  }

  /** After a delete whose eviction is applied the code is not found, by any later GET, and nothing is cached for it; no other
      code loses its row, its entry, or the answer of its next resolve. */
  lemma DeleteThenResolve(strings: Strings, db: Db, code: Code, ttl: int, evict: Call, get: Call, fill: Call, other: Code)
    requires code in db.rows && Applied(evict) && other != code
    ensures
      var (strings', db', deleted) := Removed(strings, db, code, true, evict);
      && deleted && Resolved(strings', db', code, ttl, get, fill) == (strings', None) && UrlKey(code) !in strings'
      && Resolved(strings', db', other, ttl, get, fill).1 == Resolved(strings, db, other, ttl, get, fill).1
      && (other in db.rows ==> other in db'.rows && db'.rows[other] == db.rows[other])
      && db'.rows.Keys == db.rows.Keys - {code}
      && forall e | e in db.events ::
           if db.events[e].url_id == db.rows[code].id then e !in db'.events
           else e in db'.events && db'.events[e] == db.events[e]
  {
    UrlKeyInjective(other, code);
  }
}
