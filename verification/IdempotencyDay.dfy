/** The replay window: a response stored in Redis is replayed by every process for a day, and then forgotten there; serial
    requests with one key inside a day create one row, however many processes serve them. */
module IdempotencyDay {
  import opened Wrappers
  import opened Redis
  import opened Api
  import opened Keys
  import opened RedisServer
  import opened UrlService
  import opened Idempotency
  import opened CreateUrl
  import opened IdempotencyRuns
  import opened IdempotencyFleet

  /** Redis holds the response to `first` until a day after its store. */
  predicate StoredFrom(strings: Strings, key: string, first: Post, response: CreateResponse) {
    && IdempotencyKey(key) in strings
    && strings[IdempotencyKey(key)].value == Json(Record(Sha256(first.payload), 201, response))
    && strings[IdempotencyKey(key)].expireAt == Some(first.save.at + 86400.0)
  }

  lemma SuccessIsStored(c: Settings, sys: System, first: Post, key: string)
    requires |first.draws| >= c.retries && key != "" && first.key == Some(key)
    requires Fresh(Serve(c, sys, first).1) && Applied(first.save)
    ensures StoredFrom(Serve(c, sys, first).0.strings, key, first, Serve(c, sys, first).1.response)
  {
  }

  /** A first request has stored its response at `save.at`. As long as Redis keeps that entry, every process that is asked
      within 86400 seconds of it replays the response to the same payload, answers 422 to another, and creates nothing,
      whatever its own memory holds. */
  lemma ReplayedForADay(c: Settings, first: Post, response: CreateResponse, sys: System, later: Post, key: string)
    requires |later.draws| >= c.retries && key != "" && later.key == Some(key)
    requires StoredFrom(sys.strings, key, first, response)
    requires later.get.Reply? && later.get.at < first.save.at + 86400.0
    ensures
      var (end, reply) := Serve(c, sys, later);
      && end.db == sys.db && end.records == sys.records && end.strings == sys.strings
      && (reply.TooManyRequests? || reply == if later.payload == first.payload then Ok(response, true) else Unprocessable)
  {
  }

  /** From then on Redis answers nothing, and a process that does not remember the key takes the request for a new one. */
  lemma ForgottenAfterADay(first: Post, response: CreateResponse, strings: Strings, records: Records, key: string,
                           digest: Digest, get: Call)
    requires StoredFrom(strings, key, first, response)
    requires IdempotencyKey(key) !in records && get.at >= first.save.at + 86400.0
    ensures SavedResponse(strings, records, key, digest, get) == Nothing
  {
  }

  // ---------- serial runs over several processes ----------

  /** Requests with the key look up and store within the day from `start` on, and Redis serves them. */
  predicate WithinDay(e: FleetEvent, key: string, start: Time) {
    && (ForKey(e, key) ==>
          e.post.get.Reply? && e.post.get.at < start + 86400.0 && Applied(e.post.save) && start <= e.post.save.at)
    && e != RedisForgets(IdempotencyKey(key))
  }

  /** Redis holds a record of the key that outlives the day from `start` on. */
  predicate Held(strings: Strings, key: string, start: Time) {
    && IdempotencyKey(key) in strings && strings[IdempotencyKey(key)].value.Json?
    && (strings[IdempotencyKey(key)].expireAt.Some? ==> start + 86400.0 <= strings[IdempotencyKey(key)].expireAt.value)
  }

  lemma PrimeHolds(strings: Strings, r: Result<CreateResponse, CreateError>, ttl: int, fill: Call, key: string, start: Time)
    ensures Held(Primed(strings, r, ttl, fill), key, start) <==> Held(strings, key, start)
  {
    if r.Success? {
      KeyFamiliesDisjoint(r.value.short_code, key, "", "");
    }
  }

  /** While Redis holds the record a request within the day creates nothing and takes nothing away. */
  lemma HeldRequest(c: Settings, sys: System, post: Post, primed: bool, key: string, start: Time)
    requires |post.draws| >= c.retries && key != "" && Held(sys.strings, key, start)
    requires post.key == Some(key) && post.get.Reply? && post.get.at < start + 86400.0
    ensures !Fresh(Serve(c, sys, post).1)
    ensures Serve(c, sys, post).0.strings == sys.strings && Dead(c, sys, post, primed).strings == sys.strings
  {
  }

  /** Requests with other keys, or none, do not touch it. */
  lemma OtherRequest(c: Settings, sys: System, post: Post, primed: bool, key: string, start: Time)
    requires |post.draws| >= c.retries && Held(sys.strings, key, start) && post.key != Some(key)
    ensures Held(Serve(c, sys, post).0.strings, key, start) && Held(Dead(c, sys, post, primed).strings, key, start)
  {
    var r := CreateOutcome(sys.db, post.payload, Base(post), c.retries, post.draws, post.now, post.id).1;
    PrimeHolds(sys.strings, r, c.ttl, post.fill, key, start);
    if post.key.Some? {
      KeyFamiliesDisjoint("", key, "", "");
    }
  }

  lemma StepHolds(c: Settings, f: Fleet, e: FleetEvent, key: string, start: Time)
    requires WithinDay(e, key, start) && key != "" && Held(f.strings, key, start)
    ensures Held(FleetStep(c, f, e).strings, key, start) && !FleetCreates(c, f, e, key)
  {
    if OfRequest(e) && Possible(c, f, e) {
      if ForKey(e, key) {
        HeldRequest(c, At(f, e.p, e.limits), e.post, e.Died? && e.primed, key, start);
      } else {
        OtherRequest(c, At(f, e.p, e.limits), e.post, e.Died? && e.primed, key, start);
      }
    } else if e.CacheWritten? {
      KeyFamiliesDisjoint(e.code, key, "", "");
    }
  }

  /** The first request that creates a row and lives leaves the record. */
  lemma CreationHolds(c: Settings, f: Fleet, e: FleetEvent, key: string, start: Time)
    requires WithinDay(e, key, start) && key != "" && e.Answered? && FleetCreates(c, f, e, key)
    ensures Held(FleetStep(c, f, e).strings, key, start)
  {
  }

  lemma {:induction false} RowsInADay(c: Settings, f: Fleet, events: seq<FleetEvent>, key: string, start: Time)
    requires key != "" && forall i | 0 <= i < |events| :: WithinDay(events[i], key, start)
    ensures FleetCreations(c, f, events, key) <= (if Held(f.strings, key, start) then 0 else 1) + FleetDeaths(events, key)
    decreases |events|
  {
    if events != [] {
      var e := events[0];
      if Held(f.strings, key, start) {
        StepHolds(c, f, e, key, start);
      } else if e.Answered? && FleetCreates(c, f, e, key) {
        CreationHolds(c, f, e, key, start);
      }
      RowsInADay(c, FleetStep(c, f, e), events[1..], key, start);
    }
  }

  /** Any number of processes, from any state: serial requests with one key within one day create at most one row, and one
      more for each that dies between its commit and its store, as long as Redis answers their lookups, applies their stores
      and does not lose the key. */
  lemma OneRowInADay(c: Settings, f: Fleet, events: seq<FleetEvent>, key: string, start: Time)
    requires key != "" && forall i | 0 <= i < |events| :: WithinDay(events[i], key, start)
    ensures FleetCreations(c, f, events, key) <= 1 + FleetDeaths(events, key)
  {
    RowsInADay(c, f, events, key, start);
  }
}
