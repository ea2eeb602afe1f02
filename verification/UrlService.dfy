/** The services that act on one request: the collision retry loop, cache-aside resolve, delete and click counting, over
    a database and a Redis server that they change in place. */
module UrlService {
  import opened Wrappers
  import opened Redis
  import opened Api
  import opened Keys
  import opened RedisServer
  import opened UrlStore

  datatype CreateError = DuplicateAlias(alias: Code) | CollisionRetryExhausted

  // ---------- the collision loop as iterated machine steps ----------

  /** What the generator draws for one attempt, and when the attempt is committed. */
  datatype Draw = Draw(code: Code, at: Time)

  /** The claim steps of one request with nothing in between but time: the machine's own step, until the claim is
      decided. */
  function ClaimLoop(w: World, o: OpId, op: Creating, draws: seq<Draw>): (World, Creating)
    decreases |draws|
  {
    if !op.Claim? || draws == [] then (w, op)
    else
      var (w', op') := ClaimStep(w.(clock := draws[0].at), o, op, draws[0].code);
      ClaimLoop(w', o, op', draws[1..])
  }

  /** The index of the first candidate without a row. */
  function FirstFree(rows: map<Code, Row>, draws: seq<Draw>): (k: nat)
    ensures k <= |draws|
    ensures forall i | 0 <= i < k :: draws[i].code in rows
    ensures k < |draws| ==> draws[k].code !in rows
  {
    if draws == [] || draws[0].code !in rows then 0 else FirstFree(rows, draws[1..]) + 1
  }

  /** Run alone with as many candidates as tries, the loop adds exactly one row, under the first free candidate and at the
      time of that attempt, or is exhausted exactly when every candidate is taken, and then no row has changed. */
  lemma {:induction false} ClaimLoopAlone(w: World, o: OpId, url: Url, draws: seq<Draw>)
    requires draws != []
    ensures
      var k := FirstFree(w.db.rows, draws);
      var (w', op') := ClaimLoop(w, o, Claim(url, None, |draws|), draws);
      && w'.cache == w.cache
      && (if k < |draws| then
            && w'.clock == draws[k].at
            && op' == Priming(draws[k].code, w.db.nextId + k, url, draws[k].at)
            && w'.db == w.db.(rows := w.db.rows[draws[k].code := Row(w.db.nextId + k, url, 0, draws[k].at, o)],
                              nextId := w.db.nextId + k + 1)
          else
            && w'.clock == draws[|draws| - 1].at
            && op' == Exhausted
            && w'.db == w.db.(nextId := w.db.nextId + |draws|))
    decreases |draws|
  {
    if draws[0].code in w.db.rows && |draws| > 1 {
      var w1 := w.(clock := draws[0].at, db := InsertRow(w.db, draws[0].code, url, draws[0].at, o));
      ClaimLoopAlone(w1, o, url, draws[1..]);
    }
  }

  // ---------- the stores ----------

  /** Postgres, one committed statement at a time. */
  class Database {
    var db: Db

    constructor ()
      ensures db == Db(map[], 1, map[], map[], {})
    {
      db := Db(map[], 1, map[], map[], {});
    }

    /** INSERT and COMMIT; false is an IntegrityError, rolled back. */
    method Insert(code: Code, url: Url, now: Time, owner: OpId) returns (ok: bool)
      modifies this
      ensures db == InsertRow(old(db), code, url, now, owner)
      ensures ok == (code !in old(db).rows)
    {
      ok := code !in db.rows;
      db := InsertRow(db, code, url, now, owner);
    }

    method Select(code: Code) returns (r: Option<Row>)
      ensures r == if code in db.rows then Some(db.rows[code]) else None
    {
      r := if code in db.rows then Some(db.rows[code]) else None;
    }
  }

  /** The Redis client wrapper: errors become misses and false. */
  class CacheService {
    const redis: RedisServer
    const defaultTtl: int

    constructor (redis: RedisServer, defaultTtl: int)
      ensures this.redis == redis && this.defaultTtl == defaultTtl
    {
      this.redis := redis;
      this.defaultTtl := defaultTtl;
    }

    method Get(key: string, c: Call) returns (r: Option<Blob>)
      ensures r == if c.Reply? then Fetched(redis.strings, key, c.at) else None
    {
      var got := redis.Get(key, c);
      match got {
        case Success(value) => r := value;
        case Failure(_) => r := None;
      }
    }

    method Set(key: string, value: string, ttl: Option<int>, c: Call) returns (ok: bool)
      modifies redis`strings
      ensures
        var expiry := if ttl.Some? then ttl.value else defaultTtl;
        redis.strings ==
        if Applied(c) then Stored(old(redis.strings), key, Text(value), expiry, c.at) else old(redis.strings)
      ensures ok == c.Reply?
    {
      var expiry := if ttl.Some? then ttl.value else defaultTtl;
      if expiry > 0 {
        ok := redis.Set(key, Text(value), expiry, c);
      } else {
        ok := redis.Set(key, Text(value), 0, c);
      }
    }

    method Delete(key: string, c: Call) returns (ok: bool)
      modifies redis`strings
      ensures redis.strings == if Applied(c) then old(redis.strings) - {key} else old(redis.strings)
      ensures ok == c.Reply?
    {
      ok := redis.Del(key, c);
    }
  }

  // ---------- the service ----------

  /** The alias a request asks for; an empty one counts as none. */
  function Alias(payload: Payload): Option<Code> {
    if payload.customAlias == Some("") then None else payload.customAlias
  }

  /** What create_short_url leaves in the database and answers: an alias is committed at `now`, the attempts of the loop each
      at their own time. */
  function CreateOutcome(db: Db, payload: Payload, base: string, retries: nat, draws: seq<Draw>, now: Time, o: OpId)
    : (Db, Result<CreateResponse, CreateError>)
    requires |draws| >= retries
  {
    var alias := Alias(payload);
    if alias.Some? then
      if alias.value in db.rows then
        (InsertRow(db, alias.value, payload.url, now, o), Failure(DuplicateAlias(alias.value)))
      else
        (InsertRow(db, alias.value, payload.url, now, o),
         Success(CreateResponse(alias.value, base + "/" + alias.value, payload.url, now)))
    else if retries == 0 then (db, Failure(CollisionRetryExhausted))
    else
      var (w, op) := ClaimLoop(World(now, db, map[]), o, Claim(payload.url, None, retries), draws[..retries]);
      (w.db,
       match op
       case Priming(code, _, _, since) => Success(CreateResponse(code, base + "/" + code, payload.url, since))
       case _ => Failure(CollisionRetryExhausted))
  }

  /** What a success leaves in Redis. */
  function Primed(strings: Strings, r: Result<CreateResponse, CreateError>, ttl: int, fill: Call): Strings {
    match r
    case Success(response) =>
      if Applied(fill) then
        Stored(strings, UrlKey(response.short_code), Text(response.original_url), ttl, fill.at)
      else strings
    case Failure(_) => strings
  }

  /** The URL a GET under the code's key yields; a failed GET and the empty string are misses. */
  function Hit(strings: Strings, code: Code, get: Call): Option<Url> {
    if !get.Reply? then None
    else
      match Fetched(strings, UrlKey(code), get.at)
      case Some(Text(url)) => if url != "" then Some(url) else None
      case _ => None
  }

  /** What get_destination_url leaves in Redis and answers: a hit writes nothing, a miss reads the row and refills. */
  function Resolved(strings: Strings, db: Db, code: Code, ttl: int, get: Call, fill: Call): (Strings, Option<Url>) {
    var hit := Hit(strings, code, get);
    if hit.Some? then (strings, hit)
    else if code !in db.rows then (strings, None)
    else
      var url := db.rows[code].url;
      (if Applied(fill) then Stored(strings, UrlKey(code), Text(url), ttl, fill.at) else strings, Some(url))
  }

  /** What delete_url leaves in the database and in Redis, and answers; `ok` is false when the database raises. */
  function Removed(strings: Strings, db: Db, code: Code, ok: bool, evict: Call): (Strings, Db, bool) {
    if !ok || code !in db.rows then (strings, db, false)
    else (if Applied(evict) then strings - {UrlKey(code)} else strings, DeleteRow(db, code, db.rows[code].id), true)
  }

  /** What record_click leaves in the database; `ok` is false when the database raises. */
  function Clicked(db: Db, code: Code, ok: bool): Db {
    if ok then CountClick(db, code) else db
  }

  /** str.rstrip("/") */
  function StripSlashes(s: string): (r: string)
    ensures r <= s && (r == "" || r[|r| - 1] != '/')
    ensures forall i | |r| <= i < |s| :: s[i] == '/'
  {
    if s != "" && s[|s| - 1] == '/' then StripSlashes(s[..|s| - 1]) else s
  }

  class URLService {
    const database: Database
    const cache: CacheService

    constructor (database: Database, cache: CacheService)
      ensures this.database == database && this.cache == cache
    {
      this.database := database;
      this.cache := cache;
    }

    /** `create_short_url`, with what the generator will draw and the fate of the cache SET. */
    method CreateShortUrl(payload: Payload, baseUrl: string, retries: nat, draws: seq<Draw>, now: Time, o: OpId,
                          fill: Call)
      returns (r: Result<CreateResponse, CreateError>)
      requires |draws| >= retries
      modifies database, cache.redis`strings
      ensures (database.db, r) ==
              CreateOutcome(old(database.db), payload, StripSlashes(baseUrl), retries, draws, now, o)
      ensures cache.redis.strings == Primed(old(cache.redis.strings), r, cache.defaultTtl, fill)
    {
      var appBase := StripSlashes(baseUrl);
      if Alias(payload).Some? {
        var alias := Alias(payload).value;
        var ok := database.Insert(alias, payload.url, now, o);
        if !ok {
          return Failure(DuplicateAlias(alias));
        }
        var _ := cache.Set(UrlKey(alias), payload.url, None, fill);
        return Success(CreateResponse(alias, appBase + "/" + alias, payload.url, now));
      }
      var attempt := 0;
      ghost var start := World(now, database.db, map[]);
      ghost var first := Claim(payload.url, None, retries);
      ghost var ds, clock := draws[..retries], now;
      while attempt < retries
        invariant 0 <= attempt <= retries
        invariant attempt == 0 ==> database.db == old(database.db)
        invariant cache.redis.strings == old(cache.redis.strings)
        invariant retries > 0 ==>
                    ClaimLoop(start, o, first, ds) ==
                    ClaimLoop(World(clock, database.db, map[]), o,
                              if attempt == retries then Exhausted else Claim(payload.url, None, retries - attempt),
                              ds[attempt..])
      {
        var candidate, at := draws[attempt].code, draws[attempt].at;
        assert ds[attempt..][0] == draws[attempt] && ds[attempt..][1..] == ds[attempt + 1..];
        var ok := database.Insert(candidate, payload.url, at, o);
        if ok {
          var _ := cache.Set(UrlKey(candidate), payload.url, None, fill);
          return Success(CreateResponse(candidate, appBase + "/" + candidate, payload.url, at));
        }
        attempt := attempt + 1;
        clock := at;
      }
      return Failure(CollisionRetryExhausted);
    }

    /** `get_destination_url` */
    method GetDestinationUrl(code: Code, get: Call, fill: Call) returns (r: Option<Url>)
      modifies cache.redis`strings
      ensures (cache.redis.strings, r) ==
              Resolved(old(cache.redis.strings), database.db, code, cache.defaultTtl, get, fill)
    {
      var cached := cache.Get(UrlKey(code), get);
      if cached.Some? && cached.value.Text? && cached.value.text != "" {
        return Some(cached.value.text);
      }
      var record := database.Select(code);
      if record == None {
        return None;
      }
      var _ := cache.Set(UrlKey(code), record.value.url, None, fill);
      return Some(record.value.url);
    }

    /** `record_click`: an error is swallowed. */
    method RecordClick(code: Code, ok: bool)
      modifies database
      ensures database.db == Clicked(old(database.db), code, ok)
    {
      if ok {
        database.db := CountClick(database.db, code);
      }
    }

    /** `delete_url` */
    method DeleteUrl(code: Code, ok: bool, evict: Call) returns (deleted: bool)
      modifies database, cache.redis`strings
      ensures (cache.redis.strings, database.db, deleted) ==
              Removed(old(cache.redis.strings), old(database.db), code, ok, evict)
    {
      if !ok {
        return false;
      }
      var record := database.Select(code);
      if record == None {
        return false;
      }
      database.db := DeleteRow(database.db, code, record.value.id);
      var _ := cache.Delete(UrlKey(code), evict);
      return true;
    }
  }
}
