/** POST /api/v1/urls (app/routes/urls.py): rate check, idempotency lookup, creation, store, in this order. */
module CreateUrl {
  import opened Wrappers
  import opened Redis
  import opened Api
  import opened Keys
  import opened RateLimit
  import opened RateLimitService
  import opened RedisServer
  import opened UrlStore
  import opened UrlService
  import opened Idempotency

  /** RATE_LIMIT_PER_MINUTE, the limiter's window, CACHE_TTL_SECONDS, MAX_COLLISION_RETRIES. */
  datatype Settings = Settings(limit: int, window: int, ttl: int, retries: nat)

  const SCOPE := "url_create"

  /** A request, and what the environment does while it is served. */
  datatype Post = Post(
    host: Option<string>, forwardedFor: Option<string>, baseUrl: string, key: Option<string>, payload: Payload,
    attempt: Attempt, get: Call, draws: seq<Draw>, now: Time, id: OpId, fill: Call, save: Call)

  datatype Reply =
    | Ok(response: CreateResponse, replay: bool)  // 201, with Idempotency-Replay
    | TooManyRequests(retryAfter: int)            // 429
    | Unprocessable                               // 422
    | AliasConflict                               // 409
    | Unavailable                                 // 503

  /** Everything a POST can change. */
  datatype System = System(limits: map<string, KeyState>, strings: Strings, records: Records, db: Db)

  /** An absent or empty header is no key. */
  predicate Keyed(post: Post) {
    post.key.Some? && post.key.value != ""
  }

  function Client(post: Post): string {
    ClientOf(post.host, post.forwardedFor)
  }

  function Base(post: Post): string {
    StripSlashes(StripSlashes(post.baseUrl))
  }

  /** Creation and, for a keyed request that succeeds, the store of its response. */
  function CreateAndStore(c: Settings, sys: System, post: Post): (System, Reply)
    requires |post.draws| >= c.retries
  {
    var (db, r) := CreateOutcome(sys.db, post.payload, Base(post), c.retries, post.draws, post.now, post.id);
    var created := sys.(db := db, strings := Primed(sys.strings, r, c.ttl, post.fill));
    match r
    case Failure(DuplicateAlias(_)) => (created, AliasConflict)
    case Failure(CollisionRetryExhausted) => (created, Unavailable)
    case Success(response) =>
      if Keyed(post) then
        var storageKey, record := IdempotencyKey(post.key.value), Record(Sha256(post.payload), 201, response);
        (created.(records := created.records[storageKey := record],
                  strings := if Applied(post.save) then
                               Stored(created.strings, storageKey, Json(record), REPLAY_WINDOW, post.save.at)
                             else created.strings),
         Ok(response, false))
      else (created, Ok(response, false))
  }

  /** The rate limiter in front of the route. */
  function Limited(c: Settings, sys: System, post: Post): (System, RateLimitResult) {
    var limitKey := LimitKey(SCOPE, Client(post));
    var (ks, limit) := Check(StateAt(sys.limits, limitKey), Policy(c.limit, c.window), post.attempt);
    (sys.(limits := sys.limits[limitKey := ks]), limit)
  }

  function Serve(c: Settings, sys: System, post: Post): (System, Reply)
    requires |post.draws| >= c.retries
  {
    var (checked, limit) := Limited(c, sys, post);
    if !limit.allowed then (checked, TooManyRequests(limit.retry_after))
    else if Keyed(post) then
      match SavedResponse(sys.strings, sys.records, post.key.value, Sha256(post.payload), post.get)
      case Replay(response) => (checked, Ok(response, true))
      case Mismatch => (checked, Unprocessable)
      case Nothing => CreateAndStore(c, checked, post)
    else CreateAndStore(c, checked, post)
  }

  // ---------- the route over the services ----------

  class Routes {
    const settings: Settings
    const limiter: RateLimitService
    const idempotency: IdempotencyService
    const urls: URLService

    constructor (settings: Settings, limiter: RateLimitService, idempotency: IdempotencyService, urls: URLService)
      ensures this.settings == settings && this.limiter == limiter && this.idempotency == idempotency && this.urls == urls
    {
      this.settings := settings;
      this.limiter := limiter;
      this.idempotency := idempotency;
      this.urls := urls;
    }

    /** The services share one Redis server and agree on the settings. */
    ghost predicate Wired()
      reads this, urls
    {
      limiter.redis == idempotency.redis == urls.cache.redis && urls.cache.defaultTtl == settings.ttl
    }

    /** The state of the objects is `sys`. */
    ghost predicate Shows(sys: System)
      reads this, limiter, limiter.redis, idempotency, idempotency.redis, urls, urls.database
    {
      && (forall key :: limiter.StateOf(key) == StateAt(sys.limits, key))
      && idempotency.redis.strings == sys.strings && idempotency.records == sys.records && urls.database.db == sys.db
    }

    /** `dependency` of `rate_limiter(scope="url_create")` */
    method CheckLimit(post: Post, ghost sys: System) returns (limit: RateLimitResult)
      requires Wired() && Shows(sys)
      modifies limiter`windows, limiter.redis`zsets
      ensures Shows(Limited(settings, sys, post).0) && limit == Limited(settings, sys, post).1
    {
      limit := limiter.CheckRateLimit(Client(post), settings.limit, settings.window, SCOPE, post.attempt);
    }

    /** `create_url` behind its rate limiter does to the objects what Serve does to their state. */
    method CreateUrl(post: Post, ghost sys: System) returns (reply: Reply)
      requires Wired() && Shows(sys) && |post.draws| >= settings.retries
      modifies limiter`windows, limiter.redis, idempotency`records, urls.database
      ensures Shows(Serve(settings, sys, post).0)
      ensures reply == Serve(settings, sys, post).1
    {
      var limit := CheckLimit(post, sys);
      if !limit.allowed {
        return TooManyRequests(limit.retry_after);
      }
      ghost var checked := Limited(settings, sys, post).0;
      if Keyed(post) {
        var saved := idempotency.GetSavedResponse(post.key.value, Sha256(post.payload), post.get);
        match saved {
          case Replay(response) => return Ok(response, true);
          case Mismatch => return Unprocessable;
          case Nothing =>
        }
      }
      reply := CreateFresh(post, checked);
    }

    /** The rest of `create_url`, once the lookup has found nothing. */
    method CreateFresh(post: Post, ghost sys: System) returns (reply: Reply)
      requires Wired() && Shows(sys) && |post.draws| >= settings.retries
      modifies limiter.redis`strings, idempotency`records, urls.database
      ensures Shows(CreateAndStore(settings, sys, post).0)
      ensures reply == CreateAndStore(settings, sys, post).1
    {
      var base := StripSlashes(post.baseUrl);
      var r := urls.CreateShortUrl(post.payload, base, settings.retries, post.draws, post.now, post.id, post.fill);
      match r {
        case Failure(DuplicateAlias(_)) => return AliasConflict;
        case Failure(CollisionRetryExhausted) => return Unavailable;
        case Success(response) =>
          if Keyed(post) {
            idempotency.StoreResponse(post.key.value, Sha256(post.payload), response, post.save);
          }
          return Ok(response, false);
      }
    }
  }
}
