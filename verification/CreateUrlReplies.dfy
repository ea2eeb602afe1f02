/** What one POST /api/v1/urls answers, and what it leaves alone. */
module CreateUrlReplies {
  import opened Wrappers
  import opened Api
  import opened Keys
  import opened RateLimit
  import opened UrlStore
  import opened UrlService
  import opened Idempotency
  import opened CreateUrl
  import opened Text

  /** Who a request is limited as: the first address of the forwarding header, whatever proxies have appended to it, else the
      peer. */
  lemma ClientOfPost(post: Post, first: string, rest: string)
    requires ',' !in first && first != ""
    ensures post.forwardedFor == Some(first) || post.forwardedFor == Some(first + "," + rest) ==> Client(post) == Strip(first)
    ensures post.forwardedFor == None || post.forwardedFor == Some("") ==>
              Client(post) == match post.host { case Some(peer) => peer case None => "unknown" }
  {
    FirstFieldStops(first, rest);
  }

  /** The limiter decides first: the answer is 429 exactly if the check of this client under this scope refuses, with its
      wait, and then rows, records and strings stay as they are. The check is recorded in any case, for this client only. */
  lemma RefusalChangesNothing(c: Settings, sys: System, post: Post)
    requires |post.draws| >= c.retries
    ensures
      var (sys', reply) := Serve(c, sys, post);
      var limitKey := LimitKey("url_create", Client(post));
      var (state, r) := Check(StateAt(sys.limits, limitKey), Policy(c.limit, c.window), post.attempt);
      && sys'.limits == sys.limits[limitKey := state]
      && (reply.TooManyRequests? <==> !r.allowed)
      && (reply.TooManyRequests? ==>
            reply.retryAfter == r.retry_after && sys'.db == sys.db && sys'.records == sys.records && sys'.strings == sys.strings)
  {
  }

  /** The request gets past the limiter and is not answered from a record. */
  predicate Proceeds(c: Settings, sys: System, post: Post) {
    && Limited(c, sys, post).1.allowed
    && (post.key.Some? && post.key.value != "" ==>
          SavedResponse(sys.strings, sys.records, post.key.value, Sha256(post.payload), post.get) == Nothing)
  }

  /** `base` is the URL without the slashes at its end. */
  predicate WithoutSlashes(url: string, base: string) {
    base <= url && (base == "" || base[|base| - 1] != '/') && forall i | |base| <= i < |url| :: url[i] == '/'
  }

  lemma BaseIsWithoutSlashes(post: Post)
    ensures WithoutSlashes(post.baseUrl, Base(post))
  {
    assert Base(post) == StripSlashes(post.baseUrl);
  }

  predicate Asked(payload: Payload) {
    payload.customAlias.Some? && payload.customAlias.value != ""
  }

  /** All candidates of the collision loop are taken. */
  predicate AllTaken(c: Settings, db: Db, post: Post)
    requires |post.draws| >= c.retries
  {
    forall i | 0 <= i < c.retries :: post.draws[i].code in db.rows
  }

  /** The code is the alias asked for, or without one the first candidate that is free. */
  predicate RightCode(c: Settings, db: Db, post: Post, code: Code)
    requires |post.draws| >= c.retries
  {
    if Asked(post.payload) then code == post.payload.customAlias.value
    else exists k | 0 <= k < c.retries ::
           post.draws[k].code == code && forall i | 0 <= i < k :: post.draws[i].code in db.rows
  }

  lemma OutcomeOfCreation(c: Settings, db: Db, post: Post)
    requires |post.draws| >= c.retries
    ensures
      match CreateOutcome(db, post.payload, Base(post), c.retries, post.draws, post.now, post.id).1 {
        case Failure(DuplicateAlias(_)) => Asked(post.payload) && post.payload.customAlias.value in db.rows
        case Failure(CollisionRetryExhausted) => !Asked(post.payload) && AllTaken(c, db, post)
        case Success(r) =>
          && r.short_code !in db.rows && RightCode(c, db, post, r.short_code)
          && r.original_url == post.payload.url && r.short_url == Base(post) + "/" + r.short_code
      }
  {
    if !Asked(post.payload) && c.retries > 0 {
      var draws := post.draws[..c.retries];
      ClaimLoopAlone(World(post.now, db, map[]), post.id, post.payload.url, draws);
      assert forall i | 0 <= i < c.retries :: draws[i] == post.draws[i];
    }
  }

  /** A request that proceeds gets 409 exactly if it asks for an alias that is taken, 503 exactly if it asks for none and all
      candidates are taken, and otherwise 201 with the alias or the first free candidate, and with the URL built from it. */
  lemma CreationReplies(c: Settings, sys: System, post: Post)
    requires |post.draws| >= c.retries && Proceeds(c, sys, post)
    ensures
      var reply, rows := Serve(c, sys, post).1, sys.db.rows;
      && (reply.AliasConflict? <==> Asked(post.payload) && post.payload.customAlias.value in rows)
      && (reply.Unavailable? <==> !Asked(post.payload) && AllTaken(c, sys.db, post))
      && (reply.AliasConflict? || reply.Unavailable? || reply.Ok?)
      && (reply.Ok? ==>
            var r := reply.response;
            && !reply.replay && r.short_code !in rows && r.original_url == post.payload.url
            && RightCode(c, sys.db, post, r.short_code)
            && exists base :: WithoutSlashes(post.baseUrl, base) && r.short_url == base + "/" + r.short_code)
  {
    BaseIsWithoutSlashes(post);
    OutcomeOfCreation(c, sys.db, post);
  }

  /** A request that does not proceed, past the limiter, gets the recorded response as a replay if its payload is the recorded
      one, else 422. */
  lemma RecordReplies(c: Settings, sys: System, post: Post)
    requires |post.draws| >= c.retries && Limited(c, sys, post).1.allowed && !Proceeds(c, sys, post)
    ensures
      var (sys', reply) := Serve(c, sys, post);
      var record := FoundRecord(sys.strings, sys.records, post.key.value, post.get);
      && record.Some? && sys'.db == sys.db && sys'.records == sys.records && sys'.strings == sys.strings
      && reply == if record.value.payload_hash == Sha256(post.payload) then Ok(record.value.response_data, true)
                  else Unprocessable
  {
  }

  /** Without a key, or with an empty one, nothing is looked up and nothing is recorded. */
  lemma KeylessIsNeverReplayed(c: Settings, sys: System, post: Post)
    requires |post.draws| >= c.retries && (post.key == None || post.key == Some(""))
    ensures
      var (sys', reply) := Serve(c, sys, post);
      && sys'.records == sys.records && !reply.Unprocessable? && (reply.Ok? ==> !reply.replay)
      && forall key: string | IdempotencyKey(key) in sys'.strings ::
           IdempotencyKey(key) in sys.strings && sys'.strings[IdempotencyKey(key)] == sys.strings[IdempotencyKey(key)]
  {
    forall code: string, key: string ensures UrlKey(code) != IdempotencyKey(key) {
      KeyFamiliesDisjoint(code, key, "", "");
    }
  }
}
