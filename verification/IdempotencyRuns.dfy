/** Idempotency over serial runs in one process, with arbitrary Redis failures, losses and expiry: one row per key, every
    later request replays the first success or is rejected. */
module IdempotencyRuns {
  import opened Wrappers
  import opened Redis
  import opened Api
  import opened Keys
  import opened RateLimit
  import opened RedisServer
  import opened UrlStore
  import opened UrlService
  import opened Idempotency
  import opened CreateUrl

  /** A POST; a POST that dies between the commit of its row and the store of its response, before or after it has primed
      the cache; or anything else that may happen between two of them: Redis drops a key, other endpoints write the URL
      cache, delete rows or count clicks. */
  datatype Event =
    | Request(post: Post)
    | Death(post: Post, primed: bool)
    | RedisLoses(storageKey: string)
    | CacheChanges(code: Code, entry: Entry)
    | DatabaseChanges(db: Db)

  predicate Servable(c: Settings, e: Event) {
    e.Request? || e.Death? ==> |e.post.draws| >= c.retries
  }

  predicate Fresh(reply: Reply) {
    reply.Ok? && !reply.replay
  }

  /** What a request leaves that fails after its commit, as a failing refresh does: the row, maybe the cache entry, and no
      record. A request that commits nothing has nothing to lose. */
  function Dead(c: Settings, sys: System, post: Post, primed: bool): System
    requires |post.draws| >= c.retries
  {
    var (sys', reply) := Serve(c, sys, post);
    if !Fresh(reply) then sys'
    else
      var r := CreateOutcome(sys.db, post.payload, Base(post), c.retries, post.draws, post.now, post.id).1;
      sys.(limits := sys'.limits, db := sys'.db,
           strings := if primed then Primed(sys.strings, r, c.ttl, post.fill) else sys.strings)
  }

  function Step(c: Settings, sys: System, e: Event): System
    requires Servable(c, e)
  {
    match e
    case Request(post) => Serve(c, sys, post).0
    case Death(post, primed) => Dead(c, sys, post, primed)
    case RedisLoses(storageKey) => sys.(strings := sys.strings - {storageKey})
    case CacheChanges(code, entry) => sys.(strings := sys.strings[UrlKey(code) := entry])
    case DatabaseChanges(db) => sys.(db := db)
  }

  function RunEvents(c: Settings, sys: System, events: seq<Event>): System
    requires forall i | 0 <= i < |events| :: Servable(c, events[i])
    decreases |events|
  {
    if events == [] then sys else RunEvents(c, Step(c, sys, events[0]), events[1..])
  }

  /** What Redis holds under an idempotency key is what process memory holds under it. */
  ghost predicate StoresAgree(sys: System) {
    forall key: string :: IdempotencyKey(key) in sys.strings ==>
      IdempotencyKey(key) in sys.records && sys.strings[IdempotencyKey(key)].value == Json(sys.records[IdempotencyKey(key)])
  }

  // ---------- one request ----------

  /** A creation adds exactly the row it answers with, for the requested URL; a failure leaves the rows alone. */
  lemma CreationAddsItsRow(db: Db, payload: Payload, base: string, retries: nat, draws: seq<Draw>, now: Time, o: OpId)
    requires |draws| >= retries
    ensures
      var (db', r) := CreateOutcome(db, payload, base, retries, draws, now, o);
      match r {
        case Success(response) =>
          && response.short_code !in db.rows && response.original_url == payload.url
          && (exists id :: db'.rows == db.rows[response.short_code := Row(id, payload.url, 0, response.created_at, o)])
        case Failure(_) => db'.rows == db.rows
      }
  {
    if Alias(payload).None? && retries > 0 {
      ClaimLoopAlone(World(now, db, map[]), o, payload.url, draws[..retries]);
    }
  }

  /** Every reply but a fresh 201 leaves the rows alone; a fresh 201 adds the row it names. */
  lemma RowsChangeOnlyByCreation(c: Settings, sys: System, post: Post)
    requires |post.draws| >= c.retries
    ensures
      var (sys', reply) := Serve(c, sys, post);
      if reply.Ok? && !reply.replay then
        && reply.response.short_code !in sys.db.rows
        && (exists id ::
              sys'.db.rows ==
              sys.db.rows[reply.response.short_code := Row(id, post.payload.url, 0, reply.response.created_at, post.id)])
      else sys'.db.rows == sys.db.rows
  {
    CreationAddsItsRow(sys.db, post.payload, Base(post), c.retries, post.draws, post.now, post.id);
  }

  /** A lookup under agreeing stores finds exactly what process memory holds, whatever Redis does. */
  lemma LookupIsMemory(sys: System, key: string, get: Call)
    requires StoresAgree(sys)
    ensures FoundRecord(sys.strings, sys.records, key, get) ==
            if IdempotencyKey(key) in sys.records then Some(sys.records[IdempotencyKey(key)]) else None
  {
  }

  /** Priming the URL cache does not touch idempotency keys. */
  lemma PrimeKeepsAgreement(c: Settings, sys: System, r: Result<CreateResponse, CreateError>, fill: Call)
    requires StoresAgree(sys)
    ensures StoresAgree(sys.(strings := Primed(sys.strings, r, c.ttl, fill)))
  {
    forall key: string ensures r.Success? ==> UrlKey(r.value.short_code) != IdempotencyKey(key) {
      if r.Success? { KeyFamiliesDisjoint(r.value.short_code, key, "", ""); }
    }
  }

  lemma CreateKeepsAgreement(c: Settings, sys: System, post: Post)
    requires |post.draws| >= c.retries && StoresAgree(sys)
    requires Keyed(post) ==> IdempotencyKey(post.key.value) !in sys.records
    ensures StoresAgree(CreateAndStore(c, sys, post).0)
  {
    var r := CreateOutcome(sys.db, post.payload, Base(post), c.retries, post.draws, post.now, post.id).1;
    PrimeKeepsAgreement(c, sys, r, post.fill);
  }

  lemma ServeKeepsAgreement(c: Settings, sys: System, post: Post)
    requires |post.draws| >= c.retries && StoresAgree(sys)
    ensures StoresAgree(Serve(c, sys, post).0)
  {
    var checked := Limited(c, sys, post).0;
    assert StoresAgree(checked);
    if Keyed(post) { LookupIsMemory(sys, post.key.value, post.get); }
    if !Keyed(post) || IdempotencyKey(post.key.value) !in sys.records { CreateKeepsAgreement(c, checked, post); }
  }

  lemma StepKeepsAgreement(c: Settings, sys: System, e: Event)
    requires Servable(c, e) && StoresAgree(sys)
    ensures StoresAgree(Step(c, sys, e))
  {
    match e
    case Request(post) => ServeKeepsAgreement(c, sys, post);
    case Death(post, primed) =>
      ServeKeepsAgreement(c, sys, post);
      var r := CreateOutcome(sys.db, post.payload, Base(post), c.retries, post.draws, post.now, post.id).1;
      PrimeKeepsAgreement(c, sys, r, post.fill);
    case CacheChanges(code, entry) =>
      forall key: string ensures UrlKey(code) != IdempotencyKey(key) { KeyFamiliesDisjoint(code, key, "", ""); }
    case _ =>
  }

  /** Redis and process memory never hold different records, in any run from empty stores. */
  lemma {:induction false} StoresAlwaysAgree(c: Settings, sys: System, events: seq<Event>)
    requires forall i | 0 <= i < |events| :: Servable(c, events[i])
    requires StoresAgree(sys)
    ensures StoresAgree(RunEvents(c, sys, events))
    decreases |events|
  {
    if events != [] {
      StepKeepsAgreement(c, sys, events[0]);
      StoresAlwaysAgree(c, Step(c, sys, events[0]), events[1..]);
    }
  }

  predicate HasKey(e: Event, key: string) {
    (e.Request? || e.Death?) && e.post.key == Some(key)
  }

  /** Once a key has its record, a request with that key changes neither rows nor records nor Redis strings: it replays
      the recorded response if its payload is the recorded one, and is rejected with 422 otherwise (or with 429). */
  lemma RecordedKeyReplays(c: Settings, sys: System, post: Post, key: string)
    requires |post.draws| >= c.retries && StoresAgree(sys)
    requires post.key == Some(key) && key != "" && IdempotencyKey(key) in sys.records
    ensures
      var (sys', reply) := Serve(c, sys, post);
      var record := sys.records[IdempotencyKey(key)];
      && sys'.db == sys.db && sys'.records == sys.records && sys'.strings == sys.strings
      && (reply.TooManyRequests? ||
          reply == if record.payload_hash == Sha256(post.payload) then Ok(record.response_data, true) else Unprocessable)
  {
    LookupIsMemory(sys, key, post.get);
  }

  /** A record is never replaced, and a new one is the response of a creation under its own key; a request that dies stores
      none. */
  lemma RecordsAreFinal(c: Settings, sys: System, e: Event, key: string)
    requires Servable(c, e) && StoresAgree(sys) && key != ""
    ensures
      var storageKey, sys' := IdempotencyKey(key), Step(c, sys, e);
      && (storageKey in sys.records ==> storageKey in sys'.records && sys'.records[storageKey] == sys.records[storageKey])
      && (storageKey !in sys.records && storageKey in sys'.records ==>
            e.Request? && HasKey(e, key) && Serve(c, sys, e.post).1 == Ok(sys'.records[storageKey].response_data, false)
            && sys'.records[storageKey].payload_hash == Sha256(e.post.payload))
      && (storageKey !in sys.records && e.Request? && HasKey(e, key) && Fresh(Serve(c, sys, e.post).1) ==>
            storageKey in sys'.records)
  {
    if e.Request? || e.Death? {
      if Keyed(e.post) {
        KeyFamiliesDisjoint("", key, "", "");
        LookupIsMemory(sys, e.post.key.value, e.post.get);
      }
    }
  }

  // ---------- serial runs ----------

  /** The event creates a row for this key. */
  predicate Creates(c: Settings, sys: System, e: Event, key: string)
    requires Servable(c, e)
  {
    HasKey(e, key) && Fresh(Serve(c, sys, e.post).1)
  }

  /** Rows created by requests with this key, dead or alive. */
  function Creations(c: Settings, sys: System, events: seq<Event>, key: string): nat
    requires forall i | 0 <= i < |events| :: Servable(c, events[i])
    decreases |events|
  {
    if events == [] then 0
    else
      (if Creates(c, sys, events[0], key) then 1 else 0) + Creations(c, Step(c, sys, events[0]), events[1..], key)
  }

  /** Requests with this key that die. */
  function Deaths(events: seq<Event>, key: string): nat {
    if events == [] then 0 else (if events[0].Death? && HasKey(events[0], key) then 1 else 0) + Deaths(events[1..], key)
  }

  /** For each non-empty key at most one row is ever created, and one more for each request that dies before its response is
      stored; none once the key has its record. */
  lemma {:induction false} AtMostOneCreation(c: Settings, sys: System, events: seq<Event>, key: string)
    requires forall i | 0 <= i < |events| :: Servable(c, events[i])
    requires StoresAgree(sys) && key != ""
    ensures Creations(c, sys, events, key) <= if IdempotencyKey(key) in sys.records then 0 else 1 + Deaths(events, key)
    decreases |events|
  {
    if events != [] {
      var e := events[0];
      StepKeepsAgreement(c, sys, e);
      RecordsAreFinal(c, sys, e, key);
      if HasKey(e, key) && IdempotencyKey(key) in sys.records {
        RecordedKeyReplays(c, sys, e.post, key);
      }
      AtMostOneCreation(c, Step(c, sys, e), events[1..], key);
    }
  }

  lemma {:induction false} RecordLasts(c: Settings, sys: System, events: seq<Event>, key: string)
    requires forall i | 0 <= i < |events| :: Servable(c, events[i])
    requires StoresAgree(sys) && key != "" && IdempotencyKey(key) in sys.records
    ensures IdempotencyKey(key) in RunEvents(c, sys, events).records
    ensures RunEvents(c, sys, events).records[IdempotencyKey(key)] == sys.records[IdempotencyKey(key)]
    decreases |events|
  {
    if events != [] {
      StepKeepsAgreement(c, sys, events[0]);
      RecordsAreFinal(c, sys, events[0], key);
      RecordLasts(c, Step(c, sys, events[0]), events[1..], key);
    }
  }

  /** After the first success under a key, whatever else happens in between, a request with the same key and payload
      gets that very response back, a request with another payload gets 422, and neither changes database or records. */
  lemma FirstSuccessIsReplayed(c: Settings, sys: System, first: Post, between: seq<Event>, later: Post, key: string)
    requires StoresAgree(sys) && key != "" && first.key == later.key == Some(key)
    requires |first.draws| >= c.retries && |later.draws| >= c.retries
    requires forall i | 0 <= i < |between| :: Servable(c, between[i])
    requires Fresh(Serve(c, sys, first).1)
    ensures
      var response := Serve(c, sys, first).1.response;
      var before := RunEvents(c, Serve(c, sys, first).0, between);
      var (end, reply) := Serve(c, before, later);
      && end.db == before.db && end.records == before.records && end.strings == before.strings
      && (reply.TooManyRequests? || reply == if later.payload == first.payload then Ok(response, true) else Unprocessable)
  {
    var e := Request(first);
    StepKeepsAgreement(c, sys, e);
    RecordsAreFinal(c, sys, e, key);
    if IdempotencyKey(key) in sys.records {
      RecordedKeyReplays(c, sys, first, key);
    }
    var s1 := Step(c, sys, e);
    StoresAlwaysAgree(c, s1, between);
    RecordLasts(c, s1, between, key);
    RecordedKeyReplays(c, RunEvents(c, s1, between), later, key);
  }

  // ---------- the bound with deaths is attained ----------

  function Name(k: nat): string {
    seq(k, _ => 'h')
  }

  /** A request of its own client, with Redis down but for the rate limiter, that draws one code again and again. */
  function Plain(k: nat, key: string, payload: Payload, code: Code, retries: nat): Post {
    var works, fails := Reply(0.0), Fault(0.0, false);
    Post(Some(Name(k)), None, "", Some(key), payload, Attempt(0.0, 0, works, works, works), fails,
         seq(retries, _ => Draw(code, 0.0)), 0.0, 0, fails, fails)
  }

  /** Different codes, and none of them taken. */
  ghost predicate FreeCodes(db: Db, codes: seq<Code>) {
    && (forall i | 0 <= i < |codes| :: codes[i] !in db.rows)
    && (forall i, j | 0 <= i < j < |codes| :: codes[i] != codes[j])
  }

  /** The clients and the codes from `k` on are unused, and the key has no record. */
  ghost predicate Unused(sys: System, key: string, codes: seq<Code>, k: nat) {
    && (forall j: nat | j >= k :: LimitKey(SCOPE, Name(j)) !in sys.limits)
    && IdempotencyKey(key) !in sys.records
    && (forall j | k <= j < |codes| :: codes[j] !in sys.db.rows)
  }

  lemma PlainCreates(c: Settings, db: Db, payload: Payload, code: Code, base: string)
    requires c.retries >= 1 && Alias(payload).None? && code !in db.rows
    ensures
      var draws := seq(c.retries, _ => Draw(code, 0.0));
      var (db', r) := CreateOutcome(db, payload, base, c.retries, draws, 0.0, 0);
      r.Success? && r.value.short_code == code && db'.rows.Keys == db.rows.Keys + {code}
  {
    var draws: seq<Draw> := seq(c.retries, _ => Draw(code, 0.0));
    assert draws[..c.retries] == draws && draws[0].code == code;
    assert FirstFree(db.rows, draws) == 0;
    ClaimLoopAlone(World(0.0, db, map[]), 0, payload.url, draws);
  }

  lemma PlainIsAllowed(c: Settings, sys: System, k: nat, key: string, payload: Payload, code: Code)
    requires c.limit >= 1 && LimitKey(SCOPE, Name(k)) !in sys.limits
    ensures Limited(c, sys, Plain(k, key, payload, code, c.retries)).1.allowed
    ensures Limited(c, sys, Plain(k, key, payload, code, c.retries)).0.limits.Keys == sys.limits.Keys + {LimitKey(SCOPE, Name(k))}
  {
    var post := Plain(k, key, payload, code, c.retries);
    assert Client(post) == Name(k);
    assert Live(NO_ZSET, 0.0) == [];
  }

  lemma OtherNames(k: nat)
    ensures forall j: nat | j > k :: LimitKey(SCOPE, Name(j)) != LimitKey(SCOPE, Name(k))
  {
    forall j: nat | j > k ensures LimitKey(SCOPE, Name(j)) != LimitKey(SCOPE, Name(k)) {
      LimitKeyInjective(SCOPE, Name(j), SCOPE, Name(k));
      assert |Name(j)| != |Name(k)|;
    }
  }

  lemma OneDeath(c: Settings, sys: System, key: string, payload: Payload, codes: seq<Code>, k: nat)
    requires c.limit >= 1 && c.retries >= 1 && Alias(payload).None? && key != ""
    requires Unused(sys, key, codes, k) && k < |codes| && forall i, j | 0 <= i < j < |codes| :: codes[i] != codes[j]
    ensures
      var post := Plain(k, key, payload, codes[k], c.retries);
      Fresh(Serve(c, sys, post).1) && Unused(Dead(c, sys, post, false), key, codes, k + 1)
  {
    var post := Plain(k, key, payload, codes[k], c.retries);
    PlainIsAllowed(c, sys, k, key, payload, codes[k]);
    PlainCreates(c, sys.db, payload, codes[k], Base(post));
    OtherNames(k);
  }

  lemma {:induction false} DeathsThenSuccess(c: Settings, sys: System, key: string, payload: Payload, codes: seq<Code>, k: nat)
    returns (events: seq<Event>)
    requires c.limit >= 1 && c.retries >= 1 && Alias(payload).None? && key != ""
    requires Unused(sys, key, codes, k) && k < |codes| && forall i, j | 0 <= i < j < |codes| :: codes[i] != codes[j]
    ensures forall i | 0 <= i < |events| :: Servable(c, events[i])
    ensures Deaths(events, key) == |codes| - k - 1 && Creations(c, sys, events, key) == |codes| - k
    decreases |codes| - k
  {
    var post := Plain(k, key, payload, codes[k], c.retries);
    OneDeath(c, sys, key, payload, codes, k);
    if k + 1 == |codes| {
      events := [Request(post)];
      assert events[1..] == [];
    } else {
      var rest := DeathsThenSuccess(c, Dead(c, sys, post, false), key, payload, codes, k + 1);
      events := [Death(post, false)] + rest;
      assert events[1..] == rest;
    }
  }

  /** From any database, for any number of different free codes: serial requests with one key and one payload, all but the
      last of which die after their commit, create one row under each code, 1 + Deaths in all. */
  lemma DeathBoundIsAttained(c: Settings, db: Db, key: string, payload: Payload, codes: seq<Code>)
    returns (events: seq<Event>)
    requires c.limit >= 1 && c.retries >= 1 && Alias(payload).None? && key != "" && codes != [] && FreeCodes(db, codes)
    ensures forall i | 0 <= i < |events| :: Servable(c, events[i])
    ensures StoresAgree(System(map[], map[], map[], db))
    ensures Creations(c, System(map[], map[], map[], db), events, key) == |codes| == 1 + Deaths(events, key)
  {
    events := DeathsThenSuccess(c, System(map[], map[], map[], db), key, payload, codes, 0);
  }
}
