/** Serial requests with one idempotency key over several processes that share Redis and the database: each process creates
    at most one row for the key, besides those of requests that die. */
module IdempotencyFleet {
  import opened Wrappers
  import opened Redis
  import opened Api
  import opened Keys
  import opened RateLimit
  import opened RedisServer
  import opened UrlStore
  import opened UrlService
  import opened Idempotency
  import opened CreateUrl
  import opened IdempotencyRuns

  /** What the processes share, and the records each keeps in its own memory. */
  datatype Fleet = Fleet(strings: Strings, records: seq<Records>, db: Db)

  /** A request served by process `p`, whatever its rate limiter holds, or one that dies there; or anything else that may
      happen in between. */
  datatype FleetEvent =
    | Answered(p: nat, limits: map<string, KeyState>, post: Post)
    | Died(p: nat, limits: map<string, KeyState>, post: Post, primed: bool)
    | RedisForgets(storageKey: string)
    | CacheWritten(code: Code, entry: Entry)
    | DatabaseWritten(db: Db)

  predicate OfRequest(e: FleetEvent) {
    e.Answered? || e.Died?
  }

  predicate Possible(c: Settings, f: Fleet, e: FleetEvent) {
    OfRequest(e) ==> e.p < |f.records| && |e.post.draws| >= c.retries
  }

  /** The system as one process sees it. */
  function At(f: Fleet, p: nat, limits: map<string, KeyState>): System
    requires p < |f.records|
  {
    System(limits, f.strings, f.records[p], f.db)
  }

  /** An event that no process can serve changes nothing. */
  function FleetStep(c: Settings, f: Fleet, e: FleetEvent): Fleet {
    match e
    case Answered(p, limits, post) =>
      if !Possible(c, f, e) then f
      else
        var sys := Serve(c, At(f, p, limits), post).0;
        Fleet(sys.strings, f.records[p := sys.records], sys.db)
    case Died(p, limits, post, primed) =>
      if !Possible(c, f, e) then f
      else
        var sys := Dead(c, At(f, p, limits), post, primed);
        Fleet(sys.strings, f.records[p := sys.records], sys.db)
    case RedisForgets(storageKey) => f.(strings := f.strings - {storageKey})
    case CacheWritten(code, entry) => f.(strings := f.strings[UrlKey(code) := entry])
    case DatabaseWritten(db) => f.(db := db)
  }

  predicate ForKey(e: FleetEvent, key: string) {
    OfRequest(e) && e.post.key == Some(key)
  }

  /** The event creates a row for the key. */
  predicate FleetCreates(c: Settings, f: Fleet, e: FleetEvent, key: string) {
    ForKey(e, key) && Possible(c, f, e) && Fresh(Serve(c, At(f, e.p, e.limits), e.post).1)
  }

  function FleetCreations(c: Settings, f: Fleet, events: seq<FleetEvent>, key: string): nat
    decreases |events|
  {
    if events == [] then 0
    else
      (if FleetCreates(c, f, events[0], key) then 1 else 0) + FleetCreations(c, FleetStep(c, f, events[0]), events[1..], key)
  }

  function FleetDeaths(events: seq<FleetEvent>, key: string): nat {
    if events == [] then 0
    else (if events[0].Died? && ForKey(events[0], key) then 1 else 0) + FleetDeaths(events[1..], key)
  }

  /** The processes whose memory has no record of the key. */
  function Without(records: seq<Records>, key: string): (n: nat)
    ensures n <= |records|
  {
    if records == [] then 0 else (if IdempotencyKey(key) in records[0] then 0 else 1) + Without(records[1..], key)
  }

  lemma {:induction false} WithoutUpdate(records: seq<Records>, key: string, p: nat, mine: Records)
    requires p < |records|
    ensures Without(records[p := mine], key) + (if IdempotencyKey(key) in records[p] then 0 else 1) ==
            Without(records, key) + if IdempotencyKey(key) in mine then 0 else 1
  {
    if p == 0 {
      assert records[p := mine][1..] == records[1..];
    } else {
      WithoutUpdate(records[1..], key, p - 1, mine);
      assert records[p := mine][1..] == records[1..][p - 1 := mine];
    }
  }

  // ---------- one event ----------

  /** Under idempotency keys Redis holds nothing but records. */
  ghost predicate RecordsOnly(strings: Strings) {
    forall key: string :: IdempotencyKey(key) in strings ==> strings[IdempotencyKey(key)].value.Json?
  }

  lemma PrimeKeepsRecords(strings: Strings, r: Result<CreateResponse, CreateError>, ttl: int, fill: Call)
    requires RecordsOnly(strings)
    ensures RecordsOnly(Primed(strings, r, ttl, fill))
  {
    forall key: string ensures r.Success? ==> UrlKey(r.value.short_code) != IdempotencyKey(key) {
      if r.Success? { KeyFamiliesDisjoint(r.value.short_code, key, "", ""); }
    }
  }

  lemma ServeKeepsRecords(c: Settings, sys: System, post: Post, primed: bool)
    requires |post.draws| >= c.retries && RecordsOnly(sys.strings)
    ensures RecordsOnly(Serve(c, sys, post).0.strings) && RecordsOnly(Dead(c, sys, post, primed).strings)
  {
    var r := CreateOutcome(sys.db, post.payload, Base(post), c.retries, post.draws, post.now, post.id).1;
    PrimeKeepsRecords(sys.strings, r, c.ttl, post.fill);
  }

  lemma StepKeepsRecords(c: Settings, f: Fleet, e: FleetEvent)
    requires RecordsOnly(f.strings)
    ensures RecordsOnly(FleetStep(c, f, e).strings)
  {
    match e
    case Answered(p, limits, post) =>
      if Possible(c, f, e) { ServeKeepsRecords(c, At(f, p, limits), post, true); }
    case Died(p, limits, post, primed) =>
      if Possible(c, f, e) { ServeKeepsRecords(c, At(f, p, limits), post, primed); }
    case CacheWritten(code, _) =>
      forall key: string ensures UrlKey(code) != IdempotencyKey(key) { KeyFamiliesDisjoint(code, key, "", ""); }
    case _ =>
  }

  /** A process that remembers the key creates nothing for it; one that creates a row and lives remembers the key; none ever
      forgets it. */
  lemma ServeRemembers(c: Settings, sys: System, post: Post, primed: bool, key: string)
    requires |post.draws| >= c.retries && RecordsOnly(sys.strings) && key != ""
    ensures
      var (sys', reply) := Serve(c, sys, post);
      && (IdempotencyKey(key) in sys.records ==>
            IdempotencyKey(key) in sys'.records && IdempotencyKey(key) in Dead(c, sys, post, primed).records
            && (post.key == Some(key) ==> !Fresh(reply)))
      && (post.key == Some(key) && Fresh(reply) ==> IdempotencyKey(key) in sys'.records)
  {
    KeyFamiliesDisjoint("", key, "", "");
  }

  lemma StepWithout(c: Settings, f: Fleet, e: FleetEvent, key: string)
    requires RecordsOnly(f.strings) && key != ""
    ensures |FleetStep(c, f, e).records| == |f.records|
    ensures Without(FleetStep(c, f, e).records, key) <= Without(f.records, key)
    ensures FleetCreates(c, f, e, key) && e.Answered? ==> Without(FleetStep(c, f, e).records, key) < Without(f.records, key)
  {
    if OfRequest(e) && Possible(c, f, e) {
      ServeRemembers(c, At(f, e.p, e.limits), e.post, e.Died? && e.primed, key);
      WithoutUpdate(f.records, key, e.p, FleetStep(c, f, e).records[e.p]);
    }
  }

  // ---------- serial runs ----------

  /** Rows created for the key: at most one for each process that does not remember it, and one for each death. */
  lemma {:induction false} RowsByWithout(c: Settings, f: Fleet, events: seq<FleetEvent>, key: string)
    requires RecordsOnly(f.strings) && key != ""
    ensures FleetCreations(c, f, events, key) <= Without(f.records, key) + FleetDeaths(events, key)
    decreases |events|
  {
    if events != [] {
      StepKeepsRecords(c, f, events[0]);
      StepWithout(c, f, events[0], key);
      RowsByWithout(c, FleetStep(c, f, events[0]), events[1..], key);
    }
  }

  function NewFleet(processes: nat, db: Db): Fleet {
    Fleet(map[], seq(processes, _ => map[]), db)
  }

  /** P processes, from empty stores and any database, with any failures, losses and expiry of Redis: serial requests with
      one key create at most P rows, and one more for each that dies between its commit and its store. */
  lemma AtMostOneRowPerProcess(c: Settings, processes: nat, db: Db, events: seq<FleetEvent>, key: string)
    requires key != ""
    ensures FleetCreations(c, NewFleet(processes, db), events, key) <= processes + FleetDeaths(events, key)
  {
    RowsByWithout(c, NewFleet(processes, db), events, key);
  }

  // ---------- the bound is attained ----------

  /** The processes and the codes from `k` on are unused. */
  ghost predicate FleetUnused(f: Fleet, key: string, codes: seq<Code>, k: nat) {
    && |f.records| == |codes|
    && (forall j | k <= j < |codes| :: IdempotencyKey(key) !in f.records[j] && codes[j] !in f.db.rows)
  }

  lemma NextProcessCreates(c: Settings, f: Fleet, key: string, payload: Payload, codes: seq<Code>, k: nat)
    requires c.limit >= 1 && c.retries >= 1 && Alias(payload).None? && key != ""
    requires FleetUnused(f, key, codes, k) && k < |codes| && forall i, j | 0 <= i < j < |codes| :: codes[i] != codes[j]
    ensures
      var e := Answered(k, map[], Plain(k, key, payload, codes[k], c.retries));
      FleetCreates(c, f, e, key) && FleetUnused(FleetStep(c, f, e), key, codes, k + 1)
  {
    var post := Plain(k, key, payload, codes[k], c.retries);
    PlainIsAllowed(c, At(f, k, map[]), k, key, payload, codes[k]);
    PlainCreates(c, f.db, payload, codes[k], Base(post));
  }

  lemma {:induction false} EachProcessCreates(c: Settings, f: Fleet, key: string, payload: Payload, codes: seq<Code>, k: nat)
    returns (events: seq<FleetEvent>)
    requires c.limit >= 1 && c.retries >= 1 && Alias(payload).None? && key != ""
    requires FleetUnused(f, key, codes, k) && k <= |codes| && forall i, j | 0 <= i < j < |codes| :: codes[i] != codes[j]
    ensures FleetDeaths(events, key) == 0 && FleetCreations(c, f, events, key) == |codes| - k
    decreases |codes| - k
  {
    if k == |codes| {
      events := [];
    } else {
      var e := Answered(k, map[], Plain(k, key, payload, codes[k], c.retries));
      NextProcessCreates(c, f, key, payload, codes, k);
      var rest := EachProcessCreates(c, FleetStep(c, f, e), key, payload, codes, k + 1);
      events := [e] + rest;
      assert events[1..] == rest;
    }
  }

  /** No process has the record, and the codes from `k` on are free. */
  ghost predicate Unrecorded(f: Fleet, key: string, codes: seq<Code>, k: nat) {
    && (forall p | 0 <= p < |f.records| :: IdempotencyKey(key) !in f.records[p])
    && (forall j | k <= j < |codes| :: codes[j] !in f.db.rows)
  }

  lemma NextDies(c: Settings, f: Fleet, key: string, payload: Payload, codes: seq<Code>, k: nat)
    requires c.limit >= 1 && c.retries >= 1 && Alias(payload).None? && key != "" && |f.records| >= 1
    requires Unrecorded(f, key, codes, k) && k < |codes| && forall i, j | 0 <= i < j < |codes| :: codes[i] != codes[j]
    ensures
      var e := Died(0, map[], Plain(0, key, payload, codes[k], c.retries), false);
      && FleetCreates(c, f, e, key) && Unrecorded(FleetStep(c, f, e), key, codes, k + 1)
      && |FleetStep(c, f, e).records| == |f.records|
  {
    var post := Plain(0, key, payload, codes[k], c.retries);
    PlainIsAllowed(c, At(f, 0, map[]), 0, key, payload, codes[k]);
    PlainCreates(c, f.db, payload, codes[k], Base(post));
  }

  /** Deaths first, one row each, then a row for each process. */
  lemma {:induction false} DeathsThenProcesses(c: Settings, f: Fleet, key: string, payload: Payload, codes: seq<Code>, k: nat)
    returns (events: seq<FleetEvent>)
    requires c.limit >= 1 && c.retries >= 1 && Alias(payload).None? && key != "" && |f.records| >= 1
    requires Unrecorded(f, key, codes, k) && k + |f.records| <= |codes|
    requires forall i, j | 0 <= i < j < |codes| :: codes[i] != codes[j]
    ensures FleetDeaths(events, key) == |codes| - k - |f.records| && FleetCreations(c, f, events, key) == |codes| - k
    decreases |codes| - k
  {
    if k + |f.records| == |codes| {
      events := EachProcessCreates(c, f, key, payload, codes[k..], 0);
    } else {
      var e := Died(0, map[], Plain(0, key, payload, codes[k], c.retries), false);
      NextDies(c, f, key, payload, codes, k);
      var rest := DeathsThenProcesses(c, FleetStep(c, f, e), key, payload, codes, k + 1);
      events := [e] + rest;
      assert events[1..] == rest;
    }
  }

  /** With Redis down each of any number of processes creates its row, besides any number of deaths: serial requests with one
      key and one payload create one row under each of as many free codes, processes + FleetDeaths in all. */
  lemma OneRowPerProcess(c: Settings, processes: nat, db: Db, key: string, payload: Payload, codes: seq<Code>)
    returns (events: seq<FleetEvent>)
    requires c.limit >= 1 && c.retries >= 1 && Alias(payload).None? && key != "" && FreeCodes(db, codes)
    requires 1 <= processes <= |codes|
    ensures FleetCreations(c, NewFleet(processes, db), events, key) == |codes| == processes + FleetDeaths(events, key)
  {
    events := DeathsThenProcesses(c, NewFleet(processes, db), key, payload, codes, 0);
  }
}
