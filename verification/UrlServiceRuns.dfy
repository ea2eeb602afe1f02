/** The services are runs of the concurrent URL store: create, resolve and delete, run alone, leave in their stores what
    some steps of their operation leave in the machine, so whatever holds over every interleaving holds of them. */
module UrlServiceRuns {
  import opened Wrappers
  import opened Redis
  import opened Api
  import opened Keys
  import opened RedisServer
  import opened UrlStore
  import opened UrlService

  /** Only time passes and only operation `o` moves. */
  ghost predicate Alone(actions: seq<Action>, o: OpId) {
    forall a | a in actions :: a.Tick? || (a.Move? && a.o == o)
  }

  /** The machine `s`, but for its world and what operation `o` has become. */
  function With(s: State, w: World, o: OpId, op: Op): State {
    State(w, s.ops[o := op])
  }

  /** One more step of `o`, at time `at`. */
  lemma Next(c: Config, s: State, actions: seq<Action>, o: OpId, w: World, op: Op, at: Time, env: Env)
    returns (more: seq<Action>)
    requires Alone(actions, o) && Run(c, s, actions) == With(s, w, o, op) && w.clock <= at
    ensures Alone(more, o)
    ensures var (w', op') := Advance(c, w.(clock := at), o, op, env);
      Run(c, s, more) == With(s, w', o, op')
  {
    var s1, tick, move := With(s, w, o, op), Tick(at - w.clock), Move(o, env);
    RunConcat(c, s, actions, [tick]);
    RunOne(c, s1, tick);
    RunConcat(c, s, actions + [tick], [move]);
    RunOne(c, Exec(c, s1, tick), move);
    more := actions + [tick] + [move];
    var (w', op') := Advance(c, w.(clock := at), o, op, env);
    assert s.ops[o := op][o := op'] == s.ops[o := op'];
  }

  lemma NoStep(c: Config, s: State, o: OpId)
    requires o in s.ops
    ensures Run(c, s, []) == With(s, s.world, o, s.ops[o])
  {
    assert s.ops[o := s.ops[o]] == s.ops;
  }

  // ---------- the two views of the cache ----------

  predicate SameEntry(strings: Strings, cache: Cache, code: Code) {
    if code in cache then
      UrlKey(code) in strings && strings[UrlKey(code)] == Entry(Text(cache[code].url), cache[code].expireAt)
    else UrlKey(code) !in strings
  }

  /** The `url:` keys in Redis are the machine's cache. */
  ghost predicate SameCache(strings: Strings, cache: Cache) {
    forall code: Code :: SameEntry(strings, cache, code)
  }

  lemma UrlKeyInjective(a: Code, b: Code)
    ensures UrlKey(a) == UrlKey(b) <==> a == b
  {
    assert a == UrlKey(a)[4..] && b == UrlKey(b)[4..];
  }

  lemma SameHit(strings: Strings, cache: Cache, code: Code, get: Call)
    requires SameCache(strings, cache) && get.Reply?
    ensures Hit(strings, code, get) == CacheGet(cache, code, get.at)
  {
    assert SameEntry(strings, cache, code);
  }

  lemma SameSet(c: Config, strings: Strings, cache: Cache, code: Code, url: Url, at: Time)
    requires SameCache(strings, cache)
    ensures SameCache(Stored(strings, UrlKey(code), Text(url), c.ttl, at), CacheSet(c, cache, code, url, at))
  {
    var strings', cache' := Stored(strings, UrlKey(code), Text(url), c.ttl, at), CacheSet(c, cache, code, url, at);
    forall x: Code ensures SameEntry(strings', cache', x) {
      UrlKeyInjective(x, code);
      assert SameEntry(strings, cache, x);
    }
  }

  lemma SameEvict(strings: Strings, cache: Cache, code: Code)
    requires SameCache(strings, cache)
    ensures SameCache(strings - {UrlKey(code)}, cache - {code})
  {
    forall x: Code ensures SameEntry(strings - {UrlKey(code)}, cache - {code}, x) {
      UrlKeyInjective(x, code);
      assert SameEntry(strings, cache, x);
    }
  }

  /** `end` is `s` with operation `o` at `op`, the database `db`, and the cache that `strings` shows. */
  ghost predicate Ends(s: State, end: State, o: OpId, op: Op, strings: Strings, db: Db) {
    end.ops == s.ops[o := op] && SameCache(strings, end.world.cache) && end.world.db == db
  }

  // ---------- resolve ----------

  /** get_destination_url is a run: served exactly when it returns a URL, with that URL; not found exactly when None. */
  lemma ResolveIsRun(c: Config, s: State, o: OpId, code: Code, known: bool, strings: Strings, get: Call, fill: Call)
    returns (actions: seq<Action>)
    requires o in s.ops && s.ops[o] == Resolve(Lookup(code, known))
    requires SameCache(strings, s.world.cache) && s.world.clock <= get.at <= fill.at
    ensures Alone(actions, o)
    ensures
      var (strings', r) := Resolved(strings, s.world.db, code, c.ttl, get, fill);
      var op := match r case Some(url) => ServedNow(code, url, known) case None => NotFound(code, known);
      Ends(s, Run(c, s, actions), o, Resolve(op), strings', s.world.db)
  {
    NoStep(c, s, o);
    var w := s.world.(clock := get.at);
    actions := Next(c, s, [], o, s.world, Resolve(Lookup(code, known)), get.at, Answer(get.Reply?));
    if get.Reply? {
      SameHit(strings, s.world.cache, code, get);
    }
    if Hit(strings, code, get).None? {
      actions := Next(c, s, actions, o, w, Resolve(Query(code, known)), get.at, Answer(true));
      if code in s.world.db.rows {
        actions := RefillIsStep(c, s, actions, o, code, known, strings, w, fill);
      }
    }
  }

  lemma RefillIsStep(c: Config, s: State, actions: seq<Action>, o: OpId, code: Code, known: bool, strings: Strings,
                     w: World, fill: Call)
    returns (more: seq<Action>)
    requires code in w.db.rows && Alone(actions, o) && w.clock <= fill.at && SameCache(strings, w.cache)
    requires Run(c, s, actions) == With(s, w, o, Resolve(Filling(code, w.db.rows[code].url, w.clock, known)))
    ensures Alone(more, o)
    ensures
      var url := w.db.rows[code].url;
      Ends(s, Run(c, s, more), o, Resolve(ServedNow(code, url, known)),
           if Applied(fill) then Stored(strings, UrlKey(code), Text(url), c.ttl, fill.at) else strings, w.db)
  {
    var url := w.db.rows[code].url;
    more := Next(c, s, actions, o, w, Resolve(Filling(code, url, w.clock, known)), fill.at, Answer(Applied(fill)));
    SameSet(c, strings, w.cache, code, url, fill.at);
  }

  // ---------- delete ----------

  /** delete_url is a run when the database works. */
  lemma DeleteIsRun(c: Config, s: State, o: OpId, code: Code, strings: Strings, evict: Call) returns (actions: seq<Action>)
    requires o in s.ops && s.ops[o] == Delete(Finding(code))
    requires SameCache(strings, s.world.cache) && s.world.clock <= evict.at
    ensures Alone(actions, o)
    ensures
      var (strings', db', deleted) := Removed(strings, s.world.db, code, true, evict);
      Ends(s, Run(c, s, actions), o, Delete(Deleted(deleted)), strings', db')
  {
    var w, env := s.world, Answer(true);
    NoStep(c, s, o);
    actions := Next(c, s, [], o, w, Delete(Finding(code)), w.clock, env);
    if code in w.db.rows {
      var id := w.db.rows[code].id;
      actions := Next(c, s, actions, o, w, Delete(Doomed(code, id)), w.clock, env);
      w := w.(db := DeleteRow(w.db, code, id));
      actions := Next(c, s, actions, o, w, Delete(Evicting(code)), evict.at, Answer(Applied(evict)));
      SameEvict(strings, w.cache, code);
    }
  }

  // ---------- create ----------

  /** The claim loop sees nothing of its world but the database, and leaves the cache alone. */
  lemma {:induction false} ClaimLoopSees(w: World, v: World, o: OpId, op: Creating, draws: seq<Draw>)
    requires w.db == v.db
    ensures
      var (w1, op1) := ClaimLoop(w, o, op, draws);
      var (v1, op2) := ClaimLoop(v, o, op, draws);
      op1 == op2 && w1.db == v1.db && w1.cache == w.cache
    decreases |draws|
  {
    if op.Claim? && draws != [] {
      var (w', op') := ClaimStep(w.(clock := draws[0].at), o, op, draws[0].code);
      var (v', _) := ClaimStep(v.(clock := draws[0].at), o, op, draws[0].code);
      ClaimLoopSees(w', v', o, op', draws[1..]);
    }
  }

  /** The attempts follow each other in time. */
  predicate InTime(clock: Time, draws: seq<Draw>, end: Time)
    decreases |draws|
  {
    if draws == [] then clock <= end else clock <= draws[0].at && InTime(draws[0].at, draws[1..], end)
  }

  /** The collision loop is a run. */
  lemma {:induction false} ClaimLoopIsRun(c: Config, s: State, actions: seq<Action>, o: OpId, w: World, op: Creating,
                                          draws: seq<Draw>, end: Time)
    returns (more: seq<Action>)
    requires Alone(actions, o) && Run(c, s, actions) == With(s, w, o, Create(op)) && InTime(w.clock, draws, end)
    ensures Alone(more, o)
    ensures var (w', op') := ClaimLoop(w, o, op, draws);
      Run(c, s, more) == With(s, w', o, Create(op')) && w'.clock <= end
    decreases |draws|
  {
    more := actions;
    if op.Claim? && draws != [] {
      more := Next(c, s, actions, o, w, Create(op), draws[0].at, Env(draws[0].code, true, false, NO_VISIT));
      var (w', op') := ClaimStep(w.(clock := draws[0].at), o, op, draws[0].code);
      more := ClaimLoopIsRun(c, s, more, o, w', op', draws[1..], end);
    } else {
      EndsInTime(w.clock, draws, end);
    }
  }

  lemma {:induction false} EndsInTime(clock: Time, draws: seq<Draw>, end: Time)
    requires InTime(clock, draws, end)
    ensures clock <= end
    decreases |draws|
  {
    if draws != [] {
      EndsInTime(draws[0].at, draws[1..], end);
    }
  }

  /** How a creation ends in the machine: with the row it names, in conflict, or exhausted. */
  ghost predicate EndsAs(op: Creating, r: Result<CreateResponse, CreateError>) {
    match r
    case Success(response) => op.Created? && op.code == response.short_code && op.url == response.original_url
    case Failure(DuplicateAlias(alias)) => op == Conflict(alias)
    case Failure(CollisionRetryExhausted) => op == Exhausted
  }

  lemma PrimeIsStep(c: Config, s: State, actions: seq<Action>, o: OpId, w: World, p: Creating, strings: Strings, fill: Call)
    returns (more: seq<Action>)
    requires Alone(actions, o) && Run(c, s, actions) == With(s, w, o, Create(p)) && p.Priming? && w.clock <= fill.at
    requires SameCache(strings, w.cache)
    ensures Alone(more, o)
    ensures Ends(s, Run(c, s, more), o, Create(Created(p.code, p.id, p.url)),
                 if Applied(fill) then Stored(strings, UrlKey(p.code), Text(p.url), c.ttl, fill.at) else strings, w.db)
  {
    more := Next(c, s, actions, o, w, Create(p), fill.at, Answer(Applied(fill)));
    SameSet(c, strings, w.cache, p.code, p.url, fill.at);
  }

  /** What a request tries: its alias only, or as many candidates as the loop may. */
  function Tried(c: Config, payload: Payload, draws: seq<Draw>, now: Time): seq<Draw>
    requires |draws| >= c.retries
  {
    if Alias(payload).Some? then [Draw(Alias(payload).value, now)] else draws[..c.retries]
  }

  /** The claim steps of a request decide its outcome. */
  lemma ClaimsDecide(c: Config, w: World, o: OpId, payload: Payload, base: string, draws: seq<Draw>, now: Time)
    requires |draws| >= c.retries
    ensures
      var first := First(c, w, BeginCreate(o, payload.url, Alias(payload))).create;
      var (w', op) := ClaimLoop(w, o, first, Tried(c, payload, draws, now));
      var (db', r) := CreateOutcome(w.db, payload, base, c.retries, draws, now, o);
      && w'.cache == w.cache && w'.db == db'
      && (if op.Priming? then EndsAs(Created(op.code, op.id, op.url), r) else r.Failure? && EndsAs(op, r))
  {
    var ds := Tried(c, payload, draws, now);
    if Alias(payload).Some? {
      assert ds[1..] == [];
    } else if c.retries > 0 {
      ClaimLoopSees(w, World(now, w.db, map[]), o, Claim(payload.url, None, c.retries), ds);
      ClaimLoopAlone(World(now, w.db, map[]), o, payload.url, ds);
    }
  }

  /** create_short_url is a run: same rows, same cache, and the outcome it answers with. */
  lemma CreateIsRun(c: Config, s: State, o: OpId, payload: Payload, base: string, draws: seq<Draw>, now: Time,
                    strings: Strings, fill: Call)
    returns (actions: seq<Action>, op: Creating)
    requires o in s.ops && s.ops[o] == First(c, s.world, BeginCreate(o, payload.url, Alias(payload)))
    requires SameCache(strings, s.world.cache) && |draws| >= c.retries
    requires InTime(s.world.clock, Tried(c, payload, draws, now), fill.at)
    ensures Alone(actions, o)
    ensures
      var (db', r) := CreateOutcome(s.world.db, payload, base, c.retries, draws, now, o);
      EndsAs(op, r) && Ends(s, Run(c, s, actions), o, Create(op), Primed(strings, r, c.ttl, fill), db')
  {
    NoStep(c, s, o);
    var first, ds := s.ops[o].create, Tried(c, payload, draws, now);
    actions := ClaimLoopIsRun(c, s, [], o, s.world, first, ds, fill.at);
    ClaimsDecide(c, s.world, o, payload, base, draws, now);
    var (w, claimed) := ClaimLoop(s.world, o, first, ds);
    op := claimed;
    if op.Priming? {
      actions := PrimeIsStep(c, s, actions, o, w, op, strings, fill);
      op := Created(op.code, op.id, op.url);
    }
  }
}
