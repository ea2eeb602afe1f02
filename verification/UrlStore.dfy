/** The URL store as concurrent requests see it: rows in Postgres, a cache in Redis, and operations that interleave at
    every commit and every Redis call (app/services/url_service.py, cache_service.py, analytics_service.py). */
module UrlStore {
  import opened Wrappers
  import opened Redis
  import opened Api

  type OpId = nat
  type Id = nat

  /** Cache TTL in seconds, and the number of attempts of the collision loop. */
  datatype Config = Config(ttl: int, retries: nat)

  // ---------- Postgres ----------

  /** A row of `urls`; `owner` is history: the operation that inserted it. */
  datatype Row = Row(id: Id, url: Url, clicks: nat, created: Time, owner: OpId)

  /** A nullable text column. */
  type Label = Option<string>

  /** What a redirect passes to log_click, as it is stored: referrer, browser family, hash of the address. */
  datatype Visit = Visit(referrer: Label, family: Label, ip_hash: Label)

  /** A row of `click_events`. */
  datatype ClickEvent = ClickEvent(url_id: Id, clicked_at: Time, visit: Visit)

  /** The two tables, keyed as their unique indexes are; an event is named by the redirect that logged it. `graves` and
      `buried` are history: the ids of deleted rows with the operation that inserted them, and the codes that ever lost a
      row. */
  datatype Db = Db(rows: map<Code, Row>, nextId: Id, events: map<OpId, ClickEvent>, graves: map<Id, OpId>, buried: set<Code>)

  predicate HasId(db: Db, code: Code, id: Id) {
    code in db.rows && db.rows[code].id == id
  }

  /** INSERT under the unique index on short_code. The id sequence moves on even when the insert is rejected. */
  function InsertRow(db: Db, code: Code, url: Url, now: Time, owner: OpId): Db {
    if code in db.rows then db.(nextId := db.nextId + 1)
    else db.(rows := db.rows[code := Row(db.nextId, url, 0, now, owner)], nextId := db.nextId + 1)
  }

  /** DELETE by primary key, for an id read under `code`; the foreign key cascades to the row's events. */
  function DeleteRow(db: Db, code: Code, id: Id): Db {
    if HasId(db, code, id) then
      db.(rows := db.rows - {code},
          events := map e | e in db.events && db.events[e].url_id != id :: db.events[e],
          graves := db.graves[id := db.rows[code].owner],
          buried := db.buried + {code})
    else db
  }

  /** UPDATE urls SET click_count = click_count + 1 WHERE short_code = code, in one statement. */
  function CountClick(db: Db, code: Code): Db {
    if code in db.rows then
      db.(rows := db.rows[code := db.rows[code].(clicks := db.rows[code].clicks + 1)])
    else db
  }

  /** INSERT into click_events. The foreign key is checked: the only row that can carry an id read under `code` is the
      row at `code`. */
  function AddEvent(db: Db, e: OpId, code: Code, event: ClickEvent): Db {
    if HasId(db, code, event.url_id) then db.(events := db.events[e := event]) else db
  }

  // ---------- the cache ----------

  /** A cached URL; `setAt` is history. */
  datatype Cached = Cached(url: Url, expireAt: Option<Time>, setAt: Time)

  type Cache = map<Code, Cached>

  /** What a working GET returns. The empty string is falsy, so it counts as a miss. */
  function CacheGet(cache: Cache, code: Code, now: Time): Option<Url> {
    if code in cache && (cache[code].expireAt.Some? ==> now < cache[code].expireAt.value) && cache[code].url != ""
    then Some(cache[code].url) else None
  }

  function CacheSet(c: Config, cache: Cache, code: Code, url: Url, now: Time): Cache {
    cache[code := Cached(url, if c.ttl > 0 then Some(now + c.ttl as real) else None, now)]
  }

  // ---------- operations ----------

  /** create_short_url. `since` is the time of the commit whose URL is about to be cached; `Abandoned` is a request
      that ended in an error after its commit. */
  datatype Creating =
    | Claim(url: Url, alias: Option<Code>, tries: nat)
    | Priming(code: Code, id: Id, url: Url, since: Time)
    | Created(code: Code, id: Id, url: Url)
    | Abandoned(code: Code, id: Id, url: Url)
    | Conflict(code: Code)
    | Exhausted

  /** record_click, scheduled by a redirect. */
  datatype ClickTask = ClickPending | Counted(id: Id) | ClickMissed | ClickFailed

  /** log_click, scheduled by a redirect: it reads the row's id, then inserts an event for it. */
  datatype LogTask = LogPending | LogFound(id: Id) | Logged(id: Id) | LogMissed | LogFailed

  /** get_destination_url and the two background tasks of a redirect. `known` is history: whether the row existed when
      the resolve began. */
  datatype Resolving =
    | Lookup(code: Code, known: bool)
    | Query(code: Code, known: bool)
    | Filling(code: Code, url: Url, since: Time, known: bool)
    | Served(code: Code, url: Url, known: bool, click: ClickTask, log: LogTask)
    | NotFound(code: Code, known: bool)

  /** delete_url. */
  datatype Deleting =
    | Finding(code: Code)
    | Doomed(code: Code, id: Id)
    | Evicting(code: Code)
    | Deleted(found: bool)

  datatype Op = Create(create: Creating) | Resolve(resolve: Resolving) | Delete(delete: Deleting) | Aborted

  /** What the environment decides about one step: the random candidate, whether the call succeeds (for a SET or DEL:
      whether the server applies it), which background task moves, and what log_click stores. */
  datatype Env = Env(candidate: Code, ok: bool, logTask: bool, visit: Visit)

  const NO_VISIT := Visit(None, None, None)

  /** A step of which only its success matters. */
  function Answer(ok: bool): Env {
    Env("", ok, false, NO_VISIT)
  }

  /** Everything operations share. */
  datatype World = World(clock: Time, db: Db, cache: Cache)

  /** The insert of a claim, and the collision loop around it. */
  function ClaimStep(w: World, o: OpId, claim: Creating, candidate: Code): (World, Creating)
    requires claim.Claim?
  {
    var code := if claim.alias.Some? then claim.alias.value else candidate;
    var w' := w.(db := InsertRow(w.db, code, claim.url, w.clock, o));
    if code !in w.db.rows then (w', Priming(code, w.db.nextId, claim.url, w.clock))
    else if claim.alias.Some? then (w', Conflict(code))
    else if claim.tries <= 1 then (w', Exhausted)
    else (w', claim.(tries := claim.tries - 1))
  }

  function CreateStep(c: Config, w: World, o: OpId, op: Creating, env: Env): (World, Creating) {
    match op
    case Claim(_, _, _) => ClaimStep(w, o, op, env.candidate)
    case Priming(code, id, url, _) =>
      (if env.ok then w.(cache := CacheSet(c, w.cache, code, url, w.clock)) else w, Created(code, id, url))
    case _ => (w, op)
  }

  function ClickStep(w: World, code: Code, task: ClickTask, ok: bool): (World, ClickTask) {
    if !task.ClickPending? then (w, task)
    else if !ok then (w, ClickFailed)
    else if code in w.db.rows then (w.(db := CountClick(w.db, code)), Counted(w.db.rows[code].id))
    else (w, ClickMissed)
  }

  function LogStep(w: World, o: OpId, code: Code, task: LogTask, env: Env): (World, LogTask) {
    match task
    case LogPending =>
      (w, if !env.ok then LogFailed else if code in w.db.rows then LogFound(w.db.rows[code].id) else LogMissed)
    case LogFound(id) =>
      if env.ok && HasId(w.db, code, id) then
        (w.(db := AddEvent(w.db, o, code, ClickEvent(id, w.clock, env.visit))), Logged(id))
      else (w, LogFailed)
    case _ => (w, task)
  }

  function ServedNow(code: Code, url: Url, known: bool): Resolving {
    Served(code, url, known, ClickPending, LogPending)
  }

  function ResolveStep(c: Config, w: World, o: OpId, op: Resolving, env: Env): (World, Resolving) {
    match op
    case Lookup(code, known) =>
      (match CacheGet(w.cache, code, w.clock)
       case Some(url) => (w, if env.ok then ServedNow(code, url, known) else Query(code, known))
       case None => (w, Query(code, known)))
    case Query(code, known) =>
      (w, if code in w.db.rows then Filling(code, w.db.rows[code].url, w.clock, known) else NotFound(code, known))
    case Filling(code, url, _, known) =>
      (if env.ok then w.(cache := CacheSet(c, w.cache, code, url, w.clock)) else w, ServedNow(code, url, known))
    case Served(code, url, known, click, log) =>
      if env.logTask then
        var (w', log') := LogStep(w, o, code, log, env);
        (w', Served(code, url, known, click, log'))
      else
        var (w', click') := ClickStep(w, code, click, env.ok);
        (w', Served(code, url, known, click', log))
    case NotFound(_, _) => (w, op)
  }

  function DeleteStep(w: World, op: Deleting, env: Env): (World, Deleting) {
    match op
    case Finding(code) => (w, if code in w.db.rows then Doomed(code, w.db.rows[code].id) else Deleted(false))
    case Doomed(code, id) => (w.(db := DeleteRow(w.db, code, id)), Evicting(code))
    case Evicting(code) => (if env.ok then w.(cache := w.cache - {code}) else w, Deleted(true))
    case Deleted(_) => (w, op)
  }

  function Advance(c: Config, w: World, o: OpId, op: Op, env: Env): (World, Op) {
    match op
    case Create(create) => var (w', op') := CreateStep(c, w, o, create, env); (w', Create(op'))
    case Resolve(resolve) => var (w', op') := ResolveStep(c, w, o, resolve, env); (w', Resolve(op'))
    case Delete(delete) => var (w', op') := DeleteStep(w, delete, env); (w', Delete(op'))
    case Aborted => (w, op)
  }

  /** An error or a lost client ends a request. A committed insert stays committed; background tasks run on. */
  function Aborting(op: Op): Op {
    match op
    case Create(Priming(code, id, url, _)) => Create(Abandoned(code, id, url))
    case Create(Claim(_, _, _)) => Aborted
    case Resolve(Served(_, _, _, _, _)) => op
    case Resolve(_) => Aborted
    case Delete(_) => Aborted
    case _ => op
  }

  // ---------- the machine ----------

  datatype State = State(world: World, ops: map<OpId, Op>)

  datatype Action =
    | Tick(elapsed: Time)
    | BeginCreate(o: OpId, url: Url, alias: Option<Code>)
    | BeginResolve(o: OpId, code: Code)
    | BeginDelete(o: OpId, code: Code)
    | Move(o: OpId, env: Env)
    | Abort(o: OpId)
    | Lose(code: Code)  // Redis drops an entry on its own

  const INIT := State(World(0.0, Db(map[], 1, map[], map[], {}), map[]), map[])

  function First(c: Config, w: World, a: Action): Op
    requires a.BeginCreate? || a.BeginResolve? || a.BeginDelete?
  {
    match a
    case BeginCreate(_, url, alias) =>
      Create(if alias == None && c.retries == 0 then Exhausted else Claim(url, alias, c.retries))
    case BeginResolve(_, code) => Resolve(Lookup(code, code in w.db.rows))
    case BeginDelete(_, code) => Delete(Finding(code))
  }

  /** One step; an action that is not enabled changes nothing. */
  function Exec(c: Config, s: State, a: Action): State {
    match a
    case Tick(elapsed) => s.(world := s.world.(clock := s.world.clock + elapsed))
    case Lose(code) => s.(world := s.world.(cache := s.world.cache - {code}))
    case Move(o, env) =>
      if o in s.ops then
        var (w, op) := Advance(c, s.world, o, s.ops[o], env);
        State(w, s.ops[o := op])
      else s
    case Abort(o) => if o in s.ops then s.(ops := s.ops[o := Aborting(s.ops[o])]) else s
    case _ => if a.o in s.ops then s else s.(ops := s.ops[a.o := First(c, s.world, a)])
  }

  /** A run from the empty store: trace[i + 1] is the state after actions[i]. */
  ghost predicate IsRun(c: Config, trace: seq<State>, actions: seq<Action>) {
    && |trace| == |actions| + 1
    && trace[0] == INIT
    && forall i | 0 <= i < |actions| :: trace[i + 1] == Exec(c, trace[i], actions[i])
  }

  // ---------- runs from any state ----------

  function Run(c: Config, s: State, actions: seq<Action>): State
    decreases |actions|
  {
    if actions == [] then s else Run(c, Exec(c, s, actions[0]), actions[1..])
  }

  lemma RunOne(c: Config, s: State, a: Action)
    ensures Run(c, s, [a]) == Exec(c, s, a)
  {
    assert [a][1..] == [];
  }

  lemma RunStep(c: Config, s: State, a: Action, rest: seq<Action>)
    ensures Run(c, s, [a] + rest) == Run(c, Exec(c, s, a), rest)
  {
    assert ([a] + rest)[1..] == rest;
  }

  lemma {:induction false} RunConcat(c: Config, s: State, first: seq<Action>, rest: seq<Action>)
    ensures Run(c, s, first + rest) == Run(c, Run(c, s, first), rest)
    decreases |first|
  {
    if first == [] {
      assert first + rest == rest;
    } else {
      RunConcat(c, Exec(c, s, first[0]), first[1..], rest);
      assert (first + rest)[1..] == first[1..] + rest;
    }
  }
}
