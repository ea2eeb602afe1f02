/** What every interleaving of the URL store keeps: one owner per row, true cache entries for codes that never lost a
    row, and events that reference rows. */
module UrlStoreInvariants {
  import opened Redis
  import opened Api
  import opened UrlStore

  // ---------- rows ----------

  /** Ids are never given out twice; a row in the table is not in its grave. */
  ghost predicate RowsInv(db: Db) {
    && db.nextId >= 1
    && (forall code | code in db.rows :: 1 <= db.rows[code].id < db.nextId && db.rows[code].id !in db.graves)
    && (forall c1, c2 | c1 in db.rows && c2 in db.rows && c1 != c2 :: db.rows[c1].id != db.rows[c2].id)
    && (forall id | id in db.graves :: id < db.nextId)
  }

  /** Same row but for its click count. */
  predicate SameRow(r: Row, r': Row) {
    r'.id == r.id && r'.url == r.url && r'.owner == r.owner
  }

  /** How the table changes: a row stays what it is, or its code and id are buried. */
  ghost predicate Evolves(db: Db, db': Db) {
    && db.nextId <= db'.nextId
    && db.buried <= db'.buried
    && (forall id | id in db.graves :: id in db'.graves && db'.graves[id] == db.graves[id])
    && (forall code | code in db.rows ::
          || (code in db'.rows && SameRow(db.rows[code], db'.rows[code]))
          || (code in db'.buried && db.rows[code].id in db'.graves && db'.graves[db.rows[code].id] == db.rows[code].owner))
  }

  lemma InsertRows(db: Db, code: Code, url: Url, now: Time, owner: OpId)
    requires RowsInv(db)
    ensures var db' := InsertRow(db, code, url, now, owner); RowsInv(db') && Evolves(db, db')
  {
  }

  lemma DeleteRows(db: Db, code: Code, id: Id)
    requires RowsInv(db)
    ensures var db' := DeleteRow(db, code, id); RowsInv(db') && Evolves(db, db')
  {
  }

  lemma ClickRows(db: Db, code: Code)
    requires RowsInv(db)
    ensures var db' := CountClick(db, code); RowsInv(db') && Evolves(db, db')
  {
  }

  lemma EventRows(db: Db, e: OpId, code: Code, event: ClickEvent)
    requires RowsInv(db)
    ensures var db' := AddEvent(db, e, code, event); RowsInv(db') && Evolves(db, db')
  {
  }

  /** The only statements that reach the tables. */
  lemma AdvanceStatements(c: Config, w: World, o: OpId, op: Op, env: Env)
    ensures
      var db, db' := w.db, Advance(c, w, o, op, env).0.db;
      match op {
        case Create(Claim(url, alias, _)) =>
          db' == InsertRow(db, if alias.Some? then alias.value else env.candidate, url, w.clock, o)
        case Resolve(Served(code, _, _, click, log)) =>
          if env.logTask then db' == db || (log.LogFound? && db' == AddEvent(db, o, code, ClickEvent(log.id, w.clock, env.visit)))
          else db' == db || (click.ClickPending? && db' == CountClick(db, code))
        case Delete(Doomed(code, id)) => db' == DeleteRow(db, code, id)
        case _ => db' == db
      }
  {
  }

  lemma AdvanceRows(c: Config, w: World, o: OpId, op: Op, env: Env)
    requires RowsInv(w.db)
    ensures var db' := Advance(c, w, o, op, env).0.db; RowsInv(db') && Evolves(w.db, db')
  {
    AdvanceStatements(c, w, o, op, env);
    match op
    case Create(Claim(url, alias, _)) =>
      InsertRows(w.db, if alias.Some? then alias.value else env.candidate, url, w.clock, o);
    case Resolve(Served(code, _, _, click, log)) =>
      if env.logTask {
        if log.LogFound? { EventRows(w.db, o, code, ClickEvent(log.id, w.clock, env.visit)); }
      } else {
        ClickRows(w.db, code);
      }
    case Delete(Doomed(code, id)) => DeleteRows(w.db, code, id);
    case _ =>
  }

  // ---------- operations ----------

  /** `url` is the URL of `code`, unless `code` lost a row at some time. */
  predicate Agrees(db: Db, code: Code, url: Url) {
    (code in db.rows && db.rows[code].url == url) || code in db.buried
  }

  predicate Known(db: Db, code: Code) {
    code in db.rows || code in db.buried
  }

  /** An id read under `code` belongs to the row at `code`, or to one of its dead rows. */
  predicate Refers(db: Db, code: Code, id: Id) {
    HasId(db, code, id) || (id in db.graves && code in db.buried)
  }

  /** The row (code, id) that operation `o` inserted with `url` is alive, or dead and buried. */
  predicate Inserted(db: Db, o: OpId, code: Code, id: Id, url: Url) {
    if id in db.graves then db.graves[id] == o && code in db.buried
    else HasId(db, code, id) && db.rows[code].url == url && db.rows[code].owner == o
  }

  predicate CreateOk(db: Db, o: OpId, op: Creating) {
    match op
    case Priming(code, id, url, _) => Inserted(db, o, code, id, url)
    case Created(code, id, url) => Inserted(db, o, code, id, url)
    case Abandoned(code, id, url) => Inserted(db, o, code, id, url)
    case Conflict(code) => Known(db, code)
    case _ => true
  }

  predicate ClickOk(db: Db, code: Code, click: ClickTask) {
    match click
    case Counted(id) => Refers(db, code, id)
    case ClickMissed => code in db.buried
    case _ => true
  }

  predicate LogOk(db: Db, code: Code, log: LogTask) {
    match log
    case LogFound(id) => Refers(db, code, id)
    case Logged(id) => Refers(db, code, id)
    case LogMissed => code in db.buried
    case _ => true
  }

  predicate ResolveOk(db: Db, op: Resolving) {
    match op
    case Lookup(code, known) => known ==> Known(db, code)
    case Query(code, known) => known ==> Known(db, code)
    case Filling(code, url, _, _) => Agrees(db, code, url)
    case Served(code, url, _, click, log) => Agrees(db, code, url) && ClickOk(db, code, click) && LogOk(db, code, log)
    case NotFound(code, known) => known ==> code in db.buried
  }

  predicate OpOk(db: Db, o: OpId, op: Op) {
    match op
    case Create(create) => CreateOk(db, o, create)
    case Resolve(resolve) => ResolveOk(db, resolve)
    case Delete(Doomed(code, id)) => Refers(db, code, id)
    case _ => true
  }

  ghost predicate CacheInv(w: World) {
    forall code | code in w.cache :: Agrees(w.db, code, w.cache[code].url)
  }

  lemma ReferencesLast(db: Db, db': Db, code: Code)
    requires RowsInv(db) && RowsInv(db') && Evolves(db, db')
    ensures forall id | Refers(db, code, id) :: Refers(db', code, id)
    ensures forall url | Agrees(db, code, url) :: Agrees(db', code, url)
    ensures Known(db, code) ==> Known(db', code)
    ensures forall o, id, url | Inserted(db, o, code, id, url) :: Inserted(db', o, code, id, url)
  {
  }

  /** What is true of an operation stays true while others move. */
  lemma OpLasts(db: Db, db': Db, o: OpId, op: Op)
    requires RowsInv(db) && RowsInv(db') && Evolves(db, db') && OpOk(db, o, op)
    ensures OpOk(db', o, op)
  {
    match op
    case Create(create) =>
      if !create.Claim? && !create.Exhausted? { ReferencesLast(db, db', create.code); }
    case Resolve(resolve) => ReferencesLast(db, db', resolve.code);
    case Delete(Doomed(code, id)) => ReferencesLast(db, db', code);
    case _ =>
  }

  lemma CreateMoves(c: Config, w: World, o: OpId, op: Creating, env: Env)
    requires RowsInv(w.db) && CacheInv(w) && CreateOk(w.db, o, op)
    ensures var (w', op') := CreateStep(c, w, o, op, env);
      CreateOk(w'.db, o, op') && CacheInv(w')
  {
    AdvanceRows(c, w, o, Create(op), env);
  }

  lemma ClickMoves(w: World, code: Code, click: ClickTask, ok: bool)
    requires RowsInv(w.db) && ClickOk(w.db, code, click) && Known(w.db, code)
    ensures var (w', click') := ClickStep(w, code, click, ok);
      ClickOk(w'.db, code, click') && w'.cache == w.cache && RowsInv(w'.db) && Evolves(w.db, w'.db)
  {
    ClickRows(w.db, code);
  }

  lemma LogMoves(w: World, o: OpId, code: Code, log: LogTask, env: Env)
    requires RowsInv(w.db) && LogOk(w.db, code, log) && Known(w.db, code)
    ensures var (w', log') := LogStep(w, o, code, log, env);
      LogOk(w'.db, code, log') && w'.cache == w.cache && RowsInv(w'.db) && Evolves(w.db, w'.db)
  {
    if log.LogFound? {
      EventRows(w.db, o, code, ClickEvent(log.id, w.clock, env.visit));
    }
  }

  lemma ServedMoves(c: Config, w: World, o: OpId, op: Resolving, env: Env)
    requires RowsInv(w.db) && CacheInv(w) && ResolveOk(w.db, op) && op.Served?
    ensures var (w', op') := ResolveStep(c, w, o, op, env);
      ResolveOk(w'.db, op') && CacheInv(w')
  {
    if env.logTask {
      LogMoves(w, o, op.code, op.log, env);
    } else {
      ClickMoves(w, op.code, op.click, env.ok);
    }
    var w' := ResolveStep(c, w, o, op, env).0;
    ReferencesLast(w.db, w'.db, op.code);
    CacheLasts(w, w');
  }

  lemma CacheLasts(w: World, w': World)
    requires RowsInv(w.db) && RowsInv(w'.db) && Evolves(w.db, w'.db) && CacheInv(w) && w'.cache == w.cache
    ensures CacheInv(w')
  {
  }

  lemma ResolveMoves(c: Config, w: World, o: OpId, op: Resolving, env: Env)
    requires RowsInv(w.db) && CacheInv(w) && ResolveOk(w.db, op) && !op.Served?
    ensures var (w', op') := ResolveStep(c, w, o, op, env);
      ResolveOk(w'.db, op') && CacheInv(w')
  {
  }

  lemma DeleteMoves(c: Config, w: World, o: OpId, op: Deleting, env: Env)
    requires RowsInv(w.db) && CacheInv(w) && OpOk(w.db, o, Delete(op))
    ensures var (w', op') := DeleteStep(w, op, env);
      OpOk(w'.db, o, Delete(op')) && CacheInv(w')
  {
    AdvanceRows(c, w, o, Delete(op), env);
  }

  /** One operation moves: it stays right about the store, and so does the cache. */
  lemma AdvanceOk(c: Config, w: World, o: OpId, op: Op, env: Env)
    requires RowsInv(w.db) && CacheInv(w) && OpOk(w.db, o, op)
    ensures var (w', op') := Advance(c, w, o, op, env);
      OpOk(w'.db, o, op') && CacheInv(w')
  {
    match op
    case Create(create) => CreateMoves(c, w, o, create, env);
    case Resolve(resolve) =>
      if resolve.Served? { ServedMoves(c, w, o, resolve, env); } else { ResolveMoves(c, w, o, resolve, env); }
    case Delete(delete) => DeleteMoves(c, w, o, delete, env);
    case Aborted =>
  }

  ghost predicate OpsInv(s: State) {
    forall o | o in s.ops :: OpOk(s.world.db, o, s.ops[o])
  }

  ghost predicate StoreInv(s: State) {
    RowsInv(s.world.db) && CacheInv(s.world) && OpsInv(s)
  }

  lemma MoveStore(c: Config, s: State, o: OpId, env: Env)
    requires StoreInv(s) && o in s.ops
    ensures
      var s' := Exec(c, s, Move(o, env));
      StoreInv(s') && Evolves(s.world.db, s'.world.db)
  {
    AdvanceRows(c, s.world, o, s.ops[o], env);
    AdvanceOk(c, s.world, o, s.ops[o], env);
    var s' := Exec(c, s, Move(o, env));
    forall x | x in s'.ops ensures OpOk(s'.world.db, x, s'.ops[x]) {
      if x != o { OpLasts(s.world.db, s'.world.db, x, s.ops[x]); }
    }
  }

  lemma StepStore(c: Config, s: State, a: Action)
    requires StoreInv(s)
    ensures StoreInv(Exec(c, s, a)) && Evolves(s.world.db, Exec(c, s, a).world.db)
  {
    if a.Move? && a.o in s.ops {
      MoveStore(c, s, a.o, a.env);
    }
  }

  // ---------- owners and events ----------

  /** The operation inserted the row (code, id), whether or not its response got out. */
  predicate Holds(op: Op, code: Code, id: Id) {
    match op
    case Create(Priming(c, i, _, _)) => c == code && i == id
    case Create(Created(c, i, _)) => c == code && i == id
    case Create(Abandoned(c, i, _)) => c == code && i == id
    case _ => false
  }

  /** Every row was inserted by the operation it names. */
  ghost predicate OwnersInv(s: State) {
    forall code | code in s.world.db.rows ::
      var r := s.world.db.rows[code];
      r.owner in s.ops && Holds(s.ops[r.owner], code, r.id)
  }

  /** Holding a row is for good. */
  lemma HoldingLasts(c: Config, s: State, a: Action, o: OpId, code: Code, id: Id)
    requires o in s.ops && Holds(s.ops[o], code, id)
    ensures o in Exec(c, s, a).ops && Holds(Exec(c, s, a).ops[o], code, id)
  {
  }

  /** A row in the table was there before, or the moving operation has just inserted it. */
  lemma NewRows(c: Config, s: State, a: Action, code: Code)
    requires code in Exec(c, s, a).world.db.rows
    ensures
      var s' := Exec(c, s, a);
      var r := s'.world.db.rows[code];
      || (code in s.world.db.rows && SameRow(s.world.db.rows[code], r))
      || (code !in s.world.db.rows && a.Move? && a.o in s.ops && s.ops[a.o].Create? && s.ops[a.o].create.Claim?
          && r.owner == a.o && a.o in s'.ops && Holds(s'.ops[a.o], code, r.id))
  {
    if a.Move? && a.o in s.ops {
      AdvanceStatements(c, s.world, a.o, s.ops[a.o], a.env);
    }
  }

  lemma StepOwners(c: Config, s: State, a: Action)
    requires OwnersInv(s)
    ensures OwnersInv(Exec(c, s, a))
  {
    var s' := Exec(c, s, a);
    forall code | code in s'.world.db.rows
      ensures var r := s'.world.db.rows[code]; r.owner in s'.ops && Holds(s'.ops[r.owner], code, r.id)
    {
      NewRows(c, s, a, code);
      if code in s.world.db.rows && SameRow(s.world.db.rows[code], s'.world.db.rows[code]) {
        HoldingLasts(c, s, a, s.world.db.rows[code].owner, code, s.world.db.rows[code].id);
      }
    }
  }

  predicate HasLogged(op: Op, code: Code, id: Id) {
    op.Resolve? && op.resolve.Served? && op.resolve.code == code && op.resolve.log == Logged(id)
  }

  /** Referential integrity: an event references the row of the code its redirect served. */
  ghost predicate EventsInv(s: State) {
    forall e | e in s.world.db.events ::
      && e in s.ops && s.ops[e].Resolve? && s.ops[e].resolve.Served?
      && HasLogged(s.ops[e], s.ops[e].resolve.code, s.world.db.events[e].url_id)
      && HasId(s.world.db, s.ops[e].resolve.code, s.world.db.events[e].url_id)
  }

  /** A log whose row is alive has its event. */
  ghost predicate LogsInv(s: State) {
    forall o | o in s.ops && s.ops[o].Resolve? && s.ops[o].resolve.Served? && s.ops[o].resolve.log.Logged? ::
      s.ops[o].resolve.log.id in s.world.db.graves || o in s.world.db.events
  }

  lemma LoggingLasts(c: Config, s: State, a: Action, o: OpId, code: Code, id: Id)
    requires o in s.ops && HasLogged(s.ops[o], code, id)
    ensures o in Exec(c, s, a).ops && HasLogged(Exec(c, s, a).ops[o], code, id)
  {
  }

  /** An event in the table was there before, or the moving redirect has just logged it against a living row; an event
      leaves only with its row. */
  lemma NewEvents(c: Config, s: State, a: Action, e: OpId)
    ensures
      var s', db, db' := Exec(c, s, a), s.world.db, Exec(c, s, a).world.db;
      && (e in db'.events ==>
            || (e in db.events && db'.events[e] == db.events[e])
            || (a.Move? && e == a.o && e in s'.ops && s'.ops[e].Resolve? && s'.ops[e].resolve.Served?
                && HasLogged(s'.ops[e], s'.ops[e].resolve.code, db'.events[e].url_id)
                && HasId(db', s'.ops[e].resolve.code, db'.events[e].url_id)))
      && (e in db.events && e !in db'.events ==> db.events[e].url_id in db'.graves)
  {
    if a.Move? && a.o in s.ops {
      AdvanceStatements(c, s.world, a.o, s.ops[a.o], a.env);
    }
  }

  /** A living row whose id an event carries keeps that id. */
  lemma EventRowsLive(c: Config, s: State, a: Action, e: OpId, code: Code)
    requires RowsInv(s.world.db) && e in s.world.db.events && HasId(s.world.db, code, s.world.db.events[e].url_id)
    requires e in Exec(c, s, a).world.db.events && Exec(c, s, a).world.db.events[e] == s.world.db.events[e]
    ensures HasId(Exec(c, s, a).world.db, code, s.world.db.events[e].url_id) || (a.Move? && a.o == e)
  {
    if a.Move? && a.o in s.ops {
      AdvanceStatements(c, s.world, a.o, s.ops[a.o], a.env);
    }
  }

  lemma StepEvents(c: Config, s: State, a: Action)
    requires StoreInv(s) && EventsInv(s)
    ensures EventsInv(Exec(c, s, a))
  {
    var s' := Exec(c, s, a);
    forall e | e in s'.world.db.events
      ensures
        && e in s'.ops && s'.ops[e].Resolve? && s'.ops[e].resolve.Served?
        && HasLogged(s'.ops[e], s'.ops[e].resolve.code, s'.world.db.events[e].url_id)
        && HasId(s'.world.db, s'.ops[e].resolve.code, s'.world.db.events[e].url_id)
    {
      NewEvents(c, s, a, e);
      if e in s.world.db.events && s'.world.db.events[e] == s.world.db.events[e] {
        LoggingLasts(c, s, a, e, s.ops[e].resolve.code, s.world.db.events[e].url_id);
        EventRowsLive(c, s, a, e, s.ops[e].resolve.code);
      }
    }
  }

  lemma NewLogs(c: Config, s: State, a: Action, o: OpId, code: Code, id: Id)
    requires o in Exec(c, s, a).ops && HasLogged(Exec(c, s, a).ops[o], code, id)
    ensures (o in s.ops && HasLogged(s.ops[o], code, id)) || o in Exec(c, s, a).world.db.events
  {
  }

  lemma StepLogs(c: Config, s: State, a: Action)
    requires StoreInv(s) && EventsInv(s) && LogsInv(s)
    ensures LogsInv(Exec(c, s, a))
  {
    var s' := Exec(c, s, a);
    StepStore(c, s, a);
    forall o | o in s'.ops && s'.ops[o].Resolve? && s'.ops[o].resolve.Served? && s'.ops[o].resolve.log.Logged?
      ensures s'.ops[o].resolve.log.id in s'.world.db.graves || o in s'.world.db.events
    {
      NewLogs(c, s, a, o, s'.ops[o].resolve.code, s'.ops[o].resolve.log.id);
      NewEvents(c, s, a, o);
    }
  }
}
