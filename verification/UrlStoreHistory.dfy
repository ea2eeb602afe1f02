/** Theorems over whole runs of the URL store: where served URLs come from, how stale they can be, that the cache is
    invisible for codes that are never deleted, and who owns a code. */
module UrlStoreHistory {
  import opened Wrappers
  import opened Redis
  import opened Api
  import opened UrlStore
  import opened UrlStoreInvariants
  import opened UrlStoreClicks

  // ---------- the cache is invisible without deletes ----------

  lemma {:induction false} RowsLast(c: Config, trace: seq<State>, actions: seq<Action>, i: nat, n: nat, code: Code)
    requires IsRun(c, trace, actions) && i <= n < |trace| && code in trace[i].world.db.rows
    requires code !in trace[n].world.db.buried
    ensures code in trace[n].world.db.rows && SameRow(trace[i].world.db.rows[code], trace[n].world.db.rows[code])
    decreases n
  {
    if i < n {
      RunInv(c, trace, actions, n - 1);
      StepStore(c, trace[n - 1], actions[n - 1]);
      RowsLast(c, trace, actions, i, n - 1, code);
    }
  }

  /** A resolve under way or done, for `code`, that began when the row was there (or not). */
  predicate ResolveFor(op: Op, code: Code, known: bool) {
    op == Aborted || (op.Resolve? && op.resolve.code == code && op.resolve.known == known)
  }

  lemma {:induction false} ResolveKeepsCode(c: Config, trace: seq<State>, actions: seq<Action>, j: nat, n: nat, o: OpId)
    requires IsRun(c, trace, actions) && j < n < |trace| && actions[j].BeginResolve? && actions[j].o == o
    requires o !in trace[j].ops
    ensures o in trace[n].ops && ResolveFor(trace[n].ops[o], actions[j].code, actions[j].code in trace[j].world.db.rows)
    decreases n
  {
    if j + 1 < n {
      ResolveKeepsCode(c, trace, actions, j, n - 1, o);
      assert trace[n] == Exec(c, trace[n - 1], actions[n - 1]);
    } else {
      assert trace[n] == Exec(c, trace[j], actions[j]);
    }
  }

  /** Transparency: a resolve that begins when the row of a never deleted code exists ends with exactly the URL committed
      for it, whatever the cache did: misses, failed or lost calls, expiry, eviction, other readers and creators. */
  lemma ResolveIsTransparent(c: Config, trace: seq<State>, actions: seq<Action>, j: nat, n: nat, o: OpId)
    requires IsRun(c, trace, actions) && j < n < |trace| && actions[j].BeginResolve? && actions[j].o == o
    requires o !in trace[j].ops && actions[j].code in trace[j].world.db.rows
    requires actions[j].code !in trace[n].world.db.buried
    ensures o in trace[n].ops
    ensures
      var op, url := trace[n].ops[o], trace[j].world.db.rows[actions[j].code].url;
      op.Resolve? ==>
        && !op.resolve.NotFound?
        && (op.resolve.Served? ==> op.resolve.url == url)
        && (op.resolve.Filling? ==> op.resolve.url == url)
  {
    var code := actions[j].code;
    RunInv(c, trace, actions, n);
    ResolveKeepsCode(c, trace, actions, j, n, o);
    RowsLast(c, trace, actions, j, n, code);
    assert OpOk(trace[n].world.db, o, trace[n].ops[o]);
  }

  /** The entry of a never deleted code holds its URL. */
  lemma CacheIsTransparent(c: Config, trace: seq<State>, actions: seq<Action>, n: nat, code: Code)
    requires IsRun(c, trace, actions) && n < |trace|
    requires code in trace[n].world.cache && code !in trace[n].world.db.buried
    ensures code in trace[n].world.db.rows && trace[n].world.cache[code].url == trace[n].world.db.rows[code].url
  {
    RunInv(c, trace, actions, n);
  }

  // ---------- provenance and staleness, with deletes ----------

  /** At some step up to `n`, at clock `from` or later, `url` was the committed URL of `code`. */
  ghost predicate WasUrl(trace: seq<State>, n: nat, code: Code, url: Url, from: real) {
    exists i | 0 <= i <= n && i < |trace| ::
      code in trace[i].world.db.rows && trace[i].world.db.rows[code].url == url && trace[i].world.clock >= from
  }

  ghost predicate OpHistory(trace: seq<State>, n: nat, op: Op)
    requires n < |trace|
  {
    match op
    case Create(Priming(code, _, url, since)) => WasUrl(trace, n, code, url, since) && since <= trace[n].world.clock
    case Create(Created(code, _, url)) => WasUrl(trace, n, code, url, 0.0)
    case Create(Abandoned(code, _, url)) => WasUrl(trace, n, code, url, 0.0)
    case Resolve(Filling(code, url, since, _)) => WasUrl(trace, n, code, url, since) && since <= trace[n].world.clock
    case Resolve(Served(code, url, _, _, _)) => WasUrl(trace, n, code, url, 0.0)
    case _ => true
  }

  /** An entry was written at most `d` after its URL was current, and lives for the TTL from its writing. */
  ghost predicate EntryHistory(c: Config, trace: seq<State>, n: nat, d: real, code: Code, e: Cached) {
    && WasUrl(trace, n, code, e.url, e.setAt - d)
    && (c.ttl > 0 ==> e.expireAt == Some(e.setAt + c.ttl as real))
  }

  ghost predicate History(c: Config, trace: seq<State>, n: nat, d: real)
    requires n < |trace|
  {
    && (forall o | o in trace[n].ops :: OpHistory(trace, n, trace[n].ops[o]))
    && (forall code | code in trace[n].world.cache :: EntryHistory(c, trace, n, d, code, trace[n].world.cache[code]))
  }

  /** When the URL an operation is about to cache was committed or read. */
  function Since(op: Op): Option<Time> {
    match op
    case Create(Priming(_, _, _, since)) => Some(since)
    case Resolve(Filling(_, _, since, _)) => Some(since)
    case _ => None
  }

  /** Up to step `n`, every SET the server applies comes at most `d` after the commit or read of its URL. */
  ghost predicate TimelySets(trace: seq<State>, actions: seq<Action>, n: nat, d: real) {
    forall i | 0 <= i < n && i < |actions| && i < |trace| ::
      var a := actions[i];
      a.Move? && a.env.ok && a.o in trace[i].ops && Since(trace[i].ops[a.o]).Some? ==>
        trace[i].world.clock - Since(trace[i].ops[a.o]).value <= d
  }

  lemma WasUrlLasts(trace: seq<State>, n: nat, code: Code, url: Url, from: real)
    requires WasUrl(trace, n, code, url, from)
    ensures WasUrl(trace, n + 1, code, url, from)
    ensures WasUrl(trace, n, code, url, 0.0)
  {
  }

  lemma OpHistoryLasts(c: Config, trace: seq<State>, actions: seq<Action>, n: nat, op: Op)
    requires IsRun(c, trace, actions) && n < |actions| && OpHistory(trace, n, op)
    ensures OpHistory(trace, n + 1, op)
  {
    ClockAdvances(c, trace, actions, n, n + 1);
  }

  lemma {:induction false} ClockAdvances(c: Config, trace: seq<State>, actions: seq<Action>, i: nat, n: nat)
    requires IsRun(c, trace, actions) && i <= n < |trace|
    ensures trace[i].world.clock <= trace[n].world.clock
    decreases n
  {
    if i < n {
      ClockAdvances(c, trace, actions, i, n - 1);
      assert trace[n] == Exec(c, trace[n - 1], actions[n - 1]);
    }
  }

  lemma CreateHistory(c: Config, trace: seq<State>, actions: seq<Action>, n: nat, op: Creating)
    requires IsRun(c, trace, actions) && n < |actions| && actions[n].Move? && actions[n].o in trace[n].ops
    requires trace[n].ops[actions[n].o] == Create(op) && OpHistory(trace, n, Create(op))
    ensures OpHistory(trace, n + 1, trace[n + 1].ops[actions[n].o])
  {
    assert trace[n + 1] == Exec(c, trace[n], actions[n]);
    OpHistoryLasts(c, trace, actions, n, Create(op));
    if op.Claim? {
      var op' := trace[n + 1].ops[actions[n].o];
      if op'.create.Priming? {
        assert op'.create.code in trace[n + 1].world.db.rows;
      }
    }
  }

  lemma ResolveHistory(c: Config, trace: seq<State>, actions: seq<Action>, n: nat, d: real, op: Resolving)
    requires IsRun(c, trace, actions) && n < |actions| && actions[n].Move? && actions[n].o in trace[n].ops
    requires trace[n].ops[actions[n].o] == Resolve(op) && OpHistory(trace, n, Resolve(op))
    requires op.code in trace[n].world.cache ==> EntryHistory(c, trace, n, d, op.code, trace[n].world.cache[op.code])
    ensures OpHistory(trace, n + 1, trace[n + 1].ops[actions[n].o])
  {
    assert trace[n + 1] == Exec(c, trace[n], actions[n]);
    OpHistoryLasts(c, trace, actions, n, Resolve(op));
  }

  /** The URL an operation is about to cache, and for which code. */
  predicate AboutToCache(op: Op, code: Code, url: Url) {
    match op
    case Create(Priming(k, _, u, _)) => k == code && u == url
    case Resolve(Filling(k, u, _, _)) => k == code && u == url
    case _ => false
  }

  /** An entry was there before, or an operation about to cache has just written it. A hit rewrites nothing. */
  lemma NewEntries(c: Config, s: State, a: Action, code: Code)
    requires code in Exec(c, s, a).world.cache
    ensures
      var e := Exec(c, s, a).world.cache[code];
      || (code in s.world.cache && e == s.world.cache[code])
      || (a.Move? && a.env.ok && a.o in s.ops && AboutToCache(s.ops[a.o], code, e.url)
          && e.setAt == s.world.clock && (c.ttl > 0 ==> e.expireAt == Some(s.world.clock + c.ttl as real)))
  {
  }

  lemma OldEntryHistory(c: Config, trace: seq<State>, actions: seq<Action>, n: nat, d: real, code: Code)
    requires IsRun(c, trace, actions) && n < |actions| && History(c, trace, n, d)
    requires code in trace[n].world.cache && code in trace[n + 1].world.cache
    requires trace[n + 1].world.cache[code] == trace[n].world.cache[code]
    ensures EntryHistory(c, trace, n + 1, d, code, trace[n + 1].world.cache[code])
  {
    var e := trace[n].world.cache[code];
    assert EntryHistory(c, trace, n, d, code, e);
    WasUrlLasts(trace, n, code, e.url, e.setAt - d);
  }

  lemma NewEntryHistory(c: Config, trace: seq<State>, actions: seq<Action>, n: nat, d: real, code: Code)
    requires IsRun(c, trace, actions) && n < |actions| && History(c, trace, n, d) && TimelySets(trace, actions, n + 1, d)
    requires code in trace[n + 1].world.cache && actions[n].Move? && actions[n].env.ok && actions[n].o in trace[n].ops
    requires AboutToCache(trace[n].ops[actions[n].o], code, trace[n + 1].world.cache[code].url)
    requires trace[n + 1].world.cache[code].setAt == trace[n].world.clock
    ensures
      var e := trace[n + 1].world.cache[code];
      WasUrl(trace, n + 1, code, e.url, e.setAt - d)
  {
    var op, e := trace[n].ops[actions[n].o], trace[n + 1].world.cache[code];
    assert OpHistory(trace, n, op);
    var since := Since(op).value;
    assert trace[n].world.clock - since <= d;
    WasUrlEarlier(trace, n, code, e.url, since, e.setAt - d);
    WasUrlLasts(trace, n, code, e.url, e.setAt - d);
  }

  lemma EntryHistoryStep(c: Config, trace: seq<State>, actions: seq<Action>, n: nat, d: real, code: Code)
    requires IsRun(c, trace, actions) && n < |actions| && History(c, trace, n, d) && TimelySets(trace, actions, n + 1, d)
    requires code in trace[n + 1].world.cache
    ensures EntryHistory(c, trace, n + 1, d, code, trace[n + 1].world.cache[code])
  {
    NewEntries(c, trace[n], actions[n], code);
    if code in trace[n].world.cache && trace[n + 1].world.cache[code] == trace[n].world.cache[code] {
      OldEntryHistory(c, trace, actions, n, d, code);
    } else {
      NewEntryHistory(c, trace, actions, n, d, code);
    }
  }

  lemma WasUrlEarlier(trace: seq<State>, n: nat, code: Code, url: Url, from: real, x: real)
    requires WasUrl(trace, n, code, url, from) && x <= from
    ensures WasUrl(trace, n, code, url, x)
  {
  }

  lemma OpsHistoryStep(c: Config, trace: seq<State>, actions: seq<Action>, n: nat, d: real, o: OpId)
    requires IsRun(c, trace, actions) && n < |actions| && History(c, trace, n, d) && o in trace[n + 1].ops
    ensures OpHistory(trace, n + 1, trace[n + 1].ops[o])
  {
    var s, s', a := trace[n], trace[n + 1], actions[n];
    assert s' == Exec(c, s, a);
    if o in s.ops {
      assert OpHistory(trace, n, s.ops[o]);
      OpHistoryLasts(c, trace, actions, n, s.ops[o]);
      if a.Move? && a.o == o {
        match s.ops[o]
        case Create(create) => CreateHistory(c, trace, actions, n, create);
        case Resolve(resolve) => ResolveHistory(c, trace, actions, n, d, resolve);
        case _ =>
      }
    }
  }

  lemma {:induction false} RunHistory(c: Config, trace: seq<State>, actions: seq<Action>, n: nat, d: real)
    requires IsRun(c, trace, actions) && n < |trace| && TimelySets(trace, actions, n, d)
    ensures History(c, trace, n, d)
  {
    if n > 0 {
      RunHistory(c, trace, actions, n - 1, d);
      forall o | o in trace[n].ops ensures OpHistory(trace, n, trace[n].ops[o]) {
        OpsHistoryStep(c, trace, actions, n - 1, d, o);
      }
      forall code | code in trace[n].world.cache
        ensures EntryHistory(c, trace, n, d, code, trace[n].world.cache[code])
      {
        EntryHistoryStep(c, trace, actions, n - 1, d, code);
      }
    }
  }

  /** Bounded staleness: with deletes, re-creation, failing sets and failing evictions, a URL served by a cache hit at
      time t was the committed URL of its code at some moment in (t - TTL - d, t], where d bounds the delay from a
      commit or read to the SET that follows it. */
  lemma BoundedStaleness(c: Config, trace: seq<State>, actions: seq<Action>, n: nat, d: real)
    requires IsRun(c, trace, actions) && n < |actions| && TimelySets(trace, actions, n, d) && c.ttl > 0
    requires actions[n].Move? && actions[n].o in trace[n].ops && trace[n].ops[actions[n].o].Resolve?
    requires trace[n].ops[actions[n].o].resolve.Lookup?
    ensures
      var code, t := trace[n].ops[actions[n].o].resolve.code, trace[n].world.clock;
      var op := trace[n + 1].ops[actions[n].o];
      op.Resolve? && op.resolve.Served? ==>
        exists i | 0 <= i <= n ::
          && code in trace[i].world.db.rows && trace[i].world.db.rows[code].url == op.resolve.url
          && t - c.ttl as real - d < trace[i].world.clock <= t
  {
    RunHistory(c, trace, actions, n, d);
    assert trace[n + 1] == Exec(c, trace[n], actions[n]);
    var code, op := trace[n].ops[actions[n].o].resolve.code, trace[n + 1].ops[actions[n].o];
    if op.resolve.Served? {
      var e := trace[n].world.cache[code];
      assert EntryHistory(c, trace, n, d, code, e);
      var i :| 0 <= i <= n && i < |trace| && code in trace[i].world.db.rows && trace[i].world.db.rows[code].url == e.url
               && trace[i].world.clock >= e.setAt - d;
      ClockAdvances(c, trace, actions, i, n);
    }
  }

  /** A code deleted for good at step m stops resolving from the cache TTL + d later. */
  lemma DeletedCodeStops(c: Config, trace: seq<State>, actions: seq<Action>, m: nat, n: nat, d: real)
    requires IsRun(c, trace, actions) && m <= n < |actions| && TimelySets(trace, actions, n, d) && c.ttl > 0
    requires actions[n].Move? && actions[n].o in trace[n].ops && trace[n].ops[actions[n].o].Resolve?
    requires trace[n].ops[actions[n].o].resolve.Lookup?
    requires forall k | m <= k <= n :: trace[n].ops[actions[n].o].resolve.code !in trace[k].world.db.rows
    requires trace[n].world.clock >= trace[m].world.clock + c.ttl as real + d
    ensures trace[n + 1].ops[actions[n].o].resolve.Query?
  {
    BoundedStaleness(c, trace, actions, n, d);
    assert trace[n + 1] == Exec(c, trace[n], actions[n]);
    var code, op := trace[n].ops[actions[n].o].resolve.code, trace[n + 1].ops[actions[n].o];
    if op.resolve.Served? {
      var i :| 0 <= i <= n && code in trace[i].world.db.rows
               && trace[n].world.clock - c.ttl as real - d < trace[i].world.clock;
      ClockAdvances(c, trace, actions, i, m);
    }
  }

  /** Provenance in every run: what the cache holds for a code, what is in flight for it and what was served or answered
      for it was committed as its URL at an earlier step. URLs never cross codes. */
  lemma Provenance(c: Config, trace: seq<State>, actions: seq<Action>, n: nat)
    requires IsRun(c, trace, actions) && n < |trace|
    ensures forall code | code in trace[n].world.cache :: WasUrl(trace, n, code, trace[n].world.cache[code].url, 0.0)
    ensures forall o | o in trace[n].ops :: OpHistory(trace, n, trace[n].ops[o])
  {
    var d := trace[n].world.clock;
    forall i | 0 <= i < n ensures trace[i].world.clock <= d {
      ClockAdvances(c, trace, actions, i, n);
    }
    RunHistory(c, trace, actions, n, d);
    forall code | code in trace[n].world.cache
      ensures WasUrl(trace, n, code, trace[n].world.cache[code].url, 0.0)
    {
      assert EntryHistory(c, trace, n, d, code, trace[n].world.cache[code]);
    }
  }

  // ---------- who owns a code ----------

  /** Step `i` is the insert by which operation `o` got its row for `code`. */
  ghost predicate InsertedAt(trace: seq<State>, actions: seq<Action>, i: nat, o: OpId, code: Code) {
    && i < |actions| && i + 1 < |trace| && actions[i].Move? && actions[i].o == o
    && code !in trace[i].world.db.rows
    && code in trace[i + 1].world.db.rows && trace[i + 1].world.db.rows[code].owner == o
    && o in trace[i + 1].ops && Holds(trace[i + 1].ops[o], code, trace[i + 1].world.db.rows[code].id)
  }

  lemma NewHolders(c: Config, s: State, a: Action, o: OpId, code: Code, id: Id)
    requires o in Exec(c, s, a).ops && Holds(Exec(c, s, a).ops[o], code, id)
    ensures
      var s' := Exec(c, s, a);
      || (o in s.ops && Holds(s.ops[o], code, id))
      || (a.Move? && a.o == o && code !in s.world.db.rows && HasId(s'.world.db, code, id)
          && s'.world.db.rows[code].owner == o)
  {
  }

  /** Each success (and each insert whose response was lost) names a row that this very request inserted. */
  lemma {:induction false} SuccessNamesOwnRow(c: Config, trace: seq<State>, actions: seq<Action>, n: nat, o: OpId,
                                              code: Code, id: Id)
    requires IsRun(c, trace, actions) && n < |trace| && o in trace[n].ops && Holds(trace[n].ops[o], code, id)
    ensures exists i | 0 <= i < n ::
              InsertedAt(trace, actions, i, o, code) && trace[i + 1].world.db.rows[code].id == id
  {
    if n > 0 {
      assert trace[n] == Exec(c, trace[n - 1], actions[n - 1]);
      NewHolders(c, trace[n - 1], actions[n - 1], o, code, id);
      if o in trace[n - 1].ops && Holds(trace[n - 1].ops[o], code, id) {
        SuccessNamesOwnRow(c, trace, actions, n - 1, o, code, id);
      } else {
        assert InsertedAt(trace, actions, n - 1, o, code);
      }
    }
  }

  /** Step `k` deletes the row (code, id). */
  ghost predicate DeletedAt(trace: seq<State>, actions: seq<Action>, k: nat, code: Code, id: Id) {
    && k < |actions| && k + 1 < |trace| && actions[k].Move? && actions[k].o in trace[k].ops
    && trace[k].ops[actions[k].o] == Delete(Doomed(code, id))
    && HasId(trace[k].world.db, code, id) && code !in trace[k + 1].world.db.rows
  }

  lemma RowLeaves(c: Config, s: State, a: Action, code: Code, id: Id)
    requires HasId(s.world.db, code, id) && !HasId(Exec(c, s, a).world.db, code, id)
    ensures a.Move? && a.o in s.ops && s.ops[a.o] == Delete(Doomed(code, id)) && code !in Exec(c, s, a).world.db.rows
  {
    if a.Move? && a.o in s.ops {
      AdvanceStatements(c, s.world, a.o, s.ops[a.o], a.env);
    }
  }

  lemma {:induction false} LossIsDelete(c: Config, trace: seq<State>, actions: seq<Action>, i: nat, j: nat, code: Code,
                                        id: Id)
    requires IsRun(c, trace, actions) && i <= j < |trace|
    requires HasId(trace[i].world.db, code, id) && !HasId(trace[j].world.db, code, id)
    ensures exists k | i <= k < j :: DeletedAt(trace, actions, k, code, id)
    decreases j - i
  {
    assert trace[i + 1] == Exec(c, trace[i], actions[i]);
    if HasId(trace[i + 1].world.db, code, id) {
      LossIsDelete(c, trace, actions, i + 1, j, code, id);
    } else {
      RowLeaves(c, trace[i], actions[i], code, id);
      assert DeletedAt(trace, actions, i, code, id);
    }
  }

  /** Two requests that succeed with one code do so around a delete of the earlier one's row. */
  lemma SharedCodeNeedsDelete(c: Config, trace: seq<State>, actions: seq<Action>, i: nat, j: nat, o1: OpId, o2: OpId,
                              code: Code, id: Id)
    requires IsRun(c, trace, actions) && i < j
    requires InsertedAt(trace, actions, i, o1, code) && InsertedAt(trace, actions, j, o2, code)
    requires HasId(trace[i + 1].world.db, code, id)
    ensures exists k | i < k < j :: DeletedAt(trace, actions, k, code, id)
  {
    LossIsDelete(c, trace, actions, i + 1, j, code, id);
  }

  /** A delete of the row (code, id), which `o1` inserted, lies between the insert by `o1` and the insert by `o2`. */
  ghost predicate DeleteBetween(trace: seq<State>, actions: seq<Action>, o1: OpId, o2: OpId, code: Code, id: Id) {
    exists i: nat, k: nat, j: nat :: i < k < j &&
      InsertedAt(trace, actions, i, o1, code) && trace[i + 1].world.db.rows[code].id == id &&
      DeletedAt(trace, actions, k, code, id) && InsertedAt(trace, actions, j, o2, code)
  }

  lemma LaterInsertNeedsDelete(c: Config, trace: seq<State>, actions: seq<Action>, i: nat, j: nat, o1: OpId, o2: OpId,
                               code: Code, id: Id)
    requires IsRun(c, trace, actions) && i < j
    requires InsertedAt(trace, actions, i, o1, code) && InsertedAt(trace, actions, j, o2, code)
    requires trace[i + 1].world.db.rows[code].id == id
    ensures DeleteBetween(trace, actions, o1, o2, code, id)
  {
    SharedCodeNeedsDelete(c, trace, actions, i, j, o1, o2, code, id);
    var k :| i < k < j && DeletedAt(trace, actions, k, code, id);
  }

  /** Two different requests that both hold a code (they answered with it, or will) do so around a delete of the row of
      the earlier one. */
  lemma SharedCodesNeedDelete(c: Config, trace: seq<State>, actions: seq<Action>, n: nat, o1: OpId, o2: OpId, code: Code,
                              id1: Id, id2: Id)
    requires IsRun(c, trace, actions) && n < |trace| && o1 != o2
    requires o1 in trace[n].ops && Holds(trace[n].ops[o1], code, id1)
    requires o2 in trace[n].ops && Holds(trace[n].ops[o2], code, id2)
    ensures DeleteBetween(trace, actions, o1, o2, code, id1) || DeleteBetween(trace, actions, o2, o1, code, id2)
  {
    SuccessNamesOwnRow(c, trace, actions, n, o1, code, id1);
    SuccessNamesOwnRow(c, trace, actions, n, o2, code, id2);
    var i :| 0 <= i < n && InsertedAt(trace, actions, i, o1, code) && trace[i + 1].world.db.rows[code].id == id1;
    var j :| 0 <= j < n && InsertedAt(trace, actions, j, o2, code) && trace[j + 1].world.db.rows[code].id == id2;
    if i < j {
      LaterInsertNeedsDelete(c, trace, actions, i, j, o1, o2, code, id1);
    } else {
      LaterInsertNeedsDelete(c, trace, actions, j, i, o2, o1, code, id2);
    }
  }

  predicate HoldsCode(op: Op, code: Code) {
    match op
    case Create(Priming(k, _, _, _)) => k == code
    case Create(Created(k, _, _)) => k == code
    case Create(Abandoned(k, _, _)) => k == code
    case _ => false
  }

  function HoldersOf(s: State, code: Code): set<OpId> {
    set o | o in s.ops && HoldsCode(s.ops[o], code)
  }

  /** `w` holds the code, and every other claim was told that it is taken. */
  ghost predicate Wins(s: State, code: Code, claims: set<OpId>, w: OpId) {
    && w in claims && w in s.ops && HoldsCode(s.ops[w], code)
    && code in s.world.db.rows && s.world.db.rows[code].owner == w
    && forall o | o in claims && o != w :: o in s.ops && s.ops[o] == Create(Conflict(code))
  }

  /** Of any number of racing claims on an alias that nobody else has taken, exactly one wins and every other one is a
      conflict, as long as the code is not deleted. */
  lemma RacingClaimsOneWinner(c: Config, trace: seq<State>, actions: seq<Action>, n: nat, code: Code, claims: set<OpId>)
    requires IsRun(c, trace, actions) && n < |trace| && code !in trace[n].world.db.buried && claims != {}
    requires forall o | o in claims ::
               o in trace[n].ops && (trace[n].ops[o] == Create(Conflict(code)) || HoldsCode(trace[n].ops[o], code))
    requires HoldersOf(trace[n], code) <= claims
    ensures exists w: OpId :: Wins(trace[n], code, claims, w) && HoldersOf(trace[n], code) == {w}
  {
    RunInv(c, trace, actions, n);
    var s := trace[n];
    forall o | o in s.ops && HoldsCode(s.ops[o], code)
      ensures code in s.world.db.rows && s.world.db.rows[code].owner == o
    {
      assert OpOk(s.world.db, o, s.ops[o]);
    }
    var some :| some in claims;
    assert OpOk(s.world.db, some, s.ops[some]);
    var winner := s.world.db.rows[code].owner;
    assert HoldsCode(s.ops[winner], code);
    assert winner in HoldersOf(s, code);
    assert Wins(s, code, claims, winner) && HoldersOf(s, code) == {winner};
  }
}
