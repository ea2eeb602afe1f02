/** What a click event holds: over every run exactly what its redirect has logged, from that step on and for as long as its
    row lives. */
module UrlStoreEvents {
  import opened Redis
  import opened Api
  import opened UrlStore
  import opened UrlStoreInvariants
  import opened UrlStoreClicks

  /** The step in which redirect `o` inserts an event for the row `id`, which it has read before and which is still there. */
  predicate Logging(s: State, a: Action, o: OpId, code: Code, id: Id) {
    && a.Move? && a.o == o && a.env.logTask && a.env.ok
    && o in s.ops && IsServed(s.ops[o], code) && s.ops[o].resolve.log == LogFound(id)
    && HasId(s.world.db, code, id)
  }

  /** The event of redirect `o` is that of a visit at `clock`. */
  predicate IsEvent(db: Db, o: OpId, id: Id, clock: Time, visit: Visit) {
    o in db.events && db.events[o].url_id == id && db.events[o].clicked_at == clock && db.events[o].visit == visit
  }

  /** It stores the visit under the id it has read, at the time of the step, and changes nothing else. */
  lemma LoggingStores(c: Config, s: State, a: Action, o: OpId, code: Code, id: Id)
    requires Logging(s, a, o, code, id)
    ensures
      var db, db' := s.world.db, Exec(c, s, a).world.db;
      && IsEvent(db', o, id, s.world.clock, a.env.visit)
      && db' == db.(events := db'.events) && db'.events.Keys == db.events.Keys + {o}
      && forall e | e in db.events && e != o :: db'.events[e] == db.events[e]
  {
  }

  /** No other step writes an event, and none is removed but with its row. */
  lemma OtherStepsKeep(c: Config, s: State, a: Action, e: OpId)
    requires e in Exec(c, s, a).world.db.events
    requires forall code, id :: !Logging(s, a, e, code, id)
    ensures e in s.world.db.events && Exec(c, s, a).world.db.events[e] == s.world.db.events[e]
  {
    if a.Move? && a.o in s.ops {
      AdvanceStatements(c, s.world, a.o, s.ops[a.o], a.env);
      if a.o == e && s.ops[e].Resolve? && s.ops[e].resolve.Served? && s.ops[e].resolve.log.LogFound? {
        assert !Logging(s, a, e, s.ops[e].resolve.code, s.ops[e].resolve.log.id);
      }
    }
  }

  /** A redirect logs once. */
  lemma LoggedOnce(s: State, a: Action, o: OpId, code: Code, id: Id)
    requires EventsInv(s) && o in s.world.db.events
    ensures !Logging(s, a, o, code, id)
  {
    assert HasLogged(s.ops[o], s.ops[o].resolve.code, s.world.db.events[o].url_id);
  }

  /** Every event in the table was inserted by some step of the run, and is what that step logged. */
  lemma {:induction false} EventsAreLogged(c: Config, trace: seq<State>, actions: seq<Action>, n: nat, e: OpId)
    returns (k: nat)
    requires IsRun(c, trace, actions) && n < |trace| && e in trace[n].world.db.events
    ensures k < n
    ensures
      var id := trace[n].world.db.events[e].url_id;
      && (exists code :: Logging(trace[k], actions[k], e, code, id))
      && IsEvent(trace[n].world.db, e, id, trace[k].world.clock, actions[k].env.visit)
  {
    var s, a := trace[n - 1], actions[n - 1];
    if code, id :| Logging(s, a, e, code, id) {
      k := n - 1;
      LoggingStores(c, s, a, e, code, id);
    } else {
      OtherStepsKeep(c, s, a, e);
      k := EventsAreLogged(c, trace, actions, n - 1, e);
    }
  }

  /** A row stays until its id is buried, for good. */
  lemma {:induction false} RowStays(c: Config, trace: seq<State>, actions: seq<Action>, k: nat, n: nat, code: Code, id: Id)
    requires IsRun(c, trace, actions) && k <= n < |trace|
    ensures HasId(trace[k].world.db, code, id) ==> HasId(trace[n].world.db, code, id) || id in trace[n].world.db.graves
    ensures id in trace[k].world.db.graves ==> id in trace[n].world.db.graves
  {
    if k < n {
      RowStays(c, trace, actions, k, n - 1, code, id);
      RunInv(c, trace, actions, n - 1);
      StepStore(c, trace[n - 1], actions[n - 1]);
    }
  }

  /** So a row that is there early and late is there in between. */
  lemma RowBetween(c: Config, trace: seq<State>, actions: seq<Action>, k: nat, m: nat, n: nat, code: Code, id: Id)
    requires IsRun(c, trace, actions) && k <= m <= n < |trace|
    requires HasId(trace[k].world.db, code, id) && HasId(trace[n].world.db, code, id)
    ensures HasId(trace[m].world.db, code, id) && id !in trace[n].world.db.graves
  {
    RowStays(c, trace, actions, k, m, code, id);
    RowStays(c, trace, actions, m, n, code, id);
    RunInv(c, trace, actions, n);
  }

  lemma KeptEvent(c: Config, s: State, a: Action, e: OpId, id: Id, clock: Time, visit: Visit)
    requires EventsInv(s) && IsEvent(s.world.db, e, id, clock, visit) && id !in Exec(c, s, a).world.db.graves
    ensures IsEvent(Exec(c, s, a).world.db, e, id, clock, visit)
  {
    NewEvents(c, s, a, e);
    forall code, id ensures !Logging(s, a, e, code, id) {
      LoggedOnce(s, a, e, code, id);
    }
    OtherStepsKeep(c, s, a, e);
  }

  /** Whatever a redirect has logged stays in the table, unchanged, for as long as its row is there. */
  lemma {:induction false} LoggedEventLasts(c: Config, trace: seq<State>, actions: seq<Action>, k: nat, n: nat, o: OpId,
                                            code: Code, id: Id)
    requires IsRun(c, trace, actions) && k < n < |trace| && Logging(trace[k], actions[k], o, code, id)
    requires HasId(trace[n].world.db, code, id)
    ensures IsEvent(trace[n].world.db, o, id, trace[k].world.clock, actions[k].env.visit)
    decreases n
  {
    if k + 1 == n {
      LoggingStores(c, trace[k], actions[k], o, code, id);
    } else {
      RowBetween(c, trace, actions, k, n - 1, n, code, id);
      LoggedEventLasts(c, trace, actions, k, n - 1, o, code, id);
      RunInv(c, trace, actions, n - 1);
      KeptEvent(c, trace[n - 1], actions[n - 1], o, id, trace[k].world.clock, actions[k].env.visit);
    }
  }
}
