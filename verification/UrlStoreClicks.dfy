/** Click accounting across background tasks: no redirect is counted twice, none is lost while its row lives, and the
    two records of a redirect (click_count and click_events) agree once nothing is pending or failed. */
module UrlStoreClicks {
  import opened Api
  import opened UrlStore
  import opened UrlStoreInvariants

  predicate HasCounted(op: Op, id: Id) {
    op.Resolve? && op.resolve.Served? && op.resolve.click == Counted(id)
  }

  /** The redirects that incremented the row `id`. */
  function Counters(s: State, id: Id): set<OpId> {
    set o | o in s.ops && HasCounted(s.ops[o], id)
  }

  ghost predicate ClicksInv(s: State) {
    forall code | code in s.world.db.rows ::
      s.world.db.rows[code].clicks == |Counters(s, s.world.db.rows[code].id)|
  }

  /** The step is a successful record_click that hits the row `id`. */
  predicate Counting(s: State, a: Action, id: Id) {
    && a.Move? && a.o in s.ops && s.ops[a.o].Resolve? && s.ops[a.o].resolve.Served?
    && s.ops[a.o].resolve.click.ClickPending? && !a.env.logTask && a.env.ok
    && HasId(s.world.db, s.ops[a.o].resolve.code, id)
  }

  lemma CountedBefore(c: Config, s: State, a: Action, o: OpId, id: Id)
    ensures
      var s' := Exec(c, s, a);
      && (o in s.ops && HasCounted(s.ops[o], id) ==> o in s'.ops && HasCounted(s'.ops[o], id))
      && (o in s'.ops && HasCounted(s'.ops[o], id) ==>
            (o in s.ops && HasCounted(s.ops[o], id)) || (Counting(s, a, id) && o == a.o))
      && (Counting(s, a, id) ==> a.o in s'.ops && HasCounted(s'.ops[a.o], id) && !HasCounted(s.ops[a.o], id))
  {
  }

  lemma StepCounters(c: Config, s: State, a: Action, id: Id)
    ensures |Counters(Exec(c, s, a), id)| == |Counters(s, id)| + if Counting(s, a, id) then 1 else 0
  {
    var s' := Exec(c, s, a);
    forall o ensures o in Counters(s', id) <==> o in Counters(s, id) || (Counting(s, a, id) && o == a.o) {
      CountedBefore(c, s, a, o, id);
    }
    if Counting(s, a, id) {
      CountedBefore(c, s, a, a.o, id);
      assert Counters(s', id) == Counters(s, id) + {a.o};
    } else {
      assert Counters(s', id) == Counters(s, id);
    }
  }

  lemma StepClickCount(c: Config, s: State, a: Action, code: Code)
    requires RowsInv(s.world.db) && code in Exec(c, s, a).world.db.rows
    ensures
      var r := Exec(c, s, a).world.db.rows[code];
      if code in s.world.db.rows && s.world.db.rows[code].id == r.id then
        r.clicks == s.world.db.rows[code].clicks + if Counting(s, a, r.id) then 1 else 0
      else
        r.clicks == 0 && r.id == s.world.db.nextId
  {
    if a.Move? && a.o in s.ops {
      AdvanceStatements(c, s.world, a.o, s.ops[a.o], a.env);
    }
  }

  /** No redirect has counted an id that is not given out yet. */
  lemma NoEarlyCounters(s: State, id: Id)
    requires StoreInv(s) && id >= s.world.db.nextId
    ensures Counters(s, id) == {}
  {
    forall o | o in s.ops ensures !HasCounted(s.ops[o], id) {
      assert OpOk(s.world.db, o, s.ops[o]);
    }
  }

  lemma StepClicks(c: Config, s: State, a: Action)
    requires StoreInv(s) && ClicksInv(s)
    ensures ClicksInv(Exec(c, s, a))
  {
    var s' := Exec(c, s, a);
    forall code | code in s'.world.db.rows
      ensures s'.world.db.rows[code].clicks == |Counters(s', s'.world.db.rows[code].id)|
    {
      var id := s'.world.db.rows[code].id;
      StepClickCount(c, s, a, code);
      StepCounters(c, s, a, id);
      if id >= s.world.db.nextId {
        NoEarlyCounters(s, id);
      }
    }
  }

  // ---------- all invariants, over every run ----------

  ghost predicate Inv(s: State) {
    StoreInv(s) && OwnersInv(s) && EventsInv(s) && LogsInv(s) && ClicksInv(s)
  }

  lemma StepInv(c: Config, s: State, a: Action)
    requires Inv(s)
    ensures Inv(Exec(c, s, a))
  {
    StepStore(c, s, a);
    StepOwners(c, s, a);
    StepEvents(c, s, a);
    StepLogs(c, s, a);
    StepClicks(c, s, a);
  }

  lemma {:induction false} RunInv(c: Config, trace: seq<State>, actions: seq<Action>, n: nat)
    requires IsRun(c, trace, actions) && n < |trace|
    ensures Inv(trace[n])
  {
    if n > 0 {
      RunInv(c, trace, actions, n - 1);
      StepInv(c, trace[n - 1], actions[n - 1]);
    }
  }

  // ---------- conservation ----------

  predicate IsServed(op: Op, code: Code) {
    op.Resolve? && op.resolve.Served? && op.resolve.code == code
  }

  function ServedOf(s: State, code: Code): set<OpId> {
    set o | o in s.ops && IsServed(s.ops[o], code)
  }

  function ClicksPending(s: State, code: Code): set<OpId> {
    set o | o in s.ops && IsServed(s.ops[o], code) && s.ops[o].resolve.click.ClickPending?
  }

  function ClicksFailed(s: State, code: Code): set<OpId> {
    set o | o in s.ops && IsServed(s.ops[o], code) && s.ops[o].resolve.click.ClickFailed?
  }

  function LogsPending(s: State, code: Code): set<OpId> {
    set o | o in s.ops && IsServed(s.ops[o], code)
            && (s.ops[o].resolve.log.LogPending? || s.ops[o].resolve.log.LogFound?)
  }

  function LogsFailed(s: State, code: Code): set<OpId> {
    set o | o in s.ops && IsServed(s.ops[o], code) && s.ops[o].resolve.log.LogFailed?
  }

  function EventsOf(s: State, id: Id): set<OpId> {
    set e | e in s.world.db.events && s.world.db.events[e].url_id == id
  }

  /** Redirects of a code that never lost a row: counted by its row, pending, or failed. */
  lemma ServedSplitsByClick(s: State, code: Code)
    requires Inv(s) && code !in s.world.db.buried
    ensures code in s.world.db.rows ==>
              ServedOf(s, code) == Counters(s, s.world.db.rows[code].id) + ClicksPending(s, code) + ClicksFailed(s, code)
    ensures code !in s.world.db.rows ==> ServedOf(s, code) == {}
  {
    forall o | o in s.ops && s.ops[o].Resolve? && s.ops[o].resolve.Served?
      ensures IsServed(s.ops[o], code) ==> code in s.world.db.rows
      ensures code in s.world.db.rows && s.ops[o].resolve.click.Counted? ==>
                (IsServed(s.ops[o], code) <==> HasCounted(s.ops[o], s.world.db.rows[code].id))
      ensures IsServed(s.ops[o], code) ==> !s.ops[o].resolve.click.ClickMissed?
    {
      assert OpOk(s.world.db, o, s.ops[o]);
    }
  }

  lemma ServedCountedByClick(s: State, code: Code)
    requires Inv(s) && code !in s.world.db.buried && code in s.world.db.rows
    ensures |ServedOf(s, code)| == s.world.db.rows[code].clicks + |ClicksPending(s, code)| + |ClicksFailed(s, code)|
  {
    ServedSplitsByClick(s, code);
    DisjointCards(Counters(s, s.world.db.rows[code].id), ClicksPending(s, code), ClicksFailed(s, code));
  }

  lemma ServedSplitsByLog(s: State, code: Code)
    requires Inv(s) && code !in s.world.db.buried && code in s.world.db.rows
    ensures ServedOf(s, code) == EventsOf(s, s.world.db.rows[code].id) + LogsPending(s, code) + LogsFailed(s, code)
  {
    var id := s.world.db.rows[code].id;
    forall o | o in s.ops && s.ops[o].Resolve? && s.ops[o].resolve.Served?
      ensures s.ops[o].resolve.log.Logged? ==> (IsServed(s.ops[o], code) <==> o in EventsOf(s, id))
      ensures IsServed(s.ops[o], code) ==> !s.ops[o].resolve.log.LogMissed?
    {
      assert OpOk(s.world.db, o, s.ops[o]);
    }
  }

  lemma LogSetsDisjoint(s: State, code: Code, id: Id)
    requires EventsInv(s)
    ensures EventsOf(s, id) !! LogsPending(s, code)
    ensures EventsOf(s, id) !! LogsFailed(s, code)
    ensures LogsPending(s, code) !! LogsFailed(s, code)
  {
    forall o | o in EventsOf(s, id) ensures o in s.ops && HasLogged(s.ops[o], s.ops[o].resolve.code, id) {}
  }

  lemma ServedCountedByLog(s: State, code: Code)
    requires Inv(s) && code !in s.world.db.buried && code in s.world.db.rows
    ensures |ServedOf(s, code)| ==
            |EventsOf(s, s.world.db.rows[code].id)| + |LogsPending(s, code)| + |LogsFailed(s, code)|
  {
    ServedSplitsByLog(s, code);
    LogSetsDisjoint(s, code, s.world.db.rows[code].id);
    DisjointCards(EventsOf(s, s.world.db.rows[code].id), LogsPending(s, code), LogsFailed(s, code));
  }

  lemma DisjointCards<T>(a: set<T>, b: set<T>, d: set<T>)
    requires a !! b && a !! d && b !! d
    ensures |a + b + d| == |a| + |b| + |d|
  {
  }

  /** Conservation, in every interleaving: while a code has not lost a row, the redirects served for it are its
      click_count plus pending plus failed record_click tasks, and likewise its events plus pending plus failed
      log_click tasks. */
  lemma ClicksConserved(c: Config, trace: seq<State>, actions: seq<Action>, n: nat, code: Code)
    requires IsRun(c, trace, actions) && n < |trace|
    requires code in trace[n].world.db.rows && code !in trace[n].world.db.buried
    ensures
      var s, row := trace[n], trace[n].world.db.rows[code];
      && |ServedOf(s, code)| == row.clicks + |ClicksPending(s, code)| + |ClicksFailed(s, code)|
      && |ServedOf(s, code)| == |EventsOf(s, row.id)| + |LogsPending(s, code)| + |LogsFailed(s, code)|
  {
    RunInv(c, trace, actions, n);
    ServedCountedByClick(trace[n], code);
    ServedCountedByLog(trace[n], code);
  }

  /** Once nothing is pending and nothing failed, click_count is the number of click events. */
  lemma QuietCountsAgree(c: Config, trace: seq<State>, actions: seq<Action>, n: nat, code: Code)
    requires IsRun(c, trace, actions) && n < |trace|
    requires code in trace[n].world.db.rows && code !in trace[n].world.db.buried
    requires ClicksPending(trace[n], code) == ClicksFailed(trace[n], code) == {}
    requires LogsPending(trace[n], code) == LogsFailed(trace[n], code) == {}
    ensures trace[n].world.db.rows[code].clicks == |EventsOf(trace[n], trace[n].world.db.rows[code].id)|
              == |ServedOf(trace[n], code)|
  {
    ClicksConserved(c, trace, actions, n, code);
  }

  /** Referential integrity in every interleaving, deletes included: each click event references an existing row, the
      row of the code its redirect served. */
  lemma EventsReferenceRows(c: Config, trace: seq<State>, actions: seq<Action>, n: nat, e: OpId)
    requires IsRun(c, trace, actions) && n < |trace| && e in trace[n].world.db.events
    ensures
      var s := trace[n];
      && e in s.ops && s.ops[e].Resolve? && s.ops[e].resolve.Served?
      && HasId(s.world.db, s.ops[e].resolve.code, s.world.db.events[e].url_id)
  {
    RunInv(c, trace, actions, n);
  }
}
