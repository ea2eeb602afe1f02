/** The two background jobs of a redirect are steps of the concurrent URL store, and what the store keeps bounds what the
    analytics of a URL can show. */
module ClickRuns {
  import opened Wrappers
  import opened Api
  import opened UrlStore
  import opened UrlStoreClicks
  import opened UrlStoreEvents
  import opened UrlService
  import opened Analytics

  // ---------- record_click ----------

  /** How record_click ends for the redirect that scheduled it. */
  function ClickEnd(db: Db, code: Code, ok: bool): ClickTask {
    if !ok then ClickFailed else if code in db.rows then Counted(db.rows[code].id) else ClickMissed
  }

  /** record_click is one step of its redirect: it leaves the database of the machine, the redirect counts for the row of
      its code exactly if the row exists and the database works, and then the counter of that row, and nothing else, has
      gone up by one. */
  lemma RecordClickIsStep(c: Config, s: State, o: OpId, code: Code, url: Url, known: bool, log: LogTask, ok: bool)
    requires o in s.ops && s.ops[o] == Resolve(Served(code, url, known, ClickPending, log))
    ensures
      var db, end := s.world.db, Exec(c, s, Move(o, Answer(ok)));
      && end.world == s.world.(db := Clicked(db, code, ok))
      && end.ops == s.ops[o := Resolve(Served(code, url, known, ClickEnd(db, code, ok), log))]
    ensures
      var db, db' := s.world.db, Clicked(s.world.db, code, ok);
      && db'.rows.Keys == db.rows.Keys && db' == db.(rows := db'.rows)
      && forall k | k in db.rows ::
           db'.rows[k] == db.rows[k].(clicks := db.rows[k].clicks + if k == code && ok then 1 else 0)
  {
  }

  // ---------- log_click ----------

  /** Steps of others: the redirect `o` does not move. */
  ghost predicate Others(actions: seq<Action>, o: OpId) {
    forall a | a in actions :: a.Tick? || a.Lose? || a.o != o
  }

  lemma {:induction false} OthersKeep(c: Config, s: State, actions: seq<Action>, o: OpId)
    requires Others(actions, o) && o in s.ops
    ensures o in Run(c, s, actions).ops && Run(c, s, actions).ops[o] == s.ops[o]
    decreases |actions|
  {
    if actions != [] {
      assert actions[0] in actions;
      OthersKeep(c, Exec(c, s, actions[0]), actions[1..], o);
    }
  }

  /** How log_click ends for the redirect that scheduled it. */
  function LogEnd(before: Db, between: Db, code: Code, lookupOk: bool, insertOk: bool): LogTask {
    if !lookupOk then LogFailed
    else if code !in before.rows then LogMissed
    else if insertOk && HasId(between, code, before.rows[code].id) then Logged(before.rows[code].id)
    else LogFailed
  }

  /** The steps of log_click, with whatever others do between its two statements; the second is missing if the first has
      found nothing. */
  function LogSteps(s: State, o: OpId, code: Code, visit: Visit, lookupOk: bool, insertOk: bool, between: seq<Action>)
    : seq<Action>
  {
    [Move(o, Env("", lookupOk, true, visit))] + between
    + (if lookupOk && code in s.world.db.rows then [Move(o, Env("", insertOk, true, visit))] else [])
  }

  /** log_click is its two steps of the machine over the one events table, with any steps of other requests in between:
      same database, and the redirect has its event exactly when both statements work and the row it has read is still
      there: an event for that row, with the time of the insert and this visit. */
  lemma LogClickIsRun(c: Config, s: State, o: OpId, code: Code, url: Url, known: bool, click: ClickTask, visit: Visit,
                      lookupOk: bool, insertOk: bool, between: seq<Action>)
    requires o in s.ops && s.ops[o] == Resolve(Served(code, url, known, click, LogPending))
    requires Others(between, o) && (code in s.world.db.rows ==> s.world.db.rows[code].id != 0)
    ensures
      var middle := Run(c, Exec(c, s, Move(o, Env("", lookupOk, true, visit))), between);
      var end := Run(c, s, LogSteps(s, o, code, visit, lookupOk, insertOk, between));
      && end.world.db == Logs(s.world.db, middle.world.db, code, visit, lookupOk, insertOk, middle.world.clock, o)
      && end.ops == middle.ops[o := Resolve(Served(code, url, known, click,
                                                   LogEnd(s.world.db, middle.world.db, code, lookupOk, insertOk)))]
    ensures
      var middle := Run(c, Exec(c, s, Move(o, Env("", lookupOk, true, visit))), between);
      var db, db' := middle.world.db, Run(c, s, LogSteps(s, o, code, visit, lookupOk, insertOk, between)).world.db;
      match LogEnd(s.world.db, db, code, lookupOk, insertOk) {
        case Logged(id) =>
          && IsEvent(db', o, id, middle.world.clock, visit)
          && db' == db.(events := db'.events) && db'.events.Keys == db.events.Keys + {o}
          && forall e | e in db.events && e != o :: db'.events[e] == db.events[e]
        case _ => db' == db
      }
  {
    var first, last := Move(o, Env("", lookupOk, true, visit)), Move(o, Env("", insertOk, true, visit));
    var s1 := Exec(c, s, first);
    var middle := Run(c, s1, between);
    OthersKeep(c, s1, between, o);
    RunOne(c, s, first);
    RunConcat(c, s, [first], between);
    if lookupOk && code in s.world.db.rows {
      RunConcat(c, s, [first] + between, [last]);
      RunOne(c, middle, last);
    } else {
      assert [first] + between + [] == [first] + between;
      assert middle.ops == middle.ops[o := middle.ops[o]];
    }
  }

  // ---------- analytics of a quiet URL ----------

  /** Nothing is pending and nothing failed for the code. */
  ghost predicate Quiet(s: State, code: Code) {
    && ClicksPending(s, code) == ClicksFailed(s, code) == {}
    && LogsPending(s, code) == LogsFailed(s, code) == {}
  }

  /** In a quiet state of a code that was never deleted the analytics add up: the percentages of both breakdowns to 100 but
      for 0.05 per entry (to less if groups are cut off, to nothing without clicks), visitors are at most the clicks, and
      there are none exactly without clicks. */
  lemma QuietAnalytics(c: Config, trace: seq<State>, actions: seq<Action>, n: nat, code: Code, column: Column, rows: Rows,
                       default: string, list: seq<MetricBreakdown>)
    requires IsRun(c, trace, actions) && n < |trace| && Quiet(trace[n], code)
    requires code in trace[n].world.db.rows && code !in trace[n].world.db.buried
    requires IsTopGroups(trace[n].world.db.events, trace[n].world.db.rows[code].id, column, rows)
    requires IsBreakdown(rows, trace[n].world.db.rows[code].clicks, default, list)
    ensures
      var row, events := trace[n].world.db.rows[code], trace[n].world.db.events;
      && SumPercentages(list) <= 100.0 + 0.05 * |list| as real
      && (row.clicks > 0 && |Groups(events, row.id, column)| <= 5 ==>
            SumPercentages(list) >= 100.0 - 0.05 * |list| as real)
      && UniqueVisitors(events, row.id, row.clicks) <= row.clicks
      && (UniqueVisitors(events, row.id, row.clicks) == 0 <==> row.clicks == 0)
  {
    var row, events := trace[n].world.db.rows[code], trace[n].world.db.events;
    QuietCountsAgree(c, trace, actions, n, code);
    assert EventsOf(trace[n], row.id) == EventsFor(events, row.id);
    VisitorsBound(events, row.id, row.clicks);
    if row.clicks > 0 {
      PercentagesBound(events, row.id, column, rows, row.clicks, default, list);
    } else {
      assert EventsFor(events, row.id) == {} && Groups(events, row.id, column) == {};
      assert list == [];
    }
  }

  // ---------- more events than clicks ----------

  /** What log_click stores for a visit without headers. */
  const DIRECT := Visit(Some(CleanReferrer(None)), Some("Direct / Unknown"), None)

  /** One URL, its row and its cache entry, and the redirects `o1` and `o2` of it. */
  ghost predicate Visited(s: State, code: Code, url: Url, clicks: nat, events: Events, o1: Op, o2: Op) {
    && s.world.clock == 0.0
    && s.world.db.rows == map[code := Row(1, url, clicks, 0.0, 1)] && s.world.db.events == events
    && s.ops.Keys == {1, 2, 3} && s.ops[1].Create? && s.ops[2] == o1 && s.ops[3] == o2
  }

  function Redirected(code: Code, url: Url, click: ClickTask, log: LogTask): Op {
    Resolve(Served(code, url, true, click, log))
  }

  lemma OneRedirect(c: Config, s: State, o: OpId, code: Code, url: Url)
    requires o !in s.ops && code in s.world.db.rows && CacheGet(s.world.cache, code, s.world.clock) == Some(url)
    ensures Run(c, s, [BeginResolve(o, code)] + [Move(o, Answer(true))]) ==
            s.(ops := s.ops[o := Redirected(code, url, ClickPending, LogPending)])
  {
    var s1 := Exec(c, s, BeginResolve(o, code));
    RunStep(c, s, BeginResolve(o, code), [Move(o, Answer(true))]);
    RunOne(c, s1, Move(o, Answer(true)));
    assert s1.ops[o := Redirected(code, url, ClickPending, LogPending)]
           == s.ops[o := Redirected(code, url, ClickPending, LogPending)];
  }

  /** A URL is created and cached. */
  lemma OneUrl(c: Config, code: Code, url: Url) returns (actions: seq<Action>)
    requires url != ""
    ensures
      var s := Run(c, INIT, actions);
      && s.world.clock == 0.0 && s.ops.Keys == {1} && s.ops[1].Create?
      && s.world.db.rows == map[code := Row(1, url, 0, 0.0, 1)] && s.world.db.events == map[]
      && CacheGet(s.world.cache, code, 0.0) == Some(url)
  {
    var begin, move := BeginCreate(1, url, Some(code)), Move(1, Answer(true));
    var s1 := Exec(c, INIT, begin);
    var s2 := Exec(c, s1, move);
    assert s2.ops == map[1 := Create(Priming(code, 1, url, 0.0))];
    var s3 := Exec(c, s2, move);
    RunOne(c, s2, move);
    RunStep(c, s1, move, [move]);
    RunStep(c, INIT, begin, [move] + [move]);
    actions := [begin] + ([move] + [move]);
    assert s3.ops == map[1 := Create(Created(code, 1, url))];
  }

  /** Two redirects of it. */
  lemma TwoRedirects(c: Config, code: Code, url: Url) returns (actions: seq<Action>)
    requires url != ""
    ensures
      var pending := Redirected(code, url, ClickPending, LogPending);
      Visited(Run(c, INIT, actions), code, url, 0, map[], pending, pending)
  {
    actions := OneUrl(c, code, url);
    var s := Run(c, INIT, actions);
    OneRedirect(c, s, 2, code, url);
    var first := [BeginResolve(2, code)] + [Move(2, Answer(true))];
    var s1 := Run(c, s, first);
    OneRedirect(c, s1, 3, code, url);
    var second := [BeginResolve(3, code)] + [Move(3, Answer(true))];
    RunConcat(c, INIT, actions, first);
    RunConcat(c, INIT, actions + first, second);
    actions := actions + first + second;
  }

  /** One record_click works, the other fails. */
  lemma OneClick(c: Config, code: Code, url: Url) returns (actions: seq<Action>)
    requires url != ""
    ensures Visited(Run(c, INIT, actions), code, url, 1, map[],
                    Redirected(code, url, Counted(1), LogPending), Redirected(code, url, ClickFailed, LogPending))
  {
    actions := TwoRedirects(c, code, url);
    var s := Run(c, INIT, actions);
    RecordClickIsStep(c, s, 2, code, url, true, LogPending, true);
    var s1 := Exec(c, s, Move(2, Answer(true)));
    RecordClickIsStep(c, s1, 3, code, url, true, LogPending, false);
    RunOne(c, s, Move(2, Answer(true)));
    RunOne(c, s1, Move(3, Answer(false)));
    RunConcat(c, INIT, actions, [Move(2, Answer(true))]);
    RunConcat(c, INIT, actions + [Move(2, Answer(true))], [Move(3, Answer(false))]);
    actions := actions + [Move(2, Answer(true))] + [Move(3, Answer(false))];
  }

  /** Both log_click work. */
  lemma TwoEvents(c: Config, code: Code, url: Url) returns (actions: seq<Action>)
    requires url != ""
    ensures
      var event := ClickEvent(1, 0.0, DIRECT);
      Visited(Run(c, INIT, actions), code, url, 1, map[2 := event, 3 := event],
              Redirected(code, url, Counted(1), Logged(1)), Redirected(code, url, ClickFailed, Logged(1)))
  {
    actions := OneClick(c, code, url);
    var s := Run(c, INIT, actions);
    var first := LogSteps(s, 2, code, DIRECT, true, true, []);
    LogAlone(c, s, 2, code, url, Counted(1));
    var s1 := Run(c, s, first);
    var second := LogSteps(s1, 3, code, DIRECT, true, true, []);
    LogAlone(c, s1, 3, code, url, ClickFailed);
    RunConcat(c, INIT, actions, first);
    RunConcat(c, INIT, actions + first, second);
    actions := actions + first + second;
  }

  lemma LogAlone(c: Config, s: State, o: OpId, code: Code, url: Url, click: ClickTask)
    requires o in s.ops && s.ops[o] == Redirected(code, url, click, LogPending)
    requires s.world.clock == 0.0 && HasId(s.world.db, code, 1)
    ensures
      var end := Run(c, s, LogSteps(s, o, code, DIRECT, true, true, []));
      && end.ops == s.ops[o := Redirected(code, url, click, Logged(1))] && end.world.clock == 0.0
      && end.world.db == s.world.db.(events := s.world.db.events[o := ClickEvent(1, 0.0, DIRECT)])
  {
    var lookup, insert := Move(o, Env("", true, true, DIRECT)), Move(o, Env("", true, true, DIRECT));
    var s1 := Exec(c, s, lookup);
    assert s1 == State(s.world, s.ops[o := Redirected(code, url, click, LogFound(1))]);
    assert LogSteps(s, o, code, DIRECT, true, true, []) == [lookup] + [insert];
    RunStep(c, s, lookup, [insert]);
    RunOne(c, s1, insert);
    assert s1.ops[o := Redirected(code, url, click, Logged(1))] == s.ops[o := Redirected(code, url, click, Logged(1))];
  }

  /** click_count and click_events are written by independent jobs, so a listed percentage can exceed 100: for every code and
      URL some run has two redirects without a Referer, one failed record_click and nothing pending; the only referrer group
      then has 2 of 1 clicks. */
  lemma PercentageCanExceed(c: Config, code: Code, url: Url) returns (actions: seq<Action>)
    requires url != ""
    ensures
      var s := Run(c, INIT, actions);
      && code in s.world.db.rows && ClicksPending(s, code) == LogsPending(s, code) == {}
      && ClicksFailed(s, code) == {3}
      && IsTopGroups(s.world.db.events, s.world.db.rows[code].id, Referrer, [(Some("Direct / None"), 2)])
      && Percentage(2, s.world.db.rows[code].clicks) == 200.0
  {
    actions := TwoEvents(c, code, url);
    var s, events := Run(c, INIT, actions), Run(c, INIT, actions).world.db.events;
    assert forall o | o in s.ops :: o == 1 || o == 2 || o == 3;
    assert EventsFor(events, 1) == {2, 3};
    assert Groups(events, 1, Referrer) == {Some("Direct / None")};
    assert Covered(events, 1, Referrer, {Some("Direct / None")}) == {2, 3};
    assert LabelsOf([(Some("Direct / None"), 2)]) == [Some("Direct / None")];
    assert 2 as real / 1 as real * 100.0 == 200.0 && Nearest(2000.0) == 2000;
  }
}
