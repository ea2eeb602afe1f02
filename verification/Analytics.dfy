/** Click events and their aggregation (app/services/analytics_service.py). */
module Analytics {
  import opened Wrappers
  import opened Redis
  import opened Api
  import opened Text
  import opened UrlStore
  import opened UrlService

  type Events = map<OpId, ClickEvent>

  datatype Column = Referrer | Family

  datatype MetricBreakdown = MetricBreakdown(name: string, count: nat, percentage: real)

  datatype EventDetail = EventDetail(clicked_at: Time, referrer: Label, family: Label)

  datatype Summary = Summary(
    short_code: Code, original_url: Url, total_clicks: nat, unique_visitors: nat, created_at: Time,
    referrers: seq<MetricBreakdown>, browsers: seq<MetricBreakdown>, recent: seq<EventDetail>)

  // ---------- what the queries return ----------

  /** The events that reference a row. */
  function EventsFor(events: Events, id: Id): set<OpId> {
    set e | e in events && events[e].url_id == id
  }

  function LabelOf(event: ClickEvent, column: Column): Label {
    if column.Referrer? then event.visit.referrer else event.visit.family
  }

  function Groups(events: Events, id: Id, column: Column): set<Label> {
    set e | e in EventsFor(events, id) :: LabelOf(events[e], column)
  }

  /** The events of the row whose label is one of `keys`. */
  function Covered(events: Events, id: Id, column: Column, keys: set<Label>): set<OpId> {
    set e | e in EventsFor(events, id) && LabelOf(events[e], column) in keys
  }

  function Count(events: Events, id: Id, column: Column, l: Label): nat {
    |Covered(events, id, column, {l})|
  }

  /** ORDER BY key DESC LIMIT k over `from`. The database is free to break ties. */
  ghost predicate IsTop<T>(key: T -> real, from: set<T>, k: nat, top: seq<T>) {
    && |top| == (if |from| < k then |from| else k)
    && Descending(key, top)
    && (forall x | x in top :: x in from)
    && (forall x, y | x in from && x !in top && y in top :: key(x) <= key(y))
  }

  /** Distinct, largest first. */
  ghost predicate Descending<T>(key: T -> real, top: seq<T>) {
    forall i, j | 0 <= i < j < |top| :: top[i] != top[j] && key(top[j]) <= key(top[i])
  }

  type Rows = seq<(Label, nat)>

  function LabelsOf(rows: Rows): (ls: seq<Label>)
    ensures |ls| == |rows| && forall i | 0 <= i < |rows| :: ls[i] == rows[i].0
  {
    seq(|rows|, i requires 0 <= i < |rows| => rows[i].0)
  }

  /** SELECT label, count(id) GROUP BY label ORDER BY count DESC LIMIT 5 */
  ghost predicate IsTopGroups(events: Events, id: Id, column: Column, rows: Rows) {
    && IsTop((l: Label) => Count(events, id, column, l) as real, Groups(events, id, column), 5, LabelsOf(rows))
    && forall i | 0 <= i < |rows| :: rows[i].1 == Count(events, id, column, rows[i].0)
  }

  /** SELECT ... ORDER BY clicked_at DESC LIMIT 10 */
  ghost predicate IsRecent(events: Events, id: Id, recent: seq<OpId>) {
    IsTop((e: OpId) => if e in events then events[e].clicked_at else 0.0, EventsFor(events, id), 10, recent)
  }

  /** The nearest integer, ties to the even one. */
  function Nearest(y: real): (n: int)
    ensures -0.5 <= n as real - y <= 0.5
    ensures n as real - y == 0.5 || y - n as real == 0.5 ==> n % 2 == 0
  {
    var f := y.Floor;
    var rest := y - f as real;
    if rest < 0.5 || (rest == 0.5 && f % 2 == 0) then f else f + 1
  }

  /** Python's round(x, 1): the nearest tenth, ties to the even one. */
  function RoundTenth(x: real): (r: real)
    ensures -0.05 <= r - x <= 0.05
    ensures r * 10.0 == (r * 10.0).Floor as real
    ensures r - x == 0.05 || x - r == 0.05 ==> (r * 10.0).Floor % 2 == 0
  {
    var n := Nearest(x * 10.0);
    var r := n as real / 10.0;
    assert r * 10.0 == n as real;
    r
  }

  function Percentage(count: nat, total: nat): real {
    if total > 0 then RoundTenth(count as real / total as real * 100.0) else 0.0
  }

  /** `label or default` */
  function LabelOr(l: Label, default: string): string {
    if l == None || l.value == "" then default else l.value
  }

  /** The distinct values of ip_hash, NULL not counted. */
  function Hashes(events: Events, id: Id): set<Label> {
    set e | e in EventsFor(events, id) && events[e].visit.ip_hash.Some? :: events[e].visit.ip_hash
  }

  /** count(distinct ip_hash); zero is falsy and replaced. */
  function UniqueVisitors(events: Events, id: Id, totalClicks: nat): nat {
    var distinct := |Hashes(events, id)|;
    if distinct != 0 then distinct else if totalClicks > 0 then 1 else 0
  }

  function Detail(event: ClickEvent): EventDetail {
    EventDetail(event.clicked_at, event.visit.referrer, event.visit.family)
  }

  /** `referrer.strip()[:500] if referrer else None`, then `or "Direct / None"`. */
  function CleanReferrer(referrer: Option<string>): (shown: string)
    ensures 0 < |shown| <= 500
    ensures referrer.None? ==> shown == "Direct / None"
    ensures referrer.Some? && Strip(referrer.value) == "" ==> shown == "Direct / None"
    ensures referrer.Some? && Strip(referrer.value) != "" ==>
              shown <= Strip(referrer.value) && (shown == Strip(referrer.value) || |shown| == 500)
  {
    var clean := if referrer.Some? then Strip(referrer.value) else "";
    var cut := if |clean| > 500 then clean[..500] else clean;
    if cut == "" then "Direct / None" else cut
  }

  /** What log_click leaves in the database: `before` is its state when the id is read, `between` its state when the
      insert arrives, which is checked against the foreign key. An error is swallowed. */
  function Logs(before: Db, between: Db, code: Code, visit: Visit, lookupOk: bool, insertOk: bool, now: Time, o: OpId): Db {
    if !lookupOk || code !in before.rows || before.rows[code].id == 0 || !insertOk then between
    else AddEvent(between, o, code, ClickEvent(before.rows[code].id, now, visit))
  }

  // ---------- the service ----------

  /** The states of the database that the five statements of get_analytics see: others may write in between. */
  datatype Reads = Reads(row: Db, visitors: Db, referrers: Db, browsers: Db, recent: Db)

  /** What the two grouping queries and the query for recent events return. */
  ghost predicate AreAnswers(at: Reads, id: Id, refRows: Rows, browserRows: Rows, recent: seq<OpId>) {
    && IsTopGroups(at.referrers.events, id, Referrer, refRows)
    && IsTopGroups(at.browsers.events, id, Family, browserRows)
    && IsRecent(at.recent.events, id, recent)
  }

  /** The summary of a row from these answers. */
  ghost predicate IsSummary(s: Summary, code: Code, at: Reads, refRows: Rows, browserRows: Rows, recent: seq<OpId>) {
    && code in at.row.rows
    && var row := at.row.rows[code];
       && s.short_code == code && s.original_url == row.url && s.total_clicks == row.clicks && s.created_at == row.created
       && s.unique_visitors == UniqueVisitors(at.visitors.events, row.id, row.clicks)
       && IsBreakdown(refRows, row.clicks, "Direct", s.referrers)
       && IsBreakdown(browserRows, row.clicks, "Unknown", s.browsers)
       && |s.recent| == |recent|
       && forall i | 0 <= i < |recent| ::
            recent[i] in at.recent.events && s.recent[i] == Detail(at.recent.events[recent[i]])
  }

  class AnalyticsService {
    const database: Database

    constructor (database: Database)
      ensures this.database == database
    {
      this.database := database;
    }

    /** `log_click`. While its first statement is awaited other requests turn the database into `between`. */
    method LogClick(code: Code, referrer: Option<string>, family: string, ipHash: Option<string>, lookupOk: bool,
                    between: Db, insertOk: bool, now: Time, o: OpId)
      modifies database
      ensures
        var visit := Visit(Some(CleanReferrer(referrer)), Some(family), ipHash);
        database.db == Logs(old(database.db), between, code, visit, lookupOk, insertOk, now, o)
    {
      var row := database.Select(code);
      database.db := between;
      if !lookupOk || row.None? || row.value.id == 0 {
        return;
      }
      var event := ClickEvent(row.value.id, now, Visit(Some(CleanReferrer(referrer)), Some(family), ipHash));
      if insertOk {
        database.db := AddEvent(database.db, o, code, event);
      }
    }

    /** `get_analytics`, given what its queries return. */
    method GetAnalytics(code: Code, at: Reads, refRows: Rows, browserRows: Rows, recent: seq<OpId>)
      returns (r: Option<Summary>)
      requires code in at.row.rows ==> AreAnswers(at, at.row.rows[code].id, refRows, browserRows, recent)
      ensures r.None? <==> code !in at.row.rows
      ensures r.Some? ==> IsSummary(r.value, code, at, refRows, browserRows, recent)
    {
      if code !in at.row.rows {
        return None;
      }
      var row := at.row.rows[code];
      var referrers := Breakdown(refRows, row.clicks, "Direct");
      var browsers := Breakdown(browserRows, row.clicks, "Unknown");
      var events := at.recent.events;
      forall i | 0 <= i < |recent| ensures recent[i] in events {
        assert recent[i] in recent && recent[i] in EventsFor(events, row.id);
      }
      var details := seq(|recent|, i requires 0 <= i < |recent| => Detail(events[recent[i]]));
      var visitors := UniqueVisitors(at.visitors.events, row.id, row.clicks);
      return Some(Summary(code, row.url, row.clicks, visitors, row.created, referrers, browsers, details));
    }

    /** The append loop over fetched rows. */
    method Breakdown(rows: Rows, total: nat, default: string) returns (list: seq<MetricBreakdown>)
      ensures IsBreakdown(rows, total, default, list)
    {
      list := [];
      for i := 0 to |rows|
        invariant IsBreakdown(rows[..i], total, default, list)
      {
        var pct := Percentage(rows[i].1, total);
        list := list + [MetricBreakdown(LabelOr(rows[i].0, default), rows[i].1, pct)];
      }
      assert rows[..|rows|] == rows;
    }
  }

  predicate IsBreakdown(rows: Rows, total: nat, default: string, list: seq<MetricBreakdown>) {
    && |list| == |rows|
    && forall i | 0 <= i < |list| ::
         list[i] == MetricBreakdown(LabelOr(rows[i].0, default), rows[i].1, Percentage(rows[i].1, total))
  }

  // ---------- counts are conserved ----------

  function SumCounts(list: seq<MetricBreakdown>): nat {
    if list == [] then 0 else SumCounts(list[..|list| - 1]) + list[|list| - 1].count
  }

  function SumPercentages(list: seq<MetricBreakdown>): real {
    if list == [] then 0.0 else SumPercentages(list[..|list| - 1]) + list[|list| - 1].percentage
  }

  lemma CoverOneMore(events: Events, id: Id, column: Column, keys: set<Label>, l: Label)
    requires l !in keys
    ensures |Covered(events, id, column, keys + {l})| == |Covered(events, id, column, keys)| + Count(events, id, column, l)
  {
    var more, one := Covered(events, id, column, keys), Covered(events, id, column, {l});
    assert Covered(events, id, column, keys + {l}) == more + one && more !! one;
  }

  function KeysOf(rows: Rows): set<Label> {
    set row | row in rows :: row.0
  }

  ghost predicate Distinct(rows: Rows) {
    forall i, j | 0 <= i < j < |rows| :: rows[i].0 != rows[j].0
  }

  lemma LastKey(rows: Rows)
    requires rows != [] && Distinct(rows)
    ensures
      var front, last := rows[..|rows| - 1], rows[|rows| - 1];
      KeysOf(rows) == KeysOf(front) + {last.0} && last.0 !in KeysOf(front)
  {
    assert rows == rows[..|rows| - 1] + [rows[|rows| - 1]];
  }

  /** Listed counts add up to the events they cover. */
  lemma {:induction false} SumIsCovered(events: Events, id: Id, column: Column, rows: Rows, total: nat, default: string,
                                        list: seq<MetricBreakdown>)
    requires IsBreakdown(rows, total, default, list) && Distinct(rows)
    requires forall i | 0 <= i < |rows| :: rows[i].1 == Count(events, id, column, rows[i].0)
    ensures SumCounts(list) == |Covered(events, id, column, KeysOf(rows))|
    ensures |KeysOf(rows)| == |rows|
  {
    if rows == [] {
      assert KeysOf(rows) == {} && Covered(events, id, column, {}) == {};
    } else {
      var k := |rows| - 1;
      var front, last := rows[..k], rows[k];
      SumIsCovered(events, id, column, front, total, default, list[..k]);
      LastKey(rows);
      CoverOneMore(events, id, column, KeysOf(front), last.0);
    }
  }

  lemma {:induction false} ProperSubsetCard<T>(a: set<T>, b: set<T>)
    requires a <= b
    ensures |a| <= |b| && (|a| == |b| ==> a == b)
  {
    if a != {} {
      var x :| x in a;
      ProperSubsetCard(a - {x}, b - {x});
      assert a == (a - {x}) + {x} && b == (b - {x}) + {x};
    }
  }

  /** As many keys as there are groups, up to five: everything is covered exactly when there are at most five groups. */
  lemma CoverTop(events: Events, id: Id, column: Column, keys: set<Label>)
    requires keys <= Groups(events, id, column)
    requires |keys| == if |Groups(events, id, column)| < 5 then |Groups(events, id, column)| else 5
    ensures |Covered(events, id, column, keys)| <= |EventsFor(events, id)|
    ensures |Covered(events, id, column, keys)| == |EventsFor(events, id)| <==> |Groups(events, id, column)| <= 5
  {
    ProperSubsetCard(Covered(events, id, column, keys), EventsFor(events, id));
    ProperSubsetCard(keys, Groups(events, id, column));
    if Covered(events, id, column, keys) == EventsFor(events, id) {
      forall l | l in Groups(events, id, column) ensures l in keys {
        var e :| e in EventsFor(events, id) && LabelOf(events[e], column) == l;
        assert e in Covered(events, id, column, keys);
      }
    }
    if keys == Groups(events, id, column) {
      forall e | e in EventsFor(events, id) ensures e in Covered(events, id, column, keys) {
        assert LabelOf(events[e], column) in Groups(events, id, column);
      }
    }
  }

  lemma TopRows(events: Events, id: Id, column: Column, rows: Rows)
    requires IsTopGroups(events, id, column, rows)
    ensures Distinct(rows) && KeysOf(rows) <= Groups(events, id, column)
    ensures forall i, j | 0 <= i < j < |rows| :: rows[j].1 <= rows[i].1
    ensures forall l, i | l in Groups(events, id, column) && l !in KeysOf(rows) && 0 <= i < |rows| ::
              Count(events, id, column, l) <= rows[i].1
  {
    var ls := LabelsOf(rows);
    assert forall i | 0 <= i < |rows| :: ls[i] in ls && rows[i] in rows;
    forall i, j | 0 <= i < j < |rows| ensures rows[i].0 != rows[j].0 && rows[j].1 <= rows[i].1 {
      assert ls[i] != ls[j];
    }
    forall l, i | l in Groups(events, id, column) && l !in KeysOf(rows) && 0 <= i < |rows|
      ensures Count(events, id, column, l) <= rows[i].1
    {
      assert l !in ls && ls[i] in ls;
    }
  }

  /** A breakdown is in nonincreasing order, omits no group larger than a listed one, and its counts sum to at most the
      number of events, with equality exactly when there are at most five groups. */
  lemma BreakdownConserves(events: Events, id: Id, column: Column, rows: Rows, total: nat, default: string,
                           list: seq<MetricBreakdown>)
    requires IsTopGroups(events, id, column, rows) && IsBreakdown(rows, total, default, list)
    ensures forall i, j | 0 <= i < j < |list| :: list[j].count <= list[i].count
    ensures forall l, i | l in Groups(events, id, column) && l !in KeysOf(rows) && 0 <= i < |list| ::
              Count(events, id, column, l) <= list[i].count
    ensures SumCounts(list) <= |EventsFor(events, id)|
    ensures SumCounts(list) == |EventsFor(events, id)| <==> |Groups(events, id, column)| <= 5
  {
    TopRows(events, id, column, rows);
    SumIsCovered(events, id, column, rows, total, default, list);
    CoverTop(events, id, column, KeysOf(rows));
  }

  // ---------- percentages ----------

  lemma {:induction false} PercentagesNearCounts(rows: Rows, total: nat, default: string, list: seq<MetricBreakdown>)
    requires IsBreakdown(rows, total, default, list) && total > 0
    ensures -0.05 * |list| as real <= SumPercentages(list) - SumCounts(list) as real / total as real * 100.0
              <= 0.05 * |list| as real
  {
    if list != [] {
      var k := |list| - 1;
      PercentagesNearCounts(rows[..k], total, default, list[..k]);
      AddFractions(SumCounts(list[..k]), list[k].count, total);
      assert -0.05 <= list[k].percentage - list[k].count as real / total as real * 100.0 <= 0.05;
    }
  }

  lemma AddFractions(a: nat, b: nat, total: nat)
    requires total > 0
    ensures (a + b) as real / total as real * 100.0 == a as real / total as real * 100.0 + b as real / total as real * 100.0
  {
    var t := total as real;
    assert (a as real + b as real) / t == a as real / t + b as real / t;
  }

  lemma FractionAtMostOne(a: nat, total: nat)
    requires 0 < total && a <= total
    ensures a as real / total as real * 100.0 <= 100.0
    ensures a == total ==> a as real / total as real * 100.0 == 100.0
  {
    assert a as real / total as real <= 1.0;
  }

  /** With click_count at least the number of events, percentages sum to at most 100 and 0.05 per entry; when the two are
      equal and there are at most five groups, to 100 within 0.05 per entry. */
  lemma PercentagesBound(events: Events, id: Id, column: Column, rows: Rows, total: nat, default: string,
                         list: seq<MetricBreakdown>)
    requires IsTopGroups(events, id, column, rows) && IsBreakdown(rows, total, default, list)
    requires 0 < total && |EventsFor(events, id)| <= total
    ensures SumPercentages(list) <= 100.0 + 0.05 * |list| as real
    ensures total == |EventsFor(events, id)| && |Groups(events, id, column)| <= 5 ==>
              SumPercentages(list) >= 100.0 - 0.05 * |list| as real
  {
    BreakdownConserves(events, id, column, rows, total, default, list);
    PercentagesNearCounts(rows, total, default, list);
    FractionAtMostOne(SumCounts(list), total);
  }

  /** One percentage exceeds 100 exactly when the group has more than 1.0005 times the counted clicks. click_count and
      click_events are written by independent tasks, so that happens. */
  lemma PercentageExceeds(count: nat, total: nat)
    ensures Percentage(count, total) > 100.0 <==> total > 0 && 2000 * count > 2001 * total
  {
    if total > 0 {
      RoundAboveHundred(count as real / total as real * 100.0);
      CompareFraction(count as real, total as real, 1.0005);
      assert count as real / total as real * 100.0 > 100.05 <==> count as real / total as real > 1.0005;
    }
  }

  lemma CompareFraction(n: real, t: real, y: real)
    requires t > 0.0
    ensures n / t > y <==> n > y * t
  {
    var x := n / t;
    assert n == x * t;
    if x > y {
      assert (x - y) * t > 0.0;
    } else {
      assert (y - x) * t >= 0.0;
    }
  }

  /** 100.05 is a tie and goes to the even tenth, 100.0. */
  lemma RoundAboveHundred(x: real)
    ensures RoundTenth(x) > 100.0 <==> x > 100.05
  {
  }

  // ---------- visitors ----------

  lemma {:induction false} ImageCard(events: Events, es: set<OpId>)
    requires es <= events.Keys
    ensures |set e | e in es && events[e].visit.ip_hash.Some? :: events[e].visit.ip_hash| <= |es|
  {
    var image := set e | e in es && events[e].visit.ip_hash.Some? :: events[e].visit.ip_hash;
    if es == {} {
      assert image == {};
    } else {
      var x :| x in es;
      ImageCard(events, es - {x});
      var rest := set e | e in es - {x} && events[e].visit.ip_hash.Some? :: events[e].visit.ip_hash;
      assert image <= rest + {events[x].visit.ip_hash};
      ProperSubsetCard(image, rest + {events[x].visit.ip_hash});
    }
  }

  /** When click_count is the number of events, there are at most as many visitors as clicks, and none exactly when there
      are no clicks. */
  lemma VisitorsBound(events: Events, id: Id, total: nat)
    requires total == |EventsFor(events, id)|
    ensures UniqueVisitors(events, id, total) <= total
    ensures UniqueVisitors(events, id, total) == 0 <==> total == 0
  {
    ImageCard(events, EventsFor(events, id));
    if total == 0 {
      assert EventsFor(events, id) == {};
    }
  }

  // ---------- the queries have answers ----------

  lemma {:induction false} Greatest<T>(key: T -> real, from: set<T>) returns (top: T)
    requires from != {}
    ensures top in from && forall x | x in from :: key(x) <= key(top)
    decreases |from|
  {
    top :| top in from;
    if from != {top} {
      var other := Greatest(key, from - {top});
      top := if key(other) <= key(top) then top else other;
    }
  }

  lemma DescendingPrepend<T>(key: T -> real, x: T, rest: seq<T>)
    requires Descending(key, rest) && forall y | y in rest :: y != x && key(y) <= key(x)
    ensures Descending(key, [x] + rest)
  {
  }

  /** Every ordered and limited query has an answer. */
  lemma {:induction false} TopExists<T>(key: T -> real, from: set<T>, k: nat) returns (top: seq<T>)
    ensures IsTop(key, from, k, top)
  {
    if k == 0 || from == {} {
      top := [];
    } else {
      var x := Greatest(key, from);
      var rest := TopExists(key, from - {x}, k - 1);
      DescendingPrepend(key, x, rest);
      top := [x] + rest;
      assert forall y :: y in top <==> y == x || y in rest;
    }
  }

  /** For every table the grouping query has an answer. */
  lemma TopGroupsExist(events: Events, id: Id, column: Column) returns (rows: Rows)
    ensures IsTopGroups(events, id, column, rows)
  {
    var key := (l: Label) => Count(events, id, column, l) as real;
    var top := TopExists(key, Groups(events, id, column), 5);
    rows := seq(|top|, i requires 0 <= i < |top| => (top[i], Count(events, id, column, top[i])));
    assert LabelsOf(rows) == top;
  }

  /** And so has the query for recent events. */
  lemma RecentExists(events: Events, id: Id) returns (recent: seq<OpId>)
    ensures IsRecent(events, id, recent)
  {
    recent := TopExists((e: OpId) => if e in events then events[e].clicked_at else 0.0, EventsFor(events, id), 10);
  }
}
