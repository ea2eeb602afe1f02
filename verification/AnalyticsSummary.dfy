/** What a summary of get_analytics tells of the click events: the visitors, the listed groups and the recent visits. */
module AnalyticsSummary {
  import opened Wrappers
  import opened Redis
  import opened Api
  import opened UrlStore
  import opened Analytics

  // ---------- visitors ----------

  /** Events of the row with addresses that are known and pairwise different. */
  ghost predicate DifferentVisitors(events: Events, id: Id, es: set<OpId>) {
    && (forall e | e in es :: e in events && events[e].url_id == id && events[e].visit.ip_hash.Some?)
    && (forall e1, e2 | e1 in es && e2 in es && e1 != e2 :: events[e1].visit.ip_hash != events[e2].visit.ip_hash)
  }

  ghost predicate NoAddress(events: Events, id: Id) {
    forall e | e in events && events[e].url_id == id :: events[e].visit.ip_hash.None?
  }

  /** `n` is the size of the largest set of such events; if no address is known, one visitor is assumed if there are clicks. */
  ghost predicate CountsVisitors(events: Events, id: Id, clicks: nat, n: nat) {
    && (forall es | DifferentVisitors(events, id, es) :: |es| <= n)
    && (if NoAddress(events, id) then n == if clicks > 0 then 1 else 0
        else exists es :: DifferentVisitors(events, id, es) && |es| == n)
  }

  lemma {:induction false} AtMostHashes(events: Events, id: Id, es: set<OpId>, hs: set<Label>)
    requires DifferentVisitors(events, id, es) && forall e | e in es :: events[e].visit.ip_hash in hs
    ensures |es| <= |hs|
  {
    if es != {} {
      var e :| e in es;
      AtMostHashes(events, id, es - {e}, hs - {events[e].visit.ip_hash});
    }
  }

  /** One event for each of the hashes. */
  lemma {:induction false} OneForEach(events: Events, id: Id, hs: set<Label>) returns (es: set<OpId>)
    requires hs <= Hashes(events, id)
    ensures DifferentVisitors(events, id, es) && |es| == |hs| && forall e | e in es :: events[e].visit.ip_hash in hs
  {
    if hs == {} {
      es := {};
    } else {
      var h :| h in hs;
      var rest := OneForEach(events, id, hs - {h});
      var e :| e in EventsFor(events, id) && events[e].visit.ip_hash == h && h.Some?;
      es := rest + {e};
    }
  }

  lemma HashesAreCounted(events: Events, id: Id, clicks: nat)
    ensures CountsVisitors(events, id, clicks, UniqueVisitors(events, id, clicks))
  {
    var hs := Hashes(events, id);
    forall es | DifferentVisitors(events, id, es) ensures |es| <= UniqueVisitors(events, id, clicks) {
      forall e | e in es ensures events[e].visit.ip_hash in hs {
        assert e in EventsFor(events, id);
      }
      AtMostHashes(events, id, es, hs);
    }
    if NoAddress(events, id) {
      assert hs == {};
    } else {
      var e :| e in events && events[e].url_id == id && events[e].visit.ip_hash.Some?;
      assert e in EventsFor(events, id) && events[e].visit.ip_hash in hs;
      var es := OneForEach(events, id, hs);
    }
  }

  // ---------- the listed groups ----------

  /** An entry of a breakdown stands for all events in `group`: it has their number, the key or the default in its place, and
      the rounded percentage of the clicks. */
  ghost predicate StandsFor(entry: MetricBreakdown, group: set<OpId>, key: Label, default: string, clicks: nat) {
    && entry.count == |group| > 0
    && entry.name == (if key == None || key == Some("") then default else key.value)
    && (if clicks == 0 then entry.percentage == 0.0
        else -0.05 <= entry.percentage - entry.count as real * 100.0 / clicks as real <= 0.05)
  }

  function WithReferrer(events: Events, id: Id, key: Label): set<OpId> {
    set e | e in events && events[e].url_id == id && events[e].visit.referrer == key
  }

  function WithFamily(events: Events, id: Id, key: Label): set<OpId> {
    set e | e in events && events[e].url_id == id && events[e].visit.family == key
  }

  lemma ListedEntry(events: Events, id: Id, column: Column, rows: Rows, clicks: nat, default: string,
                    list: seq<MetricBreakdown>, i: nat)
    requires IsTopGroups(events, id, column, rows) && IsBreakdown(rows, clicks, default, list) && i < |list|
    ensures StandsFor(list[i], Covered(events, id, column, {rows[i].0}), rows[i].0, default, clicks)
  {
    var key := rows[i].0;
    assert LabelsOf(rows)[i] == key && key in LabelsOf(rows);
    assert key in Groups(events, id, column);
    var e :| e in EventsFor(events, id) && LabelOf(events[e], column) == key;
    assert e in Covered(events, id, column, {key});
    if clicks > 0 {
      Swap(list[i].count as real, clicks as real);
    }
  }

  lemma Swap(a: real, t: real)
    requires t > 0.0
    ensures a / t * 100.0 == a * 100.0 / t
  {
    assert a == a / t * t;
    assert a * 100.0 == (a / t * 100.0) * t;
  }

  lemma ListedReferrer(events: Events, id: Id, rows: Rows, clicks: nat, list: seq<MetricBreakdown>, i: nat)
    requires IsTopGroups(events, id, Referrer, rows) && IsBreakdown(rows, clicks, "Direct", list) && i < |list|
    ensures StandsFor(list[i], WithReferrer(events, id, rows[i].0), rows[i].0, "Direct", clicks)
  {
    ListedEntry(events, id, Referrer, rows, clicks, "Direct", list, i);
    assert Covered(events, id, Referrer, {rows[i].0}) == WithReferrer(events, id, rows[i].0);
  }

  lemma ListedFamily(events: Events, id: Id, rows: Rows, clicks: nat, list: seq<MetricBreakdown>, i: nat)
    requires IsTopGroups(events, id, Family, rows) && IsBreakdown(rows, clicks, "Unknown", list) && i < |list|
    ensures StandsFor(list[i], WithFamily(events, id, rows[i].0), rows[i].0, "Unknown", clicks)
  {
    ListedEntry(events, id, Family, rows, clicks, "Unknown", list, i);
    assert Covered(events, id, Family, {rows[i].0}) == WithFamily(events, id, rows[i].0);
  }

  /** With at most five groups every group is listed. */
  lemma GroupIsListed(events: Events, id: Id, column: Column, rows: Rows, e: OpId) returns (i: nat)
    requires IsTopGroups(events, id, column, rows) && |Groups(events, id, column)| <= 5 && e in EventsFor(events, id)
    ensures i < |rows| && rows[i].0 == LabelOf(events[e], column)
  {
    TopRows(events, id, column, rows);
    var key := LabelOf(events[e], column);
    assert key in Groups(events, id, column);
    CoverAll(events, id, column, rows);
    var row :| row in rows && row.0 == key;
    i :| i < |rows| && rows[i] == row;
  }

  lemma CoverAll(events: Events, id: Id, column: Column, rows: Rows)
    requires IsTopGroups(events, id, column, rows) && |Groups(events, id, column)| <= 5
    ensures KeysOf(rows) == Groups(events, id, column)
  {
    TopRows(events, id, column, rows);
    DistinctKeys(rows);
    ProperSubsetCard(KeysOf(rows), Groups(events, id, column));
  }

  lemma {:induction false} DistinctKeys(rows: Rows)
    requires Distinct(rows)
    ensures |KeysOf(rows)| == |rows|
  {
    if rows == [] {
      assert KeysOf(rows) == {};
    } else {
      LastKey(rows);
      DistinctKeys(rows[..|rows| - 1]);
    }
  }

  // ---------- recent visits ----------

  /** The list shows the events `recent`, each with its time, referrer and browser: ten of the row, or all if there are fewer,
      the latest first and none older than one that is left out. */
  lemma RecentShows(events: Events, id: Id, recent: seq<OpId>, details: seq<EventDetail>)
    requires IsRecent(events, id, recent) && |details| == |recent|
    requires forall i | 0 <= i < |recent| :: recent[i] in events && details[i] == Detail(events[recent[i]])
    ensures |details| == (if |EventsFor(events, id)| < 10 then |EventsFor(events, id)| else 10)
    ensures forall i | 0 <= i < |details| ::
              var event := events[recent[i]];
              && event.url_id == id && details[i].clicked_at == event.clicked_at
              && details[i].referrer == event.visit.referrer && details[i].family == event.visit.family
    ensures forall i, j | 0 <= i < j < |details| :: recent[i] != recent[j] && details[j].clicked_at <= details[i].clicked_at
    ensures forall e, i | e in events && events[e].url_id == id && e !in recent && 0 <= i < |details| ::
              events[e].clicked_at <= details[i].clicked_at
  {
    assert forall i | 0 <= i < |recent| :: recent[i] in recent;
    forall e | e in events && events[e].url_id == id ensures e in EventsFor(events, id) {}
  }

  lemma {:induction false} AllOfThem<T>(from: set<T>, top: seq<T>, x: T)
    requires (forall y | y in top :: y in from) && (forall i, j | 0 <= i < j < |top| :: top[i] != top[j])
    requires |top| == |from| && x in from
    ensures x in top
  {
    if x !in top {
      TooMany(from - {x}, top);
    }
  }

  lemma {:induction false} TooMany<T>(from: set<T>, top: seq<T>)
    requires (forall y | y in top :: y in from) && (forall i, j | 0 <= i < j < |top| :: top[i] != top[j])
    ensures |top| <= |from|
  {
    if top != [] {
      var last := |top| - 1;
      assert top[last] in top;
      forall y | y in top[..last] ensures y in from - {top[last]} {}
      TooMany(from - {top[last]}, top[..last]);
    }
  }

  // ---------- a logged visit in the summary ----------

  /** The database has this event of redirect `e`: of row `id`, with what log_click makes of a Referer header, and a browser
      family. */
  predicate Sees(db: Db, e: OpId, id: Id, clock: Time, referrer: Option<string>, family: string) {
    && e in db.events && db.events[e].url_id == id && db.events[e].clicked_at == clock
    && db.events[e].visit.referrer == Some(CleanReferrer(referrer)) && db.events[e].visit.family == Some(family)
  }

  lemma ReferrerIsShown(db: Db, rows: Rows, clicks: nat, list: seq<MetricBreakdown>, e: OpId, id: Id, clock: Time,
                        referrer: Option<string>, family: string)
    requires IsTopGroups(db.events, id, Referrer, rows) && IsBreakdown(rows, clicks, "Direct", list)
    requires Sees(db, e, id, clock, referrer, family) && |Groups(db.events, id, Referrer)| <= 5
    ensures exists i | 0 <= i < |list| ::
              list[i].name == CleanReferrer(referrer)
              && list[i].count == |WithReferrer(db.events, id, Some(CleanReferrer(referrer)))| >= 1
  {
    var i := GroupIsListed(db.events, id, Referrer, rows, e);
    ListedReferrer(db.events, id, rows, clicks, list, i);
  }

  lemma FamilyIsShown(db: Db, rows: Rows, clicks: nat, list: seq<MetricBreakdown>, e: OpId, id: Id, clock: Time,
                      referrer: Option<string>, family: string)
    requires IsTopGroups(db.events, id, Family, rows) && IsBreakdown(rows, clicks, "Unknown", list)
    requires Sees(db, e, id, clock, referrer, family) && |Groups(db.events, id, Family)| <= 5 && family != ""
    ensures exists i | 0 <= i < |list| ::
              list[i].name == family && list[i].count == |WithFamily(db.events, id, Some(family))| >= 1
  {
    var i := GroupIsListed(db.events, id, Family, rows, e);
    ListedFamily(db.events, id, rows, clicks, list, i);
  }

  lemma VisitIsShown(db: Db, recent: seq<OpId>, details: seq<EventDetail>, e: OpId, id: Id, clock: Time,
                     referrer: Option<string>, family: string)
    requires IsRecent(db.events, id, recent) && |details| == |recent|
    requires forall i | 0 <= i < |recent| :: recent[i] in db.events && details[i] == Detail(db.events[recent[i]])
    requires Sees(db, e, id, clock, referrer, family) && |EventsFor(db.events, id)| <= 10
    ensures EventDetail(clock, Some(CleanReferrer(referrer)), Some(family)) in details
  {
    RecentShows(db.events, id, recent, details);
    AllOfThem(EventsFor(db.events, id), recent, e);
    var i :| 0 <= i < |recent| && recent[i] == e;
    assert details[i] in details;
  }

  /** A click that the summary's statements see is shown: its cleaned referrer and its family each head a group that counts
      it, if there are at most five groups, and its time, referrer and family are among the recent visits, if there are at
      most ten. */
  lemma ClickIsShown(s: Summary, code: Code, at: Reads, refRows: Rows, browserRows: Rows, recent: seq<OpId>, e: OpId,
                     clock: Time, referrer: Option<string>, family: string)
    requires IsSummary(s, code, at, refRows, browserRows, recent) && family != ""
    requires AreAnswers(at, at.row.rows[code].id, refRows, browserRows, recent)
    requires Sees(at.referrers, e, at.row.rows[code].id, clock, referrer, family)
    requires Sees(at.browsers, e, at.row.rows[code].id, clock, referrer, family)
    requires Sees(at.recent, e, at.row.rows[code].id, clock, referrer, family)
    ensures
      var id, shown := at.row.rows[code].id, CleanReferrer(referrer);
      && (|Groups(at.referrers.events, id, Referrer)| <= 5 ==>
            exists i | 0 <= i < |s.referrers| ::
              s.referrers[i].name == shown
              && s.referrers[i].count == |WithReferrer(at.referrers.events, id, Some(shown))| >= 1)
      && (|Groups(at.browsers.events, id, Family)| <= 5 ==>
            exists i | 0 <= i < |s.browsers| ::
              s.browsers[i].name == family && s.browsers[i].count == |WithFamily(at.browsers.events, id, Some(family))| >= 1)
      && (|EventsFor(at.recent.events, id)| <= 10 ==> EventDetail(clock, Some(shown), Some(family)) in s.recent)
  {
    var id, clicks := at.row.rows[code].id, at.row.rows[code].clicks;
    if |Groups(at.referrers.events, id, Referrer)| <= 5 {
      ReferrerIsShown(at.referrers, refRows, clicks, s.referrers, e, id, clock, referrer, family);
    }
    if |Groups(at.browsers.events, id, Family)| <= 5 {
      FamilyIsShown(at.browsers, browserRows, clicks, s.browsers, e, id, clock, referrer, family);
    }
    if |EventsFor(at.recent.events, id)| <= 10 {
      VisitIsShown(at.recent, recent, s.recent, e, id, clock, referrer, family);
    }
  }

  /** The summary's visitors are the largest number of its row's events with known and different addresses. */
  lemma VisitorsAreCounted(s: Summary, code: Code, at: Reads, refRows: Rows, browserRows: Rows, recent: seq<OpId>)
    requires IsSummary(s, code, at, refRows, browserRows, recent)
    ensures CountsVisitors(at.visitors.events, at.row.rows[code].id, s.total_clicks, s.unique_visitors)
  {
    HashesAreCounted(at.visitors.events, at.row.rows[code].id, s.total_clicks);
  }
}
