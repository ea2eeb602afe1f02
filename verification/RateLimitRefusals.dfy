/** Whom serial checks refuse: with any failures only a client whose window is full of its own admissions, or of adds that
    Redis has applied without a word. */
module RateLimitRefusals {
  import opened Redis
  import opened RateLimit
  import opened RateLimitAnswers
  import opened RateLimitFailover
  import opened Windows

  /** Redis has applied the add of a check that is then refused from process memory. */
  predicate Unrecorded(f: Fleet, p: Policy, r: Request)
    requires r.proc < |f.memory|
  {
    var a := r.attempt;
    && a.count.Reply? && |Pruned(f.zset, a.count.at, WindowStart(a.now, p)).members| < p.limit
    && a.add.Fault? && a.add.applied && !Serve(f, p, r).1.allowed
  }

  /** Clock readings of such checks. */
  function UnrecordedOf(f: Fleet, p: Policy, requests: seq<Request>): seq<Time>
    decreases |requests|
  {
    if requests == [] || requests[0].proc >= |f.memory| then []
    else
      UnrecordedBy(f, p, requests[0]) + UnrecordedOf(Serve(f, p, requests[0]).0, p, requests[1..])
  }

  function EndReading(clock: Time, requests: seq<Request>): Time {
    if requests == [] then clock else requests[|requests| - 1].attempt.now
  }

  function AdmittedBy(f: Fleet, p: Policy, r: Request): seq<Time>
    requires r.proc < |f.memory|
  {
    if Serve(f, p, r).1.allowed then [r.attempt.now] else []
  }

  function UnrecordedBy(f: Fleet, p: Policy, r: Request): seq<Time>
    requires r.proc < |f.memory|
  {
    if Unrecorded(f, p, r) then [r.attempt.now] else []
  }

  function ServeAll(f: Fleet, p: Policy, requests: seq<Request>): Fleet
    decreases |requests|
  {
    if requests == [] || requests[0].proc >= |f.memory| then f
    else ServeAll(Serve(f, p, requests[0]).0, p, requests[1..])
  }

  /** Each process exists, and the clock does not go back. */
  predicate InOrder(processes: nat, clock: Time, requests: seq<Request>)
    decreases |requests|
  {
    requests == [] ||
    (requests[0].proc < processes && clock <= requests[0].attempt.now
     && InOrder(processes, requests[0].attempt.now, requests[1..]))
  }

  // ---------- what the stores hold was admitted, or is unrecorded ----------

  /** In every window the store holds at most what `admitted` and `unrecorded` have there, and nothing is later than the
      clock. */
  ghost predicate Backed(held: seq<Time>, admitted: seq<Time>, unrecorded: seq<Time>, clock: real) {
    && AllAtMost(held, clock)
    && forall lo: real, hi: real ::
         InWindow(held, lo, hi) <= InWindow(admitted, lo, hi) + InWindow(unrecorded, lo, hi)
  }

  ghost predicate AllBacked(f: Fleet, admitted: seq<Time>, unrecorded: seq<Time>, clock: real) {
    && Backed(Scores(f.zset.members), admitted, unrecorded, clock)
    && forall q | 0 <= q < |f.memory| :: Backed(f.memory[q], admitted, [], clock)
  }

  lemma {:induction false} AfterHoldsLess(ts: seq<Time>, cut: real, lo: real, hi: real)
    ensures InWindow(After(ts, cut), lo, hi) <= InWindow(ts, lo, hi)
  {
    if ts != [] {
      AfterHoldsLess(ts[1..], cut, lo, hi);
    }
  }

  lemma BackedAfter(held: seq<Time>, cut: real, admitted: seq<Time>, unrecorded: seq<Time>, clock: real)
    requires Backed(held, admitted, unrecorded, clock)
    ensures Backed(After(held, cut), admitted, unrecorded, clock)
  {
    AfterIsSubsequence(held, cut);
    forall lo: real, hi: real
      ensures InWindow(After(held, cut), lo, hi) <= InWindow(admitted, lo, hi) + InWindow(unrecorded, lo, hi)
    {
      AfterHoldsLess(held, cut, lo, hi);
    }
  }

  /** More admissions back as much. */
  lemma BackedMore(held: seq<Time>, admitted: seq<Time>, unrecorded: seq<Time>, clock: real, now: Time, a: seq<Time>,
                   u: seq<Time>)
    requires Backed(held, admitted, unrecorded, clock) && clock <= now && |a| <= 1 && |u| <= 1
    ensures Backed(held, admitted + a, unrecorded + u, now)
  {
    forall lo: real, hi: real
      ensures InWindow(held, lo, hi) <= InWindow(admitted + a, lo, hi) + InWindow(unrecorded + u, lo, hi)
    {
      AppendSome(admitted, a, lo, hi);
      AppendSome(unrecorded, u, lo, hi);
    }
  }

  /** One entry more, with one admission or one unrecorded add more. */
  lemma BackedInsert(held: seq<Time>, held': seq<Time>, admitted: seq<Time>, unrecorded: seq<Time>, clock: real, now: Time,
                     a: seq<Time>, u: seq<Time>)
    requires Backed(held, admitted, unrecorded, clock) && clock <= now
    requires (a == [now] && u == []) || (a == [] && u == [now])
    requires AllAtMost(held', now)
    requires forall lo: real, hi: real :: InWindow(held', lo, hi) <= InWindow(held, lo, hi) + Weight(now, lo, hi)
    ensures Backed(held', admitted + a, unrecorded + u, now)
  {
    forall lo: real, hi: real
      ensures InWindow(held', lo, hi) <= InWindow(admitted + a, lo, hi) + InWindow(unrecorded + u, lo, hi)
    {
      AppendSome(admitted, a, lo, hi);
      AppendSome(unrecorded, u, lo, hi);
      assert InWindow([now], lo, hi) == Weight(now, lo, hi) + InWindow([], lo, hi);
    }
  }

  lemma BackedLive(z: ZSet, at: Time, hi: real, admitted: seq<Time>, unrecorded: seq<Time>, clock: real)
    requires Backed(Scores(z.members), admitted, unrecorded, clock)
    ensures Backed(Scores(Live(z, at)), admitted, unrecorded, clock)
    ensures Backed(Scores(Pruned(z, at, hi).members), admitted, unrecorded, clock)
  {
    var live := Live(z, at);
    forall lo: real, hi: real
      ensures InWindow(Scores(live), lo, hi) <= InWindow(admitted, lo, hi) + InWindow(unrecorded, lo, hi)
    {
      if live == [] { assert InWindow(Scores(live), lo, hi) == 0; }
    }
    RemoveKeepsScores(live, hi);
    BackedAfter(Scores(live), hi, admitted, unrecorded, clock);
  }

  lemma BackedAdd(z: ZSet, at: Time, m: Member, p: Policy, admitted: seq<Time>, unrecorded: seq<Time>, clock: real,
                  a: seq<Time>, u: seq<Time>)
    requires Backed(Scores(z.members), admitted, unrecorded, clock) && clock <= m.score
    requires (a == [m.score] && u == []) || (a == [] && u == [m.score])
    ensures Backed(Scores(Added(z, at, m, p).members), admitted + a, unrecorded + u, m.score)
  {
    var live := Live(z, at);
    BackedLive(z, at, 0.0, admitted, unrecorded, clock);
    var held, held' := Scores(live), Scores(ZAdd(live, m));
    forall lo: real, hi: real ensures InWindow(held', lo, hi) <= InWindow(held, lo, hi) + Weight(m.score, lo, hi) {
      if m !in live { InsertWindow(live, m, lo, hi); }
    }
    forall i | 0 <= i < |held'| ensures held'[i] <= m.score {
      var x := ZAdd(live, m)[i];
      if m !in live { InsertedMembers(live, m, x); }
      if x != m {
        var k :| 0 <= k < |live| && live[k] == x;
        assert held[k] <= clock;
      }
    }
    BackedInsert(held, held', admitted, unrecorded, clock, m.score, a, u);
  }

  lemma BackedMemory(ts: seq<Time>, p: Policy, now: Time, admitted: seq<Time>, clock: real)
    requires Backed(ts, admitted, [], clock) && clock <= now
    ensures
      var (kept, r) := InMemory(ts, p, now);
      Backed(kept, admitted + (if r.allowed then [now] else []), [], now)
  {
    var start := WindowStart(now, p);
    var held := After(ts, start);
    BackedAfter(ts, start, admitted, [], clock);
    if |held| < p.limit {
      forall lo: real, hi: real ensures InWindow(held + [now], lo, hi) <= InWindow(held, lo, hi) + Weight(now, lo, hi) {
        AppendWindow(held, now, lo, hi);
      }
      BackedInsert(held, held + [now], admitted, [], clock, now, [now], []);
    } else {
      BackedMore(held, admitted, [], clock, now, [], []);
      assert admitted + [] == admitted;
    }
  }

  /** The set after one check. */
  lemma ServeBacksSet(f: Fleet, p: Policy, r: Request, admitted: seq<Time>, unrecorded: seq<Time>, clock: real)
    requires r.proc < |f.memory| && clock <= r.attempt.now && AllBacked(f, admitted, unrecorded, clock)
    ensures Backed(Scores(Serve(f, p, r).0.zset.members), admitted + AdmittedBy(f, p, r),
                   unrecorded + UnrecordedBy(f, p, r), r.attempt.now)
  {
    var a, now := r.attempt, r.attempt.now;
    var start := WindowStart(now, p);
    var z := Pruned(f.zset, a.count.at, start);
    var allowed, lost := AdmittedBy(f, p, r), UnrecordedBy(f, p, r);
    BackedLive(f.zset, a.count.at, start, admitted, unrecorded, clock);
    BackedMore(Scores(f.zset.members), admitted, unrecorded, clock, now, allowed, lost);
    BackedMore(Scores(z.members), admitted, unrecorded, clock, now, allowed, lost);
    if a.count.Reply? && |z.members| < p.limit && (a.add.Reply? || a.add.applied) {
      BackedAdd(z, a.add.at, Member(now, a.nonce), p, admitted, unrecorded, clock, allowed, lost);
    }
  }

  lemma ServeBacksMemory(f: Fleet, p: Policy, r: Request, q: nat, admitted: seq<Time>, clock: real)
    requires r.proc < |f.memory| && q < |f.memory| && clock <= r.attempt.now && Backed(f.memory[q], admitted, [], clock)
    ensures Backed(Serve(f, p, r).0.memory[q], admitted + AdmittedBy(f, p, r), [], r.attempt.now)
  {
    BackedMore(f.memory[q], admitted, [], clock, r.attempt.now, AdmittedBy(f, p, r), []);
    if q == r.proc {
      BackedMemory(f.memory[q], p, r.attempt.now, admitted, clock);
    }
  }

  /** All stores after one check. */
  lemma ServeBacks(f: Fleet, p: Policy, r: Request, admitted: seq<Time>, unrecorded: seq<Time>, clock: real)
    requires r.proc < |f.memory| && clock <= r.attempt.now && AllBacked(f, admitted, unrecorded, clock)
    ensures AllBacked(Serve(f, p, r).0, admitted + AdmittedBy(f, p, r), unrecorded + UnrecordedBy(f, p, r), r.attempt.now)
  {
    ServeBacksSet(f, p, r, admitted, unrecorded, clock);
    forall q | 0 <= q < |f.memory| ensures Backed(Serve(f, p, r).0.memory[q], admitted + AdmittedBy(f, p, r), [], r.attempt.now) {
      ServeBacksMemory(f, p, r, q, admitted, clock);
    }
  }

  lemma FirstOfRun(f: Fleet, p: Policy, requests: seq<Request>, admitted: seq<Time>, unrecorded: seq<Time>)
    requires requests != [] && requests[0].proc < |f.memory|
    ensures
      var r, f' := requests[0], Serve(f, p, requests[0]).0;
      && ServeAll(f, p, requests) == ServeAll(f', p, requests[1..])
      && admitted + Admissions(f, p, requests) == (admitted + AdmittedBy(f, p, r)) + Admissions(f', p, requests[1..])
      && unrecorded + UnrecordedOf(f, p, requests)
         == (unrecorded + UnrecordedBy(f, p, r)) + UnrecordedOf(f', p, requests[1..])
  {
    var r, rest, f' := requests[0], requests[1..], Serve(f, p, requests[0]).0;
    assert Admissions(f, p, requests) == AdmittedBy(f, p, r) + Admissions(f', p, rest);
    assert UnrecordedOf(f, p, requests) == UnrecordedBy(f, p, r) + UnrecordedOf(f', p, rest);
    Regroup(admitted, AdmittedBy(f, p, r), Admissions(f', p, rest));
    Regroup(unrecorded, UnrecordedBy(f, p, r), UnrecordedOf(f', p, rest));
  }

  lemma Regroup(a: seq<Time>, b: seq<Time>, c: seq<Time>)
    ensures a + (b + c) == (a + b) + c
  {
  }

  lemma NothingServed(f: Fleet, p: Policy, admitted: seq<Time>, unrecorded: seq<Time>)
    ensures ServeAll(f, p, []) == f
    ensures admitted + Admissions(f, p, []) == admitted && unrecorded + UnrecordedOf(f, p, []) == unrecorded
  {
  }

  lemma {:induction false} RunBacks(f: Fleet, p: Policy, requests: seq<Request>, admitted: seq<Time>, unrecorded: seq<Time>,
                                    clock: Time)
    requires InOrder(|f.memory|, clock, requests) && AllBacked(f, admitted, unrecorded, clock)
    ensures AllBacked(ServeAll(f, p, requests), admitted + Admissions(f, p, requests),
                      unrecorded + UnrecordedOf(f, p, requests), EndReading(clock, requests))
    ensures |ServeAll(f, p, requests).memory| == |f.memory|
    decreases |requests|
  {
    if requests == [] {
      NothingServed(f, p, admitted, unrecorded);
    } else {
      var r := requests[0];
      ServeBacks(f, p, r, admitted, unrecorded, clock);
      FirstOfRun(f, p, requests, admitted, unrecorded);
      RunBacks(Serve(f, p, r).0, p, requests[1..], admitted + AdmittedBy(f, p, r), unrecorded + UnrecordedBy(f, p, r),
               r.attempt.now);
    }
  }

  // ---------- who is refused ----------

  lemma FullStoreRefuses(held: seq<Time>, p: Policy, now: Time, admitted: seq<Time>, unrecorded: seq<Time>, clock: real)
    requires Backed(held, admitted, unrecorded, clock) && clock <= now && |After(held, WindowStart(now, p))| >= p.limit
    ensures InWindow(admitted, WindowStart(now, p), now) + InWindow(unrecorded, WindowStart(now, p), now) >= p.limit
  {
    WindowIsAfter(held, WindowStart(now, p), now);
  }

  lemma RefusalIsBacked(f: Fleet, p: Policy, r: Request, admitted: seq<Time>, unrecorded: seq<Time>, clock: real)
    requires r.proc < |f.memory| && clock <= r.attempt.now && AllBacked(f, admitted, unrecorded, clock)
    ensures !Serve(f, p, r).1.allowed ==>
              InWindow(admitted, r.attempt.now - p.window as real, r.attempt.now)
              + InWindow(unrecorded, r.attempt.now - p.window as real, r.attempt.now) >= p.limit
  {
    var a, now, start := r.attempt, r.attempt.now, WindowStart(r.attempt.now, p);
    var live := Live(f.zset, a.count.at);
    RemoveKeepsScores(live, start);
    BackedLive(f.zset, a.count.at, start, admitted, unrecorded, clock);
    if |After(Scores(live), start)| >= p.limit {
      FullStoreRefuses(Scores(live), p, now, admitted, unrecorded, clock);
    } else if |After(f.memory[r.proc], start)| >= p.limit {
      FullStoreRefuses(f.memory[r.proc], p, now, admitted, [], clock);
    }
  }

  lemma RunBacksAlone(processes: nat, p: Policy, requests: seq<Request>)
    requires InOrder(processes, 0.0, requests)
    ensures
      var f := Fresh(processes);
      && AllBacked(ServeAll(f, p, requests), Admissions(f, p, requests), UnrecordedOf(f, p, requests), EndReading(0.0, requests))
      && |ServeAll(f, p, requests).memory| == processes
  {
    var f := Fresh(processes);
    RunBacks(f, p, requests, [], [], 0.0);
    assert [] + Admissions(f, p, requests) == Admissions(f, p, requests);
    assert [] + UnrecordedOf(f, p, requests) == UnrecordedOf(f, p, requests);
  }

  /** P processes share Redis and serve checks one at a time, with any failures. A check is refused only if the admissions in
      its window, together with the refused checks there whose add Redis had applied without a word, make up the limit. */
  lemma RefusedOnlyWhenFull(p: Policy, processes: nat, requests: seq<Request>, r: Request)
    requires InOrder(processes, 0.0, requests) && r.proc < processes
    requires EndReading(0.0, requests) <= r.attempt.now
    ensures |ServeAll(Fresh(processes), p, requests).memory| == processes
    ensures
      var f, now := Fresh(processes), r.attempt.now;
      !Serve(ServeAll(f, p, requests), p, r).1.allowed ==>
        InWindow(Admissions(f, p, requests), now - p.window as real, now)
        + InWindow(UnrecordedOf(f, p, requests), now - p.window as real, now) >= p.limit
  {
    var f := Fresh(processes);
    RunBacksAlone(processes, p, requests);
    RefusalIsBacked(ServeAll(f, p, requests), p, r, Admissions(f, p, requests), UnrecordedOf(f, p, requests),
                    EndReading(0.0, requests));
  }

  // ---------- an unrecorded add ----------

  const ONE_IN_TEN := Policy(1, 10)

  /** Redis is down. */
  const FIRST := Request(0, Attempt(0.0, 0, Fault(0.0, false), Fault(0.0, false), Fault(0.0, false)))

  /** Redis applies the add, but its reply is lost. */
  const SECOND := Request(0, Attempt(5.0, 1, Reply(5.0), Fault(5.0, true), Fault(5.0, false)))

  /** Redis works. */
  const THIRD := Request(0, Attempt(11.0, 2, Reply(11.0), Reply(11.0), Reply(11.0)))

  lemma FirstIsAdmitted()
    ensures Serve(Fresh(1), ONE_IN_TEN, FIRST).0 == Fleet(NO_ZSET, [[0.0]]) && Serve(Fresh(1), ONE_IN_TEN, FIRST).1.allowed
  {
    assert Fresh(1).memory == [[]];
    assert Serve(Fresh(1), ONE_IN_TEN, FIRST) ==
           (Fleet(NO_ZSET, Fresh(1).memory[0 := InMemory([], ONE_IN_TEN, 0.0).0]), InMemory([], ONE_IN_TEN, 0.0).1);
    assert InMemory([], ONE_IN_TEN, 0.0).0 == [0.0];
  }

  lemma SecondIsRefused()
    ensures
      var (f, r) := Serve(Fleet(NO_ZSET, [[0.0]]), ONE_IN_TEN, SECOND);
      f == Fleet(ZSet([Member(5.0, 1)], 20.0), [[0.0]]) && !r.allowed
  {
    assert After([0.0], -5.0) == [0.0];
    assert Live(NO_ZSET, 5.0) == [];
  }

  lemma ThirdIsRefused()
    ensures !Serve(Fleet(ZSet([Member(5.0, 1)], 20.0), [[0.0]]), ONE_IN_TEN, THIRD).1.allowed
  {
    assert RemRangeByScore([Member(5.0, 1)], 0.0, 1.0) == [Member(5.0, 1)];
  }

  /** Without such adds the window of a refused check is full of admissions. They do happen: process memory is full since 0,
      an add at 5 is applied without a word and its check refused, and at 11 Redis refuses a check although nothing was
      admitted in the last ten seconds. */
  lemma RefusedWithoutAdmissions()
    ensures
      var requests := [FIRST, SECOND];
      && InOrder(1, 0.0, requests) && EndReading(0.0, requests) <= THIRD.attempt.now
      && InWindow(Admissions(Fresh(1), ONE_IN_TEN, requests), 1.0, 11.0) == 0
      && |ServeAll(Fresh(1), ONE_IN_TEN, requests).memory| == 1
      && !Serve(ServeAll(Fresh(1), ONE_IN_TEN, requests), ONE_IN_TEN, THIRD).1.allowed
  {
    FirstIsAdmitted();
    SecondIsRefused();
    ThirdIsRefused();
    var requests, p, f := [FIRST, SECOND], ONE_IN_TEN, Fresh(1);
    var f1 := Fleet(NO_ZSET, [[0.0]]);
    assert requests[1..] == [SECOND] && [SECOND][1..] == [];
    assert ServeAll(f, p, requests) == ServeAll(f1, p, [SECOND]) == Serve(f1, p, SECOND).0;
    assert Admissions(f, p, requests) == [0.0] + Admissions(f1, p, [SECOND]) && Admissions(f1, p, [SECOND]) == [];
    assert InWindow([0.0], 1.0, 11.0) == 0;
  }
}
