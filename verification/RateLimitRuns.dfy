/** Serial runs on one key: both implementations refine a limiter that keeps its full log, and the Retry-After
    they announce is exact up to truncation. */
module RateLimitRuns {
  import opened Redis
  import opened RateLimit
  import opened Windows

  // ---------- the specification: a limiter that never forgets ----------

  /** Admit exactly when fewer than `limit` admissions lie in (now - window, now]. */
  function Ideal(log: seq<Time>, p: Policy, now: Time): (seq<Time>, RateLimitResult) {
    var recent := After(log, WindowStart(now, p));
    if |recent| < p.limit then
      (log + [now], Admitted(p, |recent|))
    else
      var oldest := if recent == [] then now else recent[0];
      (log, Rejected(p, oldest + p.window as real - now))
  }

  function RunIdeal(log: seq<Time>, p: Policy, times: seq<Time>): (seq<Time>, seq<RateLimitResult>)
    decreases |times|
  {
    if times == [] then (log, [])
    else
      var (log', r) := Ideal(log, p, times[0]);
      var (end, rs) := RunIdeal(log', p, times[1..]);
      (end, [r] + rs)
  }

  function RunMemory(ts: seq<Time>, p: Policy, times: seq<Time>): (seq<Time>, seq<RateLimitResult>)
    decreases |times|
  {
    if times == [] then (ts, [])
    else
      var (ts', r) := InMemory(ts, p, times[0]);
      var (end, rs) := RunMemory(ts', p, times[1..]);
      (end, [r] + rs)
  }

  function RunChecks(s: KeyState, p: Policy, attempts: seq<Attempt>): (KeyState, seq<RateLimitResult>)
    decreases |attempts|
  {
    if attempts == [] then (s, [])
    else
      var (s', r) := Check(s, p, attempts[0]);
      var (end, rs) := RunChecks(s', p, attempts[1..]);
      (end, [r] + rs)
  }

  function Times(attempts: seq<Attempt>): (ts: seq<Time>)
    ensures |ts| == |attempts| && forall i | 0 <= i < |ts| :: ts[i] == attempts[i].now
  {
    if attempts == [] then [] else [attempts[0].now] + Times(attempts[1..])
  }

  // ---------- any window of the full log ----------

  /** Every half-open window (s - window, s] of the full log holds at most `limit` admissions. */
  lemma {:induction false} IdealWindowBound(log: seq<Time>, p: Policy, times: seq<Time>, s: real)
    requires Sorted(log + times) && p.limit >= 0
    requires InWindow(log, s - p.window as real, s) <= p.limit
    ensures InWindow(RunIdeal(log, p, times).0, s - p.window as real, s) <= p.limit
    decreases |times|
  {
    if times != [] {
      var lo, now := s - p.window as real, times[0];
      var (log', r) := Ideal(log, p, now);
      if r.allowed {
        AppendWindow(log, now, lo, s);
        if lo < now <= s {
          AfterKeepsWindow(log, WindowStart(now, p), lo, s);
          WindowAtMostLength(After(log, WindowStart(now, p)), lo, s);
        }
        assert log' + times[1..] == log + times;
      } else {
        SortedDrop(log, times);
      }
      IdealWindowBound(log', p, times[1..], s);
    }
  }

  lemma SortedDrop(log: seq<Time>, times: seq<Time>)
    requires Sorted(log + times) && times != []
    ensures Sorted(log + times[1..])
  {
    var all, rest := log + times, log + times[1..];
    assert forall i | 0 <= i < |rest| :: rest[i] == all[if i < |log| then i else i + 1];
  }

  // ---------- the in-memory window loses nothing ----------

  /** The pruned list and the full log agree on everything later than `lo`. */
  ghost predicate Agree(ts: seq<Time>, log: seq<Time>, lo: real) {
    forall x: real | lo <= x :: After(ts, x) == After(log, x)
  }

  lemma PruneAgrees(ts: seq<Time>, log: seq<Time>, lo: real, p: Policy, now: Time)
    requires Agree(ts, log, lo) && lo <= WindowStart(now, p)
    ensures InMemory(ts, p, now).1 == Ideal(log, p, now).1
    ensures Agree(InMemory(ts, p, now).0, Ideal(log, p, now).0, WindowStart(now, p))
  {
    var start := WindowStart(now, p);
    var ts', log' := InMemory(ts, p, now).0, Ideal(log, p, now).0;
    forall x: real | start <= x ensures After(ts', x) == After(log', x) {
      AfterAfter(ts, start, x);
      AfterAppend(After(ts, start), now, x);
      AfterAppend(log, now, x);
    }
  }

  /** On every run with a nondecreasing clock the in-memory path gives the answers of the full log, and at the end
      its list is the part of that log that lies in the last window. */
  lemma {:induction false} MemoryRefinesLog(ts: seq<Time>, log: seq<Time>, lo: real, p: Policy, times: seq<Time>)
    requires Agree(ts, log, lo) && Sorted(times)
    requires times != [] ==> lo <= WindowStart(times[0], p)
    ensures RunMemory(ts, p, times).1 == RunIdeal(log, p, times).1
    ensures times != [] && p.window >= 1 ==>
              RunMemory(ts, p, times).0 == After(RunIdeal(log, p, times).0, WindowStart(times[|times| - 1], p))
    decreases |times|
  {
    if times != [] {
      var now, start := times[0], WindowStart(times[0], p);
      PruneAgrees(ts, log, lo, p, now);
      var ts', log' := InMemory(ts, p, now).0, Ideal(log, p, now).0;
      MemoryRefinesLog(ts', log', start, p, times[1..]);
      if |times| == 1 && p.window >= 1 {
        AfterAfter(ts, start, start);
        AfterAppend(After(ts, start), now, start);
        AfterAppend(log, now, start);
      }
    }
  }

  /** Every list the in-memory path can reach: in order, never later than the clock, never longer than the limit. */
  ghost predicate ReachedMemory(ts: seq<Time>, p: Policy, last: real) {
    Sorted(ts) && AllAtMost(ts, last) && |ts| <= Max(0, p.limit)
  }

  lemma {:induction false} MemoryStaysReached(ts: seq<Time>, p: Policy, times: seq<Time>, last: real)
    requires ReachedMemory(ts, p, last) && Sorted(times) && (times != [] ==> last <= times[0])
    ensures ReachedMemory(RunMemory(ts, p, times).0, p, if times == [] then last else times[|times| - 1])
    decreases |times|
  {
    if times != [] {
      var now := times[0];
      AfterIsSubsequence(ts, WindowStart(now, p));
      MemoryStaysReached(InMemory(ts, p, now).0, p, times[1..], now);
    }
  }

  // ---------- the Redis path agrees with the in-memory path ----------

  /** The server ran the call within `delay` seconds of the clock read. The client's socket timeouts are two seconds. */
  predicate Within(c: Call, now: Time, delay: real) {
    c.Reply? && now <= c.at <= now + delay
  }

  /** Nothing fails, and what is asked of Redis before the decision is asked within `delay` seconds of the clock read. */
  predicate Prompt(a: Attempt, delay: real) {
    Within(a.count, a.now, delay) && Within(a.range, a.now, delay) && a.add.Reply? && a.now <= a.add.at
  }

  /** The add comes within five seconds as well, or else before the next clock read of the key. */
  predicate Settled(a: Attempt, next: real) {
    a.now <= next && (a.add.at <= a.now + 5.0 || a.add.at <= next)
  }

  ghost predicate AllPrompt(attempts: seq<Attempt>, delay: real) {
    forall i | 0 <= i < |attempts| :: Prompt(attempts[i], delay)
  }

  ghost predicate AllSettled(attempts: seq<Attempt>) {
    forall i | 0 < i < |attempts| :: Settled(attempts[i - 1], attempts[i].now)
  }

  function MemberOf(a: Attempt): Member {
    Member(a.now, a.nonce)
  }

  ghost predicate DistinctMembers(ms: seq<Member>, attempts: seq<Attempt>) {
    && (forall i | 0 <= i < |attempts| :: MemberOf(attempts[i]) !in ms)
    && (forall i, j | 0 <= i < j < |attempts| :: MemberOf(attempts[i]) != MemberOf(attempts[j]))
  }

  ghost predicate Outlives(z: ZSet, p: Policy, clock: real) {
    forall m | m in z.members :: m.score <= clock && m.score + (p.window + 5) as real <= z.expireAt
  }

  /** From a clock reading of `clock` on, the sorted set shows the same windows as the in-memory list, and its key outlives
      every member's stay in the window. */
  ghost predicate Mirrors(z: ZSet, ts: seq<Time>, p: Policy, clock: real) {
    Agree(Scores(z.members), ts, clock - p.window as real) && Outlives(z, p, clock)
  }

  lemma AtMostExpiry(z: ZSet, p: Policy, clock: real)
    requires Outlives(z, p, clock)
    ensures AllAtMost(Scores(z.members), z.expireAt - (p.window + 5) as real)
  {
    forall i | 0 <= i < |z.members| ensures Scores(z.members)[i] <= z.expireAt - (p.window + 5) as real {
      assert z.members[i] in z.members;
    }
  }

  /** A count that finds the key alive, or comes within five seconds, leaves exactly what the in-memory path keeps. */
  lemma CountMirrors(z: ZSet, ts: seq<Time>, p: Policy, last: real, now: Time, at: Time)
    requires Mirrors(z, ts, p, last) && last <= now <= at && (at < z.expireAt || at <= now + 5.0)
    ensures Scores(Pruned(z, at, WindowStart(now, p)).members) == After(ts, WindowStart(now, p))
    ensures forall m | m in Pruned(z, at, WindowStart(now, p)).members :: m in z.members && m.score > WindowStart(now, p)
  {
    var start := WindowStart(now, p);
    RemoveKeepsScores(Live(z, at), start);
    if at >= z.expireAt {
      AtMostExpiry(z, p, last);
      AfterNone(Scores(z.members), start);
    }
    forall m | m in Pruned(z, at, start).members ensures m in z.members && m.score > start {
      RemovedMembers(Live(z, at), 0.0, start, m);
    }
  }

  lemma SameScoresAgree(z: ZSet, ts: seq<Time>, lo: real)
    requires Scores(z.members) == ts
    ensures Agree(Scores(z.members), ts, lo)
  {
  }

  /** An add after the key has expired loses the older members, but only when they no longer matter. */
  lemma LateAddMirrors(z: ZSet, kept: seq<Time>, p: Policy, m: Member, at: Time, next: real)
    requires Scores(z.members) == kept && Outlives(z, p, m.score)
    requires z.expireAt <= at <= next && m.score <= at
    ensures Mirrors(Added(z, at, m, p), kept + [m.score], p, next)
  {
    AtMostExpiry(z, p, m.score);
    forall x: real | next - p.window as real <= x ensures After([m.score], x) == After(kept + [m.score], x) {
      AfterAppend(kept, m.score, x);
      AfterNone(kept, x);
    }
    assert Scores([m]) == [m.score];
  }

  lemma AddMirrors(z: ZSet, kept: seq<Time>, p: Policy, m: Member, at: Time, next: real)
    requires Scores(z.members) == kept && Outlives(z, p, m.score) && m !in z.members
    requires forall x | x in z.members :: x.score > m.score - p.window as real
    requires m.score <= at && m.score <= next && (at <= m.score + 5.0 || at <= next)
    ensures Mirrors(Added(z, at, m, p), kept + [m.score], p, next)
    ensures forall x | x in Added(z, at, m, p).members :: x in z.members || x == m
  {
    if at < z.expireAt || z.members == [] {
      assert Live(z, at) == z.members;
      assert forall i | 0 <= i < |z.members| :: z.members[i] in z.members;
      InsertLast(z.members, m);
      ScoresAppend(z.members, m);
      SameScoresAgree(Added(z, at, m, p), kept + [m.score], next - p.window as real);
    } else {
      assert z.members[0] in z.members;
      LateAddMirrors(z, kept, p, m, at, next);
    }
  }

  /** Counted below the limit. */
  lemma AdmitAgrees(s: KeyState, ts: seq<Time>, p: Policy, a: Attempt, next: real)
    requires MemberOf(a) !in s.zset.members && Prompt(a, 5.0) && Settled(a, next)
    requires
      var start := WindowStart(a.now, p);
      var z := Pruned(s.zset, a.count.at, start);
      && Scores(z.members) == After(ts, start) && |z.members| < p.limit
      && (forall m | m in z.members :: m in s.zset.members && m.score > start) && Outlives(z, p, a.now)
    ensures Check(s, p, a).1 == InMemory(ts, p, a.now).1
    ensures Mirrors(Check(s, p, a).0.zset, InMemory(ts, p, a.now).0, p, next)
    ensures Check(s, p, a).0.memory == s.memory
    ensures forall m | m in Check(s, p, a).0.zset.members :: m in s.zset.members || m == MemberOf(a)
  {
    var start := WindowStart(a.now, p);
    AddMirrors(Pruned(s.zset, a.count.at, start), After(ts, start), p, MemberOf(a), a.add.at, next);
  }

  /** Counted at the limit. */
  lemma RejectAgrees(s: KeyState, ts: seq<Time>, p: Policy, a: Attempt, next: real)
    requires Prompt(a, 5.0) && a.now <= next
    requires
      var start := WindowStart(a.now, p);
      var z := Pruned(s.zset, a.count.at, start);
      && Scores(z.members) == After(ts, start) && |z.members| >= p.limit
      && (forall m | m in z.members :: m in s.zset.members && m.score > start) && Outlives(z, p, a.now)
    ensures Check(s, p, a).1 == InMemory(ts, p, a.now).1
    ensures Mirrors(Check(s, p, a).0.zset, InMemory(ts, p, a.now).0, p, next)
    ensures Check(s, p, a).0.memory == s.memory
    ensures forall m | m in Check(s, p, a).0.zset.members :: m in s.zset.members
  {
    var start := WindowStart(a.now, p);
    var z := Pruned(s.zset, a.count.at, start);
    SameScoresAgree(z, After(ts, start), next - p.window as real);
    if z.members != [] {
      assert z.members[0] in z.members;
      assert Live(z, a.range.at) == z.members;
    }
  }

  lemma PathsAgreeOnce(s: KeyState, ts: seq<Time>, p: Policy, last: real, a: Attempt, next: real)
    requires Mirrors(s.zset, ts, p, last) && last <= a.now && MemberOf(a) !in s.zset.members
    requires Prompt(a, 5.0) && Settled(a, next)
    ensures Check(s, p, a).1 == InMemory(ts, p, a.now).1
    ensures Mirrors(Check(s, p, a).0.zset, InMemory(ts, p, a.now).0, p, next)
    ensures Check(s, p, a).0.memory == s.memory
    ensures forall m | m in Check(s, p, a).0.zset.members :: m in s.zset.members || m == MemberOf(a)
  {
    var start := WindowStart(a.now, p);
    CountMirrors(s.zset, ts, p, last, a.now, a.count.at);
    if |Pruned(s.zset, a.count.at, start).members| < p.limit {
      AdmitAgrees(s, ts, p, a, next);
    } else {
      RejectAgrees(s, ts, p, a, next);
    }
  }

  lemma TailKeepsOrder(attempts: seq<Attempt>, delay: real)
    requires attempts != [] && AllPrompt(attempts, delay) && AllSettled(attempts)
    ensures AllPrompt(attempts[1..], delay) && AllSettled(attempts[1..])
  {
    var rest := attempts[1..];
    assert forall i | 0 <= i < |rest| :: rest[i] == attempts[i + 1];
    forall i | 0 < i < |rest| ensures Settled(rest[i - 1], rest[i].now) {
      assert Settled(attempts[i + 1 - 1], attempts[i + 1].now);
    }
  }

  lemma TailKeepsDistinct(ms: seq<Member>, ms': seq<Member>, attempts: seq<Attempt>)
    requires attempts != [] && DistinctMembers(ms, attempts)
    requires forall m | m in ms' :: m in ms || m == MemberOf(attempts[0])
    ensures DistinctMembers(ms', attempts[1..])
  {
    var rest := attempts[1..];
    assert forall i | 0 <= i < |rest| :: rest[i] == attempts[i + 1];
  }

  /** The clock reading as of which the next check sees the stores. */
  function NextReading(attempts: seq<Attempt>): Time
    requires attempts != []
  {
    var a := attempts[0];
    if |attempts| > 1 then attempts[1].now else if a.now < a.add.at then a.add.at else a.now
  }

  lemma FirstSettles(attempts: seq<Attempt>)
    requires attempts != [] && AllSettled(attempts)
    ensures Settled(attempts[0], NextReading(attempts))
  {
    if |attempts| > 1 {
      assert Settled(attempts[1 - 1], attempts[1].now);
    }
  }

  lemma {:induction false} PathsAgree(s: KeyState, ts: seq<Time>, p: Policy, last: Time, attempts: seq<Attempt>)
    requires Mirrors(s.zset, ts, p, last) && Sorted([last] + Times(attempts))
    requires AllPrompt(attempts, 5.0) && AllSettled(attempts) && DistinctMembers(s.zset.members, attempts)
    ensures RunChecks(s, p, attempts).1 == RunMemory(ts, p, Times(attempts)).1
    ensures RunChecks(s, p, attempts).0.memory == s.memory
    decreases |attempts|
  {
    if attempts != [] {
      var a, next, clocks := attempts[0], NextReading(attempts), [last] + Times(attempts);
      assert clocks[0] <= clocks[1] == a.now;
      FirstSettles(attempts);
      PathsAgreeOnce(s, ts, p, last, a, next);
      var s', ts' := Check(s, p, a).0, InMemory(ts, p, a.now).0;
      TailKeepsOrder(attempts, 5.0);
      TailKeepsDistinct(s.zset.members, s'.zset.members, attempts);
      SortedFrom(clocks, next);
      assert clocks[2..] == Times(attempts[1..]);
      PathsAgree(s', ts', p, next, attempts[1..]);
    }
  }

  lemma SortedFrom(clocks: seq<Time>, next: Time)
    requires Sorted(clocks) && |clocks| >= 2 && (|clocks| > 2 ==> next == clocks[2])
    ensures Sorted([next] + clocks[2..])
  {
    var rest := [next] + clocks[2..];
    assert forall i | 0 < i < |rest| :: rest[i] == clocks[i + 1];
  }

  /** From the empty state, with no failures, a nondecreasing clock and distinct members, the Redis path, the
      in-memory path and the full log return the same results at every step, whole-key EXPIRE included. */
  lemma ImplementationsAgree(p: Policy, attempts: seq<Attempt>)
    requires Sorted(Times(attempts)) && DistinctMembers([], attempts)
    requires AllPrompt(attempts, 5.0) && AllSettled(attempts)
    ensures RunChecks(NO_STATE, p, attempts).1 == RunMemory([], p, Times(attempts)).1
    ensures RunChecks(NO_STATE, p, attempts).1 == RunIdeal([], p, Times(attempts)).1
    ensures RunChecks(NO_STATE, p, attempts).0.memory == []
  {
    PathsAgree(NO_STATE, [], p, 0.0, attempts);
    MemoryRefinesLog([], [], if attempts == [] then 0.0 else WindowStart(attempts[0].now, p), p, Times(attempts));
  }

  // ---------- exactly when EXPIRE changes a decision ----------

  /** Seconds until the oldest admission leaves the window. */
  function Wait(ts: seq<Time>, p: Policy, now: Time): real {
    var kept := After(ts, WindowStart(now, p));
    (if kept == [] then now else kept[0]) + p.window as real - now
  }

  /** The key is alive when it is counted, and, if the answer is a rejection, still when its oldest member is asked for
      (or the window announced in its place is the wait anyway). */
  predicate AliveWhenAsked(s: KeyState, ts: seq<Time>, p: Policy, a: Attempt)
    requires a.count.Reply? && a.range.Reply?
  {
    && a.count.at < s.zset.expireAt
    && (|| |After(ts, WindowStart(a.now, p))| < p.limit
        || a.range.at < s.zset.expireAt
        || Rejected(p, Wait(ts, p, a.now)) == Rejected(p, p.window as real))
  }

  /** However late the calls are, the two paths give the same result if and only if the key is alive when asked, or nothing
      of the window is left to be lost. */
  lemma ExpiryDecides(s: KeyState, ts: seq<Time>, p: Policy, last: real, a: Attempt)
    requires Mirrors(s.zset, ts, p, last) && last <= a.now && p.limit >= 1
    requires a.count.Reply? && a.add.Reply? && a.range.Reply? && a.now <= a.count.at
    ensures Check(s, p, a).1 == InMemory(ts, p, a.now).1 <==>
            AliveWhenAsked(s, ts, p, a) || After(ts, WindowStart(a.now, p)) == []
  {
    var start := WindowStart(a.now, p);
    var z, kept := Pruned(s.zset, a.count.at, start), After(ts, start);
    if a.count.at < s.zset.expireAt {
      CountMirrors(s.zset, ts, p, last, a.now, a.count.at);
      if kept != [] {
        assert Scores(z.members)[0] == z.members[0].score;
      }
    } else {
      assert z.members == [];
    }
  }

  /** Nothing is done at clock 0 but to admit. */
  function Filling(nonce: int): Attempt {
    Attempt(0.0, nonce, Reply(0.0), Reply(0.0), Reply(0.0))
  }

  /** `j` admissions at clock 0 on both paths. */
  ghost predicate FilledAtZero(s: KeyState, ts: seq<Time>, p: Policy, j: nat) {
    && Mirrors(s.zset, ts, p, 0.0) && |ts| == j && AllAtZero(ts)
    && (j > 0 ==> s.zset.expireAt == (p.window + 5) as real)
    && forall m | m in s.zset.members :: m.nonce < j
  }

  lemma FillOne(s: KeyState, ts: seq<Time>, p: Policy, j: nat)
    requires p.window >= 1 && j < p.limit && FilledAtZero(s, ts, p, j)
    ensures FilledAtZero(Check(s, p, Filling(j)).0, InMemory(ts, p, 0.0).0, p, j + 1)
  {
    PathsAgreeOnce(s, ts, p, 0.0, Filling(j), 0.0);
    CountMirrors(s.zset, ts, p, 0.0, 0.0, 0.0);
    AfterZero(ts, WindowStart(0.0, p));
  }

  /** One request at the limit, counted `delay` seconds after its clock read, when the key has just expired. */
  function TooLate(p: Policy, delay: real): Attempt
    requires p.window >= 1 && delay > 5.0
  {
    var now: Time := if delay - 5.0 < p.window as real then p.window as real - (delay - 5.0) else 0.0;
    Attempt(now, p.limit, Reply(now + delay), Reply(now + delay), Reply(now + delay))
  }

  /** The last result of a run. */
  function LastAllowed(results: seq<RateLimitResult>): bool {
    results != [] && results[|results| - 1].allowed
  }

  /** The order of the calls in the rest of a run from clock 0. */
  ghost predicate WellTimed(s: KeyState, attempts: seq<Attempt>, delay: real) {
    && attempts != [] && Sorted([0.0] + Times(attempts)) && AllPrompt(attempts, delay) && AllSettled(attempts)
    && DistinctMembers(s.zset.members, attempts)
  }

  /** Redis admits the last request, memory does not. */
  ghost predicate Differs(s: KeyState, ts: seq<Time>, p: Policy, attempts: seq<Attempt>) {
    && LastAllowed(RunChecks(s, p, attempts).1)
    && RunMemory(ts, p, Times(attempts)).1 != [] && !LastAllowed(RunMemory(ts, p, Times(attempts)).1)
  }

  /** The rest of a run that fills the key and ends with the late request. */
  ghost predicate EndsLate(s: KeyState, ts: seq<Time>, p: Policy, attempts: seq<Attempt>, delay: real) {
    WellTimed(s, attempts, delay) && Differs(s, ts, p, attempts)
  }

  lemma LateAdmitted(s: KeyState, ts: seq<Time>, p: Policy, delay: real)
    requires p.window >= 1 && p.limit >= 1 && delay > 5.0 && FilledAtZero(s, ts, p, p.limit)
    ensures EndsLate(s, ts, p, [TooLate(p, delay)], delay)
  {
    var a := TooLate(p, delay);
    AfterZero(ts, WindowStart(a.now, p));
    assert Live(s.zset, a.count.at) == [];
    assert [a][1..] == [] && Times([a]) == [a.now];
    assert RunChecks(s, p, [a]).1 == [Check(s, p, a).1] + [];
    assert [a.now][1..] == [];
    assert RunMemory(ts, p, [a.now]).1 == [InMemory(ts, p, a.now).1] + [];
  }

  lemma RunChecksCons(s: KeyState, p: Policy, a: Attempt, rest: seq<Attempt>)
    ensures RunChecks(s, p, [a] + rest).1 == [Check(s, p, a).1] + RunChecks(Check(s, p, a).0, p, rest).1
  {
    assert ([a] + rest)[1..] == rest;
  }

  lemma RunMemoryCons(ts: seq<Time>, p: Policy, a: Attempt, rest: seq<Attempt>)
    ensures Times([a] + rest) == [a.now] + Times(rest)
    ensures RunMemory(ts, p, Times([a] + rest)).1 ==
            [InMemory(ts, p, a.now).1] + RunMemory(InMemory(ts, p, a.now).0, p, Times(rest)).1
  {
    assert ([a] + rest)[1..] == rest;
    assert Times([a] + rest)[1..] == Times(rest);
  }

  lemma FillKeepsOrder(j: nat, rest: seq<Attempt>, delay: real)
    requires rest != [] && Sorted([0.0] + Times(rest)) && AllPrompt(rest, delay) && AllSettled(rest) && delay > 5.0
    ensures AllPrompt([Filling(j)] + rest, delay) && AllSettled([Filling(j)] + rest)
  {
    var all := [Filling(j)] + rest;
    assert forall i | 0 < i < |all| :: all[i] == rest[i - 1];
    forall i | 0 < i < |all| ensures Settled(all[i - 1], all[i].now) {
      if i > 1 { assert Settled(rest[i - 1 - 1], rest[i - 1].now); }
    }
  }

  lemma LastOfCons(r: RateLimitResult, rs: seq<RateLimitResult>)
    requires rs != []
    ensures LastAllowed([r] + rs) == LastAllowed(rs)
  {
  }

  lemma FillDiffers(s: KeyState, ts: seq<Time>, p: Policy, a: Attempt, rest: seq<Attempt>)
    requires Differs(Check(s, p, a).0, InMemory(ts, p, a.now).0, p, rest)
    ensures Differs(s, ts, p, [a] + rest)
  {
    RunChecksCons(s, p, a, rest);
    RunMemoryCons(ts, p, a, rest);
    LastOfCons(Check(s, p, a).1, RunChecks(Check(s, p, a).0, p, rest).1);
    LastOfCons(InMemory(ts, p, a.now).1, RunMemory(InMemory(ts, p, a.now).0, p, Times(rest)).1);
  }

  lemma FillTimed(s: KeyState, ts: seq<Time>, p: Policy, j: nat, rest: seq<Attempt>, delay: real)
    requires FilledAtZero(s, ts, p, j) && delay > 5.0 && WellTimed(Check(s, p, Filling(j)).0, rest, delay)
    requires forall a | a in rest :: a.nonce > j
    ensures WellTimed(s, [Filling(j)] + rest, delay)
  {
    FillKeepsOrder(j, rest, delay);
    FillDistinct(s, ts, p, j, rest);
    RunMemoryCons(ts, p, Filling(j), rest);
    RestSorted(Times(rest));
  }

  lemma FillFirst(s: KeyState, ts: seq<Time>, p: Policy, j: nat, rest: seq<Attempt>, delay: real)
    requires FilledAtZero(s, ts, p, j) && delay > 5.0
    requires EndsLate(Check(s, p, Filling(j)).0, InMemory(ts, p, 0.0).0, p, rest, delay)
    requires forall a | a in rest :: a.nonce > j
    ensures EndsLate(s, ts, p, [Filling(j)] + rest, delay)
  {
    FillTimed(s, ts, p, j, rest, delay);
    FillDiffers(s, ts, p, Filling(j), rest);
  }

  lemma RestSorted(ts: seq<Time>)
    requires Sorted([0.0] + ts)
    ensures Sorted([0.0] + ([0.0] + ts))
  {
    var all, more := [0.0 as Time] + ts, [0.0 as Time] + ([0.0] + ts);
    assert forall i | 0 < i < |more| :: more[i] == all[i - 1];
  }

  lemma FillDistinct(s: KeyState, ts: seq<Time>, p: Policy, j: nat, rest: seq<Attempt>)
    requires FilledAtZero(s, ts, p, j) && forall a | a in rest :: a.nonce > j
    requires DistinctMembers(Check(s, p, Filling(j)).0.zset.members, rest)
    ensures DistinctMembers(s.zset.members, [Filling(j)] + rest)
  {
    var all := [Filling(j)] + rest;
    assert forall i | 0 < i < |all| :: all[i] == rest[i - 1] && all[i] in rest;
  }

  lemma {:induction false} FillThenLate(s: KeyState, ts: seq<Time>, p: Policy, j: nat, delay: real)
    returns (attempts: seq<Attempt>)
    requires p.window >= 1 && 1 <= p.limit && j <= p.limit && delay > 5.0 && FilledAtZero(s, ts, p, j)
    ensures EndsLate(s, ts, p, attempts, delay)
    ensures forall a | a in attempts :: a.nonce >= j
    decreases p.limit - j
  {
    if j == p.limit {
      attempts := [TooLate(p, delay)];
      LateAdmitted(s, ts, p, delay);
    } else {
      FillOne(s, ts, p, j);
      attempts := FillThenLate(Check(s, p, Filling(j)).0, InMemory(ts, p, 0.0).0, p, j + 1, delay);
      FillFirst(s, ts, p, j, attempts, delay);
      attempts := [Filling(j)] + attempts;
    }
  }

  lemma TailSorted(all: seq<Time>, ts: seq<Time>)
    requires Sorted(all) && all != [] && all[1..] == ts
    ensures Sorted(ts)
  {
    assert forall i | 0 <= i < |ts| :: ts[i] == all[i + 1];
  }

  /** Five seconds are exactly what the paths tolerate: for every limit, window and delay beyond five seconds there is a run
      without failures, with no call later than that delay, in which the Redis path admits a request that the in-memory
      path and the full log reject. */
  lemma FiveSecondsAreExact(p: Policy, delay: real) returns (attempts: seq<Attempt>)
    requires p.limit >= 1 && p.window >= 1 && delay > 5.0
    ensures attempts != [] && Sorted(Times(attempts)) && DistinctMembers([], attempts)
    ensures AllPrompt(attempts, delay) && AllSettled(attempts)
    ensures LastAllowed(RunChecks(NO_STATE, p, attempts).1)
    ensures RunIdeal([], p, Times(attempts)).1 != [] && !LastAllowed(RunIdeal([], p, Times(attempts)).1)
  {
    attempts := FillThenLate(NO_STATE, [], p, 0, delay);
    TailSorted([0.0] + Times(attempts), Times(attempts));
    MemoryRefinesLog([], [], WindowStart(attempts[0].now, p), p, Times(attempts));
  }

  // ---------- Retry-After ----------

  lemma {:induction false} FullUntilWaitEnds(kept: seq<Time>, p: Policy, times: seq<Time>)
    requires Sorted(kept) && |kept| == p.limit >= 1
    requires forall i | 0 <= i < |times| :: times[i] - p.window as real < kept[0]
    ensures RunMemory(kept, p, times).0 == kept
    ensures forall r | r in RunMemory(kept, p, times).1 :: !r.allowed
    decreases |times|
  {
    if times != [] {
      AfterAll(kept, WindowStart(times[0], p));
      FullUntilWaitEnds(kept, p, times[1..]);
    }
  }

  lemma {:induction false} AfterAll(ts: seq<Time>, lo: real)
    requires forall i | 0 <= i < |ts| :: ts[i] > lo
    ensures After(ts, lo) == ts
  {
    if ts != [] {
      AfterAll(ts[1..], lo);
    }
  }

  /** On rejection, d = oldest + window - now lies in (0, window]; Retry-After is max(1, floor d), within a second of
      d and at most the window. Every later check before now + d is rejected and changes nothing; the first one
      at or after now + d is admitted. */
  lemma RetryAfterIsExact(ts: seq<Time>, p: Policy, last: real, now: Time, later: seq<Time>, t: Time)
    requires ReachedMemory(ts, p, last) && last <= now && p.limit >= 1 && p.window >= 1
    requires !InMemory(ts, p, now).1.allowed
    requires forall i | 0 <= i < |later| :: later[i] < now + Wait(ts, p, now)
    ensures
      var d := Wait(ts, p, now);
      var r := InMemory(ts, p, now).1;
      && 0.0 < d <= p.window as real
      && r.retry_after == r.reset_seconds == Max(1, d.Floor)
      && 1 <= r.retry_after <= p.window && d - 1.0 < r.retry_after as real < d + 1.0
    ensures
      var (after, results) := RunMemory(InMemory(ts, p, now).0, p, later);
      && (forall r | r in results :: !r.allowed)
      && (InMemory(after, p, t).1.allowed <==> t >= now + Wait(ts, p, now))
  {
    var start, window := WindowStart(now, p), p.window as real;
    AfterIsSubsequence(ts, start);
    var kept := After(ts, start);
    assert kept[0] in ts;
    assert |kept| == p.limit;
    FullUntilWaitEnds(kept, p, later);
    if t >= kept[0] + window {
      AfterIsSubsequence(kept[1..], WindowStart(t, p));
    } else {
      AfterAll(kept, WindowStart(t, p));
    }
  }

  /** Waiting exactly Retry-After seconds suffices only when truncation took nothing away: `int()` rounds down. */
  lemma SleepingSuffices(ts: seq<Time>, p: Policy, last: real, now: Time)
    requires ReachedMemory(ts, p, last) && last <= now && p.limit >= 1 && p.window >= 1
    requires !InMemory(ts, p, now).1.allowed
    ensures
      var (kept, r) := InMemory(ts, p, now);
      var d := Wait(ts, p, now);
      InMemory(kept, p, now + r.retry_after as real).1.allowed <==> d <= 1.0 || d == d.Floor as real
  {
    var r := InMemory(ts, p, now).1;
    RetryAfterIsExact(ts, p, last, now, [], now);
    RetryAfterIsExact(ts, p, last, now, [], now + r.retry_after as real);
  }

  /** A wait that fails: the window frees up after 9.5 s, the client is told 9 and is rejected again. */
  lemma SleepingCanFail()
    ensures
      var p := Policy(1, 10);
      var (kept, r) := InMemory([100.0], p, 100.5);
      && !r.allowed && r.retry_after == 9
      && !InMemory(kept, p, 100.5 + r.retry_after as real).1.allowed
  {
    var p := Policy(1, 10);
    assert After([100.0], 90.5) == [100.0];
    assert After([100.0], 99.5) == [100.0];
    assert Trunc(9.5) == 9;
  }
}
