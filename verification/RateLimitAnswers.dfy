/** What a check answers, in terms of the admissions before it: the decision, the remaining quota, the reset and the wait. */
module RateLimitAnswers {
  import opened Redis
  import opened RateLimit
  import opened RateLimitRuns
  import opened Windows

  /** `t` is the earliest of the admissions in (lo, hi]. */
  ghost predicate IsOldest(log: seq<Time>, lo: real, hi: real, t: Time) {
    t in log && lo < t <= hi && forall u | u in log && lo < u <= hi :: t <= u
  }

  /** The answer at `now` after the admissions in `log`: allowed exactly with fewer than `limit` of them in the window, and
      then the quota that is left and the whole window; else nothing left, and the wait until the oldest of them leaves the
      window, in whole seconds, as reset and as retry. */
  ghost predicate AnswersFor(p: Policy, log: seq<Time>, now: Time, r: RateLimitResult) {
    var start: real := now - p.window as real;
    var used := InWindow(log, start, now);
    && r.limit == p.limit
    && (r.allowed <==> used < p.limit)
    && (r.allowed ==> r.remaining + used + 1 == p.limit && r.reset_seconds == p.window && r.retry_after == 0)
    && (!r.allowed ==> r.remaining == 0 && r.reset_seconds == r.retry_after)
    && (!r.allowed && used > 0 ==>
          exists t: Time :: IsOldest(log, start, now, t) && r.retry_after == Max(1, (t + p.window as real - now).Floor))
    && (!r.allowed && used == 0 ==> r.retry_after == Max(1, p.window))
  }

  lemma {:induction false} WindowIsAfter(ts: seq<Time>, lo: real, hi: real)
    requires AllAtMost(ts, hi)
    ensures InWindow(ts, lo, hi) == |After(ts, lo)|
  {
    if ts != [] {
      WindowIsAfter(ts[1..], lo, hi);
    }
  }

  lemma {:induction false} FirstIsOldest(ts: seq<Time>, lo: real, hi: real)
    requires Sorted(ts) && AllAtMost(ts, hi) && After(ts, lo) != []
    ensures IsOldest(ts, lo, hi, After(ts, lo)[0])
  {
    assert forall u | u in ts :: u == ts[0] || u in ts[1..];
    if ts[0] <= lo {
      FirstIsOldest(ts[1..], lo, hi);
    } else {
      assert forall k | 0 <= k < |ts| :: ts[0] <= ts[k];
    }
  }

  lemma IdealAnswers(log: seq<Time>, p: Policy, now: Time)
    requires Sorted(log) && AllAtMost(log, now)
    ensures AnswersFor(p, log, now, Ideal(log, p, now).1)
  {
    var start := WindowStart(now, p);
    WindowIsAfter(log, start, now);
    if After(log, start) != [] {
      FirstIsOldest(log, start, now);
    }
  }

  /** After an admission the quota that is left and the admissions in the window make up the limit. */
  lemma RemainingCompletes(log: seq<Time>, p: Policy, now: Time)
    requires Sorted(log) && AllAtMost(log, now) && p.window >= 1 && Ideal(log, p, now).1.allowed
    ensures
      var (log', r) := Ideal(log, p, now);
      r.limit == p.limit && r.remaining + InWindow(log', now - p.window as real, now) == p.limit
  {
    IdealAnswers(log, p, now);
    AppendWindow(log, now, WindowStart(now, p), now);
  }

  // ---------- runs ----------

  /** Clock readings of the admitted checks. */
  function AdmittedOf(times: seq<Time>, results: seq<RateLimitResult>): seq<Time>
    requires |times| == |results|
  {
    if times == [] then []
    else (if results[0].allowed then [times[0]] else []) + AdmittedOf(times[1..], results[1..])
  }

  /** The log of a run is what its own answers have admitted. */
  lemma {:induction false} LogIsAdmitted(log: seq<Time>, p: Policy, times: seq<Time>)
    ensures |RunIdeal(log, p, times).1| == |times|
    ensures RunIdeal(log, p, times).0 == log + AdmittedOf(times, RunIdeal(log, p, times).1)
    decreases |times|
  {
    if times != [] {
      var (log', r) := Ideal(log, p, times[0]);
      LogIsAdmitted(log', p, times[1..]);
      assert ([r] + RunIdeal(log', p, times[1..]).1)[1..] == RunIdeal(log', p, times[1..]).1;
    }
  }

  lemma AdmittedFirst(times: seq<Time>, results: seq<RateLimitResult>, i: nat)
    requires |times| == |results| && 0 < i <= |times|
    ensures AdmittedOf(times[..i], results[..i]) ==
            (if results[0].allowed then [times[0]] else []) + AdmittedOf(times[1..][..i - 1], results[1..][..i - 1])
  {
    assert times[..i][1..] == times[1..][..i - 1] && results[..i][1..] == results[1..][..i - 1];
  }

  /** Every answer of a run is the one due after the admissions before it. */
  lemma {:induction false} IdealRunAnswers(log: seq<Time>, p: Policy, times: seq<Time>, i: nat)
    requires Sorted(log + times) && i < |times|
    ensures |RunIdeal(log, p, times).1| == |times|
    ensures
      var rs := RunIdeal(log, p, times).1;
      AnswersFor(p, log + AdmittedOf(times[..i], rs[..i]), times[i], rs[i])
    decreases |times|
  {
    LogIsAdmitted(log, p, times);
    var now := times[0];
    var (log', r) := Ideal(log, p, now);
    var rest := RunIdeal(log', p, times[1..]).1;
    var rs := RunIdeal(log, p, times).1;
    assert rs == [r] + rest;
    var all := log + times;
    if i == 0 {
      assert forall k | 0 <= k < |log| :: log[k] == all[k];
      assert all[|log|] == now;
      IdealAnswers(log, p, now);
      assert log + [] == log;
    } else {
      if r.allowed {
        assert log' + times[1..] == all;
      } else {
        SortedDrop(log, times);
      }
      IdealRunAnswers(log', p, times[1..], i - 1);
      AdmittedFirst(times, rs, i);
      assert rs[1..] == rest;
      assert log + AdmittedOf(times[..i], rs[..i]) == log' + AdmittedOf(times[1..][..i - 1], rest[..i - 1]);
    }
  }

  /** The in-memory path: each answer of a run from the empty list is the one due after the admissions before it. */
  lemma MemoryRunAnswers(p: Policy, times: seq<Time>, i: nat)
    requires Sorted(times) && i < |times|
    ensures |RunMemory([], p, times).1| == |times|
    ensures
      var rs := RunMemory([], p, times).1;
      AnswersFor(p, AdmittedOf(times[..i], rs[..i]), times[i], rs[i])
  {
    MemoryRefinesLog([], [], WindowStart(times[0], p), p, times);
    assert [] + times == times;
    IdealRunAnswers([], p, times, i);
    var rs := RunIdeal([], p, times).1;
    assert [] + AdmittedOf(times[..i], rs[..i]) == AdmittedOf(times[..i], rs[..i]);
  }

  /** The same for the Redis path, without failures and with calls in time. */
  lemma RedisRunAnswers(p: Policy, attempts: seq<Attempt>, i: nat)
    requires Sorted(Times(attempts)) && DistinctMembers([], attempts) && i < |attempts|
    requires AllPrompt(attempts, 5.0) && AllSettled(attempts)
    ensures |RunChecks(NO_STATE, p, attempts).1| == |attempts|
    ensures
      var times, rs := Times(attempts), RunChecks(NO_STATE, p, attempts).1;
      AnswersFor(p, AdmittedOf(times[..i], rs[..i]), times[i], rs[i])
  {
    ImplementationsAgree(p, attempts);
    MemoryRunAnswers(p, Times(attempts), i);
  }

  // ---------- the announced wait in a run ----------

  lemma {:induction false} RunMemoryConcat(ts: seq<Time>, p: Policy, first: seq<Time>, rest: seq<Time>)
    ensures RunMemory(ts, p, first + rest).0 == RunMemory(RunMemory(ts, p, first).0, p, rest).0
    ensures RunMemory(ts, p, first + rest).1 == RunMemory(ts, p, first).1 + RunMemory(RunMemory(ts, p, first).0, p, rest).1
    ensures |RunMemory(ts, p, first).1| == |first|
    decreases |first|
  {
    if first == [] {
      assert first + rest == rest;
    } else {
      RunMemoryConcat(InMemory(ts, p, first[0]).0, p, first[1..], rest);
      assert (first + rest)[1..] == first[1..] + rest;
    }
  }

  /** What the list is before check `i`, and what the check then answers. */
  lemma RunMemoryAt(ts: seq<Time>, p: Policy, times: seq<Time>, i: nat)
    requires i < |times|
    ensures |RunMemory(ts, p, times).1| == |times|
    ensures RunMemory(ts, p, times).1[..i] == RunMemory(ts, p, times[..i]).1
    ensures RunMemory(ts, p, times).1[i] == InMemory(RunMemory(ts, p, times[..i]).0, p, times[i]).1
    ensures RunMemory(ts, p, times[..i + 1]).0 == InMemory(RunMemory(ts, p, times[..i]).0, p, times[i]).0
  {
    var mid := RunMemory(ts, p, times[..i]).0;
    RunMemoryConcat(ts, p, times[..i], times[i..]);
    assert times[..i] + times[i..] == times;
    RunMemoryConcat(ts, p, times[..i], [times[i]]);
    assert times[..i] + [times[i]] == times[..i + 1] && [times[i]][1..] == [];
    RunMemoryConcat(ts, p, times, []);
    assert times + [] == times;
  }

  lemma SortedPrefix(times: seq<Time>, i: nat)
    requires Sorted(times) && i < |times|
    ensures Sorted(times[..i]) && (i > 0 ==> times[i - 1] <= times[i])
  {
  }

  /** The list of the in-memory path tells the same wait as the admissions of its own answers. */
  lemma WaitIsOfAdmitted(p: Policy, times: seq<Time>, i: nat)
    requires Sorted(times) && i < |times| && p.window >= 1
    ensures |RunMemory([], p, times).1| == |times|
    ensures Wait(RunMemory([], p, times[..i]).0, p, times[i])
            == Wait(AdmittedOf(times[..i], RunMemory([], p, times).1[..i]), p, times[i])
  {
    var before := times[..i];
    SortedPrefix(times, i);
    RunMemoryAt([], p, times, i);
    if i > 0 {
      MemoryRefinesLog([], [], WindowStart(before[0], p), p, before);
      LogIsAdmitted([], p, before);
      var log := RunIdeal([], p, before).0;
      assert [] + AdmittedOf(before, RunIdeal([], p, before).1) == AdmittedOf(before, RunIdeal([], p, before).1);
      AfterAfter(log, WindowStart(before[i - 1], p), WindowStart(times[i], p));
    }
  }

  /** From check `i` to check `j`. */
  lemma BetweenChecks(p: Policy, times: seq<Time>, i: nat, j: nat)
    requires i < j < |times|
    ensures RunMemory([], p, times[..j]).0
            == RunMemory(InMemory(RunMemory([], p, times[..i]).0, p, times[i]).0, p, times[i + 1..j]).0
  {
    RunMemoryAt([], p, times, i);
    RunMemoryConcat([], p, times[..i + 1], times[i + 1..j]);
    assert times[..i + 1] + times[i + 1..j] == times[..j];
  }

  lemma ReachedBefore(p: Policy, times: seq<Time>, i: nat) returns (last: real)
    requires Sorted(times) && i < |times|
    ensures ReachedMemory(RunMemory([], p, times[..i]).0, p, last) && last <= times[i]
  {
    last := if i == 0 then 0.0 else times[i - 1];
    SortedPrefix(times, i);
    MemoryStaysReached([], p, times[..i], 0.0);
  }

  /** A check of a run that is refused announces the wait d until its oldest admission leaves the window, in whole seconds and
      at least one: every later check before that moment is refused as well, and the first one from then on is admitted. */
  lemma WaitOfRun(p: Policy, times: seq<Time>, i: nat, j: nat)
    requires Sorted(times) && i < j < |times| && p.limit >= 1 && p.window >= 1
    requires |RunMemory([], p, times).1| == |times| && !RunMemory([], p, times).1[i].allowed
    requires
      var d := Wait(AdmittedOf(times[..i], RunMemory([], p, times).1[..i]), p, times[i]);
      forall k | i < k < j :: times[k] < times[i] + d
    ensures
      var rs := RunMemory([], p, times).1;
      var d := Wait(AdmittedOf(times[..i], rs[..i]), p, times[i]);
      && 0.0 < d <= p.window as real && rs[i].retry_after == Max(1, d.Floor)
      && (rs[j].allowed <==> times[j] >= times[i] + d)
  {
    var ts, between := RunMemory([], p, times[..i]).0, times[i + 1..j];
    WaitIsOfAdmitted(p, times, i);
    RunMemoryAt([], p, times, i);
    RunMemoryAt([], p, times, j);
    BetweenChecks(p, times, i, j);
    var last := ReachedBefore(p, times, i);
    assert forall k | 0 <= k < |between| :: between[k] == times[i + 1 + k];
    RetryAfterIsExact(ts, p, last, times[i], between, times[j]);
  }
}
