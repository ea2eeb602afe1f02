/** Serial checks by several server processes over one Redis, with arbitrary failures. A check as a whole is a run of
    the concurrent steps with one worker, so the window bound of every interleaving applies to it. */
module RateLimitFailover {
  import opened Redis
  import opened RateLimit
  import opened RateLimitRace
  import opened RateLimitTotal
  import opened Windows

  /** Redis and the memory of each process. */
  datatype Fleet = Fleet(zset: ZSet, memory: seq<seq<Time>>)

  datatype Request = Request(proc: nat, attempt: Attempt)

  function Serve(f: Fleet, p: Policy, r: Request): (Fleet, RateLimitResult)
    requires r.proc < |f.memory|
  {
    var (s, result) := Check(KeyState(f.zset, f.memory[r.proc]), p, r.attempt);
    (Fleet(s.zset, f.memory[r.proc := s.memory]), result)
  }

  function EndOf(a: Attempt): Time {
    Later(a.add.at, a.range.at)
  }

  /** The calls of an attempt happen in order; a count reply comes within the delay after the clock read. */
  predicate Timely(a: Attempt, delay: Time) {
    && a.now <= a.count.at <= a.add.at && a.count.at <= a.range.at
    && (a.count.Reply? ==> a.count.at <= a.now + delay)
  }

  /** Requests are served one after the other, and each builds a member the sorted set does not hold. */
  ghost predicate Serial(f: Fleet, p: Policy, clock: Time, requests: seq<Request>, delay: Time)
    decreases |requests|
  {
    requests == [] ||
    (var r := requests[0];
     && r.proc < |f.memory| && clock <= r.attempt.now && Timely(r.attempt, delay)
     && Member(r.attempt.now, r.attempt.nonce) !in f.zset.members
     && Serial(Serve(f, p, r).0, p, EndOf(r.attempt), requests[1..], delay))
  }

  /** Clock readings of the admitted requests. */
  function Admissions(f: Fleet, p: Policy, requests: seq<Request>): seq<Time>
    decreases |requests|
  {
    if requests == [] || requests[0].proc >= |f.memory| then []
    else
      var (f', result) := Serve(f, p, requests[0]);
      (if result.allowed then [requests[0].attempt.now] else []) + Admissions(f', p, requests[1..])
  }

  /** The machine between two serial checks. */
  ghost predicate AtRest(c: Config, s: State, f: Fleet) {
    Indexed(c, s) && s.workers == [Idle] && s.zset == f.zset && s.memory == f.memory
  }

  // ---------- one check is a run of steps ----------

  function Opening(s: State, r: Request): seq<Action> {
    var a := r.attempt;
    [Tick(if s.clock < a.now then a.now - s.clock else 0.0), Begin(0, r.proc),
     Tick(if a.now < a.count.at then a.count.at - a.now else 0.0)]
  }

  lemma OpeningRuns(c: Config, s: State, f: Fleet, r: Request)
    requires AtRest(c, s, f) && r.proc < c.processes && c.workers == 1
    requires s.clock <= r.attempt.now && Timely(r.attempt, c.delay)
    ensures Run(c, s, Opening(s, r)) ==
            s.(clock := r.attempt.count.at, workers := [Reading(r.proc, r.attempt.now)])
  {
    var a, script := r.attempt, Opening(s, r);
    var s1 := s.(clock := a.now);
    var s2 := s1.(workers := [Reading(r.proc, a.now)]);
    RunStep(c, s, script[0], script[1..]);
    RunStep(c, s1, script[1], script[2..]);
    RunStep(c, s2, script[2], []);
  }

  /** What a step by worker 0 must look like to be the end of a check with this result. */
  ghost predicate Ends(c: Config, s: State, s': State, f': Fleet, r: Request, allowed: bool) {
    && AtRest(c, s', f')
    && s'.clock <= EndOf(r.attempt)
    && ((s'.viaRedis == s.viaRedis + (if allowed then [r.attempt.now] else []) && s'.viaMemory == s.viaMemory)
        || (s'.viaRedis == s.viaRedis && r.proc < |s.viaMemory| &&
            s'.viaMemory == s.viaMemory[r.proc := s.viaMemory[r.proc] + (if allowed then [r.attempt.now] else [])]))
  }

  lemma TwoSteps(c: Config, s: State, a: Action, elapsed: Time, b: Action)
    ensures Run(c, s, [a, Tick(elapsed), b]) == Exec(c, Exec(c, Exec(c, s, a), Tick(elapsed)), b)
  {
    var s1 := Exec(c, s, a);
    RunStep(c, s, a, [Tick(elapsed), b]);
    RunStep(c, s1, Tick(elapsed), [b]);
    RunStep(c, Exec(c, s1, Tick(elapsed)), b, []);
  }

  lemma CountFaults(c: Config, s: State, f: Fleet, r: Request) returns (closing: seq<Action>)
    requires AtRest(c, s, f) && r.proc < c.processes && c.workers == 1 && Timely(r.attempt, c.delay) && r.attempt.count.Fault?
    ensures
      var counting := s.(clock := r.attempt.count.at, workers := [Reading(r.proc, r.attempt.now)]);
      var (f', result) := Serve(f, c.Policy(), r);
      Ends(c, s, Run(c, counting, closing), f', r, result.allowed)
  {
    var counting := s.(clock := r.attempt.count.at, workers := [Reading(r.proc, r.attempt.now)]);
    closing := [CountFault(0, r.attempt.count.applied)];
    RunStep(c, counting, closing[0], []);
    assert closing == [closing[0]] + [];
  }

  lemma CountAdmits(c: Config, s: State, f: Fleet, r: Request) returns (closing: seq<Action>)
    requires AtRest(c, s, f) && r.proc < c.processes && c.workers == 1 && Timely(r.attempt, c.delay) && r.attempt.count.Reply?
    requires Member(r.attempt.now, r.attempt.nonce) !in f.zset.members
    requires |Pruned(s.zset, r.attempt.count.at, WindowStart(r.attempt.now, c.Policy())).members| < c.limit
    ensures
      var counting := s.(clock := r.attempt.count.at, workers := [Reading(r.proc, r.attempt.now)]);
      var (f', result) := Serve(f, c.Policy(), r);
      Ends(c, s, Run(c, counting, closing), f', r, result.allowed)
  {
    var a, m := r.attempt, Member(r.attempt.now, r.attempt.nonce);
    var counting := s.(clock := a.count.at, workers := [Reading(r.proc, a.now)]);
    var z := Pruned(s.zset, a.count.at, WindowStart(a.now, c.Policy()));
    if m in z.members {
      RemovedMembers(Live(s.zset, a.count.at), 0.0, WindowStart(a.now, c.Policy()), m);
    }
    var last := if a.add.Reply? then AddReply(0, a.nonce) else AddFault(0, a.nonce, a.add.applied);
    closing := [CountReply(0), Tick(a.add.at - a.count.at), last];
    TwoSteps(c, counting, CountReply(0), a.add.at - a.count.at, last);
  }

  lemma CountRefuses(c: Config, s: State, f: Fleet, r: Request) returns (closing: seq<Action>)
    requires AtRest(c, s, f) && r.proc < c.processes && c.workers == 1 && Timely(r.attempt, c.delay) && r.attempt.count.Reply?
    requires |Pruned(s.zset, r.attempt.count.at, WindowStart(r.attempt.now, c.Policy())).members| >= c.limit
    ensures
      var counting := s.(clock := r.attempt.count.at, workers := [Reading(r.proc, r.attempt.now)]);
      var (f', result) := Serve(f, c.Policy(), r);
      Ends(c, s, Run(c, counting, closing), f', r, result.allowed)
  {
    var a := r.attempt;
    var counting := s.(clock := a.count.at, workers := [Reading(r.proc, a.now)]);
    var last := if a.range.Reply? then RangeReply(0) else RangeFault(0);
    closing := [CountReply(0), Tick(a.range.at - a.count.at), last];
    TwoSteps(c, counting, CountReply(0), a.range.at - a.count.at, last);
  }

  /** A whole check is a run of machine steps: same stores, and one more admission exactly when it is allowed. */
  lemma CheckIsRun(c: Config, s: State, f: Fleet, r: Request) returns (actions: seq<Action>)
    requires AtRest(c, s, f) && r.proc < c.processes && c.workers == 1
    requires s.clock <= r.attempt.now && Timely(r.attempt, c.delay)
    requires Member(r.attempt.now, r.attempt.nonce) !in f.zset.members
    ensures
      var (f', result) := Serve(f, c.Policy(), r);
      Ends(c, s, Run(c, s, actions), f', r, result.allowed)
  {
    OpeningRuns(c, s, f, r);
    var closing;
    if r.attempt.count.Fault? {
      closing := CountFaults(c, s, f, r);
    } else if |Pruned(s.zset, r.attempt.count.at, WindowStart(r.attempt.now, c.Policy())).members| < c.limit {
      closing := CountAdmits(c, s, f, r);
    } else {
      closing := CountRefuses(c, s, f, r);
    }
    actions := Opening(s, r) + closing;
    RunConcat(c, s, Opening(s, r), closing);
  }

  // ---------- the bound for serial runs ----------

  lemma {:induction false} MemoryTotalAppend(c: Config, s: State, s': State, e: real, q: nat, more: seq<Time>, n: nat)
    requires q < |s.viaMemory| && n <= |s.viaMemory| && |more| <= 1
    requires s'.viaMemory == s.viaMemory[q := s.viaMemory[q] + more]
    ensures MemoryTotal(c, s', e, n) ==
            MemoryTotal(c, s, e, n) + if q < n then InWindow(more, Start(c, e), e) else 0
  {
    if n > 0 {
      MemoryTotalAppend(c, s, s', e, q, more, n - 1);
      AppendSome(s.viaMemory[q], more, Start(c, e), e);
    }
  }

  lemma AppendSome(ts: seq<Time>, more: seq<Time>, lo: real, hi: real)
    requires |more| <= 1
    ensures InWindow(ts + more, lo, hi) == InWindow(ts, lo, hi) + InWindow(more, lo, hi)
  {
    if more == [] {
      assert ts + more == ts;
    } else {
      assert more == [more[0]];
      AppendWindow(ts, more[0], lo, hi);
    }
  }

  lemma EndsCounts(c: Config, s: State, s': State, f': Fleet, r: Request, allowed: bool, e: real)
    requires Indexed(c, s) && Ends(c, s, s', f', r, allowed)
    ensures AdmittedIn(c, s', e) ==
            AdmittedIn(c, s, e) + InWindow(if allowed then [r.attempt.now] else [], Start(c, e), e)
  {
    var more := if allowed then [r.attempt.now] else [];
    if s'.viaRedis == s.viaRedis + more && s'.viaMemory == s.viaMemory {
      AppendSome(s.viaRedis, more, Start(c, e), e);
      MemoryTotalSame(c, s, s', e, |s.viaMemory|);
    } else {
      MemoryTotalAppend(c, s, s', e, r.proc, more, |s.viaMemory|);
    }
  }

  lemma {:induction false} SerialRun(c: Config, before: seq<Action>, f: Fleet, requests: seq<Request>, e: real)
    requires c.workers == 1 && AtRest(c, Run(c, Init(c), before), f)
    requires Serial(f, c.Policy(), Run(c, Init(c), before).clock, requests, c.delay)
    ensures AdmittedIn(c, Run(c, Init(c), before), e) + InWindow(Admissions(f, c.Policy(), requests), Start(c, e), e)
            <= (c.processes + 1) * c.limit + c.Slack()
    decreases |requests|
  {
    var s := Run(c, Init(c), before);
    if requests == [] {
      SerialWindowBound(c, before, e);
    } else {
      var r := requests[0];
      var actions := CheckIsRun(c, s, f, r);
      RunConcat(c, Init(c), before, actions);
      var s' := Run(c, s, actions);
      var (f', result) := Serve(f, c.Policy(), r);
      EndsCounts(c, s, s', f', r, result.allowed, e);
      SerialMonotone(f', c.Policy(), s'.clock, EndOf(r.attempt), requests[1..], c.delay);
      SerialRun(c, before + actions, f', requests[1..], e);
      var more := if result.allowed then [r.attempt.now] else [];
      ConcatWindow(more, Admissions(f', c.Policy(), requests[1..]), Start(c, e), e);
    }
  }

  lemma SerialMonotone(f: Fleet, p: Policy, early: Time, late: Time, requests: seq<Request>, delay: Time)
    requires early <= late && Serial(f, p, late, requests, delay)
    ensures Serial(f, p, early, requests, delay)
  {
  }

  lemma ConcatWindow(more: seq<Time>, ts: seq<Time>, lo: real, hi: real)
    requires |more| <= 1
    ensures InWindow(more + ts, lo, hi) == InWindow(more, lo, hi) + InWindow(ts, lo, hi)
  {
    if more == [] {
      assert more + ts == ts;
    } else {
      assert (more + ts)[1..] == ts && more[1..] == [];
    }
  }

  function Fresh(processes: nat): Fleet {
    Fleet(NO_ZSET, seq(processes, _ => []))
  }

  lemma StartsAtRest(c: Config)
    requires c.workers == 1
    ensures Run(c, Init(c), []) == Init(c) && AtRest(c, Init(c), Fresh(c.processes)) && Init(c).clock == 0.0
  {
    assert Init(c).workers == [Idle];
  }

  /** P processes share Redis and serve checks one at a time. Whatever fails (the count before or after it applied,
      the add before or after it applied, the zrange), any window holds at most (P+1) * limit admissions, twice the limit for
      a single process, and one more if counts may come later than five seconds after their clock reads. */
  lemma FailoverBound(limit: nat, window: nat, processes: nat, delay: Time, requests: seq<Request>, e: real)
    requires Serial(Fresh(processes), Policy(limit, window), 0.0, requests, delay)
    ensures InWindow(Admissions(Fresh(processes), Policy(limit, window), requests), e - window as real, e)
            <= (processes + 1) * limit + if delay <= 5.0 then 0 else 1
  {
    var c := Config(limit, window, processes, 1, delay);
    StartsAtRest(c);
    SerialRun(c, [], Fresh(processes), requests, e);
  }

  // ---------- the bound is attained ----------

  /** A check at clock 0 for which everything works. */
  function Healthy(nonce: int): Request {
    Request(0, Attempt(0.0, nonce, Reply(0.0), Reply(0.0), Reply(0.0)))
  }

  /** A check at clock 0 by process `q` while Redis is down. */
  function Down(q: nat): Request {
    Request(q, Attempt(0.0, -1, Fault(0.0, false), Reply(0.0), Reply(0.0)))
  }

  /** Redis holds `k` admissions at clock 0; the processes before `q` are full, `q` has `m`, the others none. */
  ghost predicate Filled(f: Fleet, limit: nat, processes: nat, k: nat, q: nat, m: nat) {
    && |f.zset.members| == k && (k > 0 ==> f.zset.expireAt > 0.0)
    && (forall x | x in f.zset.members :: x.score == 0.0 && 0 <= x.nonce < k)
    && |f.memory| == processes
    && (forall i | 0 <= i < processes ::
          AllAtZero(f.memory[i]) && |f.memory[i]| == if i < q then limit else if i == q then m else 0)
  }

  lemma {:induction false} RemoveNothing(ms: seq<Member>, hi: real)
    requires hi < 0.0
    ensures RemRangeByScore(ms, 0.0, hi) == ms
  {
    if ms != [] {
      RemoveNothing(ms[1..], hi);
    }
  }

  lemma HealthyAdmits(f: Fleet, p: Policy, processes: nat, k: nat)
    requires p.window >= 1 && processes >= 1 && k < p.limit && Filled(f, p.limit, processes, k, 0, 0)
    ensures
      var (f', r) := Serve(f, p, Healthy(k));
      r.allowed && Filled(f', p.limit, processes, k + 1, 0, 0)
  {
    var m, z := Member(0.0, k), f.zset;
    RemoveNothing(Live(z, 0.0), WindowStart(0.0, p));
    assert Live(z, 0.0) == z.members;
    InsertLength(z.members, m);
    var f' := Serve(f, p, Healthy(k)).0;
    assert f'.memory == f.memory;
    forall x | x in f'.zset.members ensures x == m || x in z.members {
      InsertedMembers(z.members, m, x);
    }
  }

  lemma DownAdmits(f: Fleet, p: Policy, processes: nat, k: nat, q: nat, m: nat)
    requires p.window >= 1 && q < processes && m < p.limit && Filled(f, p.limit, processes, k, q, m)
    ensures
      var (f', r) := Serve(f, p, Down(q));
      r.allowed && Filled(f', p.limit, processes, k, q, m + 1)
  {
    AfterZero(f.memory[q], WindowStart(0.0, p));
  }

  /** One request in front of the others. */
  lemma ServeFirst(f: Fleet, p: Policy, r: Request, rest: seq<Request>, lo: real, delay: Time)
    requires r.proc < |f.memory| && r.attempt.now == 0.0 && Timely(r.attempt, delay) && EndOf(r.attempt) == 0.0
    requires Member(0.0, r.attempt.nonce) !in f.zset.members && Serve(f, p, r).1.allowed && lo < 0.0
    requires Serial(Serve(f, p, r).0, p, 0.0, rest, delay)
    ensures Serial(f, p, 0.0, [r] + rest, delay)
    ensures InWindow(Admissions(f, p, [r] + rest), lo, 0.0) == 1 + InWindow(Admissions(Serve(f, p, r).0, p, rest), lo, 0.0)
  {
    assert ([r] + rest)[1..] == rest;
    ConcatWindow([0.0], Admissions(Serve(f, p, r).0, p, rest), lo, 0.0);
    assert [0.0 as Time][1..] == [];
  }

  /** `n` times the limit. */
  function Room(limit: nat, n: nat): (r: nat)
    ensures r == n * limit
  {
    if n == 0 then 0 else Room(limit, n - 1) + limit
  }

  /** With Redis down, every process admits its whole limit from its own memory. */
  lemma {:induction false} FillMemories(f: Fleet, p: Policy, processes: nat, k: nat, q: nat, m: nat, delay: Time)
    returns (requests: seq<Request>)
    requires p.window >= 1 && p.limit >= 0 && q <= processes && m <= p.limit && (q == processes ==> m == 0)
    requires Filled(f, p.limit, processes, k, q, m)
    ensures Serial(f, p, 0.0, requests, delay)
    ensures InWindow(Admissions(f, p, requests), WindowStart(0.0, p), 0.0) == Room(p.limit, processes - q) - m
    decreases processes - q, p.limit - m
  {
    if q == processes {
      requests := [];
    } else if m == p.limit {
      requests := FillMemories(f, p, processes, k, q + 1, 0, delay);
    } else {
      DownAdmits(f, p, processes, k, q, m);
      requests := FillMemories(Serve(f, p, Down(q)).0, p, processes, k, q, m + 1, delay);
      ServeFirst(f, p, Down(q), requests, WindowStart(0.0, p), delay);
      requests := [Down(q)] + requests;
    }
  }

  lemma {:induction false} FillRedis(f: Fleet, p: Policy, processes: nat, k: nat, delay: Time)
    returns (requests: seq<Request>)
    requires p.window >= 1 && processes >= 1 && k <= p.limit && Filled(f, p.limit, processes, k, 0, 0)
    ensures Serial(f, p, 0.0, requests, delay)
    ensures InWindow(Admissions(f, p, requests), WindowStart(0.0, p), 0.0) == Room(p.limit, processes) + p.limit - k
    decreases p.limit - k
  {
    if k == p.limit {
      requests := FillMemories(f, p, processes, k, 0, 0, delay);
    } else {
      HealthyAdmits(f, p, processes, k);
      requests := FillRedis(Serve(f, p, Healthy(k)).0, p, processes, k + 1, delay);
      ServeFirst(f, p, Healthy(k), requests, WindowStart(0.0, p), delay);
      requests := [Healthy(k)] + requests;
    }
  }

  /** For every limit, window and number of processes an outage can let (P+1) * limit requests through one window:
      FailoverBound cannot be improved. */
  lemma FailoverBoundIsAttained(limit: nat, window: nat, processes: nat, delay: Time) returns (requests: seq<Request>)
    requires window >= 1 && processes >= 1
    ensures Serial(Fresh(processes), Policy(limit, window), 0.0, requests, delay)
    ensures InWindow(Admissions(Fresh(processes), Policy(limit, window), requests), 0.0 - window as real, 0.0)
            == (processes + 1) * limit
  {
    requests := FillRedis(Fresh(processes), Policy(limit, window), processes, 0, delay);
    assert Room(limit, processes + 1) == Room(limit, processes) + limit;
  }
}
