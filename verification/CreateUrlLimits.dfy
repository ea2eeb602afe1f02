/** The rate limit of POST /api/v1/urls over serial runs: how many requests of a client get past it, whom it refuses, and for
    how long. */
module CreateUrlLimits {
  import opened Redis
  import opened Keys
  import opened RateLimit
  import opened RateLimitRuns
  import opened RateLimitAnswers
  import opened Windows
  import opened CreateUrl
  import opened IdempotencyRuns
  import opened CreateUrlReplies
  import Limiter = RateLimitFailover
  import Refusals = RateLimitRefusals

  /** A request of the client, whether or not it dies later. */
  predicate Asks(e: Event, client: string) {
    (e.Request? || e.Death?) && Client(e.post) == client
  }

  ghost predicate AllServable(c: Settings, events: seq<Event>) {
    forall i | 0 <= i < |events| :: Servable(c, events[i])
  }

  /** The checks of the client's requests. */
  function AttemptsBy(events: seq<Event>, client: string): seq<Attempt> {
    if events == [] then []
    else (if Asks(events[0], client) then [events[0].post.attempt] else []) + AttemptsBy(events[1..], client)
  }

  /** The replies to them; a request that dies may lose its reply. */
  function RepliesTo(c: Settings, sys: System, events: seq<Event>, client: string): (replies: seq<Reply>)
    requires AllServable(c, events)
    ensures |replies| == |AttemptsBy(events, client)|
    decreases |events|
  {
    if events == [] then []
    else
      (if Asks(events[0], client) then [Serve(c, sys, events[0].post).1] else [])
      + RepliesTo(c, Step(c, sys, events[0]), events[1..], client)
  }

  /** Clock readings of the requests that get a reply other than 429. */
  function PassedOf(times: seq<Time>, replies: seq<Reply>): seq<Time>
    requires |times| == |replies|
  {
    if times == [] then []
    else (if replies[0].TooManyRequests? then [] else [times[0]]) + PassedOf(times[1..], replies[1..])
  }

  function PolicyOf(c: Settings): Policy {
    Policy(c.limit, c.window)
  }

  function StateOfClient(sys: System, client: string): KeyState {
    StateAt(sys.limits, LimitKey("url_create", client))
  }

  // ---------- the client's requests are a run of its checks ----------

  /** Only a request of the client touches its limiter state. */
  lemma StepChecks(c: Settings, sys: System, e: Event, client: string)
    requires Servable(c, e)
    ensures
      var state := StateOfClient(sys, client);
      StateOfClient(Step(c, sys, e), client) ==
      if Asks(e, client) then Check(state, PolicyOf(c), e.post.attempt).0 else state
  {
    if e.Request? || e.Death? {
      RefusalChangesNothing(c, sys, e.post);
      LimitKeyInjective("url_create", client, "url_create", Client(e.post));
    }
  }

  /** The replies say what the checks decide. */
  ghost predicate Reports(replies: seq<Reply>, results: seq<RateLimitResult>) {
    && |replies| == |results|
    && forall i | 0 <= i < |replies| ::
         && (replies[i].TooManyRequests? <==> !results[i].allowed)
         && (replies[i].TooManyRequests? ==> replies[i].retryAfter == results[i].retry_after)
  }

  lemma ReportsCons(reply: Reply, replies: seq<Reply>, r: RateLimitResult, results: seq<RateLimitResult>)
    requires Reports(replies, results) && Reports([reply], [r])
    ensures Reports([reply] + replies, [r] + results)
  {
  }

  lemma ReplyReports(c: Settings, sys: System, e: Event, client: string)
    requires Servable(c, e) && Asks(e, client)
    ensures Reports([Serve(c, sys, e.post).1], [Check(StateOfClient(sys, client), PolicyOf(c), e.post.attempt).1])
  {
    RefusalChangesNothing(c, sys, e.post);
  }

  lemma {:induction false} RunReports(c: Settings, sys: System, events: seq<Event>, client: string)
    requires AllServable(c, events)
    ensures Reports(RepliesTo(c, sys, events, client),
                    RunChecks(StateOfClient(sys, client), PolicyOf(c), AttemptsBy(events, client)).1)
    ensures StateOfClient(RunEvents(c, sys, events), client) ==
            RunChecks(StateOfClient(sys, client), PolicyOf(c), AttemptsBy(events, client)).0
    decreases |events|
  {
    if events != [] {
      var e, rest, sys' := events[0], events[1..], Step(c, sys, events[0]);
      StepChecks(c, sys, e, client);
      RunReports(c, sys', rest, client);
      if Asks(e, client) {
        var state, a := StateOfClient(sys, client), e.post.attempt;
        ReplyReports(c, sys, e, client);
        assert AttemptsBy(events, client)[1..] == AttemptsBy(rest, client);
        ReportsCons(Serve(c, sys, e.post).1, RepliesTo(c, sys', rest, client), Check(state, PolicyOf(c), a).1,
                    RunChecks(Check(state, PolicyOf(c), a).0, PolicyOf(c), AttemptsBy(rest, client)).1);
      } else {
        assert [] + AttemptsBy(rest, client) == AttemptsBy(rest, client);
        assert [] + RepliesTo(c, sys', rest, client) == RepliesTo(c, sys', rest, client);
      }
    }
  }

  lemma {:induction false} PassedIsAdmitted(times: seq<Time>, replies: seq<Reply>, results: seq<RateLimitResult>)
    requires |times| == |replies| && Reports(replies, results)
    ensures PassedOf(times, replies) == AdmittedOf(times, results)
  {
    if times != [] {
      PassedIsAdmitted(times[1..], replies[1..], results[1..]);
    }
  }

  // ---------- the checks of one process are serial checks of a fleet of one ----------

  function RequestsOf(attempts: seq<Attempt>): seq<Limiter.Request> {
    if attempts == [] then [] else [Limiter.Request(0, attempts[0])] + RequestsOf(attempts[1..])
  }

  function Alone(s: KeyState): Limiter.Fleet {
    Limiter.Fleet(s.zset, [s.memory])
  }

  lemma AloneServes(s: KeyState, p: Policy, a: Attempt)
    ensures Limiter.Serve(Alone(s), p, Limiter.Request(0, a)) == (Alone(Check(s, p, a).0), Check(s, p, a).1)
  {
    var memory := Check(s, p, a).0.memory;
    assert KeyState(s.zset, Alone(s).memory[0]) == s && [s.memory][0 := memory] == [memory];
  }

  lemma {:induction false} AloneRuns(s: KeyState, p: Policy, attempts: seq<Attempt>)
    ensures |RunChecks(s, p, attempts).1| == |attempts|
    ensures Limiter.Admissions(Alone(s), p, RequestsOf(attempts)) == AdmittedOf(Times(attempts), RunChecks(s, p, attempts).1)
    ensures Refusals.ServeAll(Alone(s), p, RequestsOf(attempts)) == Alone(RunChecks(s, p, attempts).0)
    decreases |attempts|
  {
    if attempts != [] {
      var s', r := Check(s, p, attempts[0]).0, Check(s, p, attempts[0]).1;
      AloneServes(s, p, attempts[0]);
      AloneRuns(s', p, attempts[1..]);
      assert RequestsOf(attempts)[1..] == RequestsOf(attempts[1..]);
      assert Times(attempts)[1..] == Times(attempts[1..]);
      assert ([r] + RunChecks(s', p, attempts[1..]).1)[1..] == RunChecks(s', p, attempts[1..]).1;
    }
  }

  lemma AloneIsFresh()
    ensures Alone(NO_STATE) == Limiter.Fresh(1)
  {
  }

  // ---------- replies that report a run of checks ----------

  lemma {:induction false} ReportedAdmissions(p: Policy, attempts: seq<Attempt>, replies: seq<Reply>)
    requires Reports(replies, RunChecks(NO_STATE, p, attempts).1)
    ensures |replies| == |attempts|
    ensures PassedOf(Times(attempts), replies) == Limiter.Admissions(Limiter.Fresh(1), p, RequestsOf(attempts))
  {
    AloneRuns(NO_STATE, p, attempts);
    AloneIsFresh();
    PassedIsAdmitted(Times(attempts), replies, RunChecks(NO_STATE, p, attempts).1);
  }

  /** The limiter's calls all work and come in time. */
  ghost predicate Healthy(attempts: seq<Attempt>) {
    Sorted(Times(attempts)) && DistinctMembers([], attempts) && AllPrompt(attempts, 5.0) && AllSettled(attempts)
  }

  lemma {:induction false} ReportedBefore(times: seq<Time>, replies: seq<Reply>, results: seq<RateLimitResult>, i: nat)
    requires |times| == |replies| && Reports(replies, results) && i <= |times|
    ensures PassedOf(times[..i], replies[..i]) == AdmittedOf(times[..i], results[..i])
  {
    PassedIsAdmitted(times[..i], replies[..i], results[..i]);
  }

  /** At most `bound` requests got past the limiter in the window that ends at `e`. */
  ghost predicate PassedAtMost(p: Policy, times: seq<Time>, replies: seq<Reply>, e: real, bound: int) {
    |replies| == |times| && InWindow(PassedOf(times, replies), e - p.window as real, e) <= bound
  }

  /** Request `i` is answered 429 exactly if a full limit of the requests before it got past the limiter in its window. */
  ghost predicate RefusedIfFull(p: Policy, times: seq<Time>, replies: seq<Reply>, i: nat) {
    && |replies| == |times| && i < |replies|
    && (replies[i].TooManyRequests? <==>
        InWindow(PassedOf(times[..i], replies[..i]), times[i] - p.window as real, times[i]) >= p.limit)
  }

  /** Seconds from request `i` until the oldest admission in its window leaves it. */
  function WaitAt(p: Policy, times: seq<Time>, replies: seq<Reply>, i: nat): real
    requires i < |times| == |replies|
  {
    Wait(PassedOf(times[..i], replies[..i]), p, times[i])
  }

  /** If request `i` is answered 429, it carries the wait d in whole seconds, at least one; the first request from then on is
      not answered 429, and any other before is. */
  ghost predicate RefusedForTheWait(p: Policy, times: seq<Time>, replies: seq<Reply>, i: nat, j: nat) {
    && |replies| == |times| && i < j < |replies|
    && var d := WaitAt(p, times, replies, i);
       replies[i].TooManyRequests? ==>
         && 0.0 < d <= p.window as real && replies[i].retryAfter == Max(1, d.Floor)
         && ((forall k | i < k < j :: times[k] < times[i] + d) ==>
               (replies[j].TooManyRequests? <==> times[j] < times[i] + d))
  }

  /** A request that is refused after these needs a full limit of requests that got past the limiter in its window, or of
      refused checks there whose add Redis had applied without a word. */
  ghost predicate RefusalBacked(p: Policy, attempts: seq<Attempt>, replies: seq<Reply>, now: Time, reply: Reply) {
    && |replies| == |attempts|
    && (reply.TooManyRequests? ==>
          InWindow(PassedOf(Times(attempts), replies), now - p.window as real, now)
          + InWindow(Refusals.UnrecordedOf(Limiter.Fresh(1), p, RequestsOf(attempts)), now - p.window as real, now)
          >= p.limit)
  }

  lemma {:induction false} ReportedWithinLimit(p: Policy, attempts: seq<Attempt>, replies: seq<Reply>, e: real)
    requires Reports(replies, RunChecks(NO_STATE, p, attempts).1) && |replies| == |attempts|
    requires Healthy(attempts) && p.limit >= 0
    ensures PassedAtMost(p, Times(attempts), replies, e, p.limit)
  {
    var times := Times(attempts);
    var rs := RunIdeal([], p, times).1;
    ImplementationsAgree(p, attempts);
    PassedIsAdmitted(times, replies, rs);
    LogIsAdmitted([], p, times);
    assert [] + times == times && [] + AdmittedOf(times, rs) == AdmittedOf(times, rs);
    IdealWindowBound([], p, times, e);
  }

  lemma {:induction false} ReportedBound(p: Policy, attempts: seq<Attempt>, replies: seq<Reply>, delay: Time, e: real)
    requires Reports(replies, RunChecks(NO_STATE, p, attempts).1) && p.limit >= 0 && p.window >= 0
    requires Limiter.Serial(Limiter.Fresh(1), p, 0.0, RequestsOf(attempts), delay)
    ensures PassedAtMost(p, Times(attempts), replies, e, 2 * p.limit + if delay <= 5.0 then 0 else 1)
  {
    ReportedAdmissions(p, attempts, replies);
    Limiter.FailoverBound(p.limit, p.window, 1, delay, RequestsOf(attempts), e);
  }

  lemma AnsweredIfFull(p: Policy, times: seq<Time>, replies: seq<Reply>, results: seq<RateLimitResult>, i: nat)
    requires |times| == |replies| && Reports(replies, results) && i < |times|
    requires AnswersFor(p, AdmittedOf(times[..i], results[..i]), times[i], results[i])
    ensures RefusedIfFull(p, times, replies, i)
  {
    ReportedBefore(times, replies, results, i);
  }

  lemma {:induction false} ReportedIfFull(p: Policy, attempts: seq<Attempt>, replies: seq<Reply>, i: nat)
    requires Reports(replies, RunChecks(NO_STATE, p, attempts).1) && |replies| == |attempts|
    requires Healthy(attempts) && i < |attempts|
    ensures RefusedIfFull(p, Times(attempts), replies, i)
  {
    RedisRunAnswers(p, attempts, i);
    AnsweredIfFull(p, Times(attempts), replies, RunChecks(NO_STATE, p, attempts).1, i);
  }

  lemma {:induction false} ReportedForTheWait(p: Policy, attempts: seq<Attempt>, replies: seq<Reply>, i: nat, j: nat)
    requires Reports(replies, RunChecks(NO_STATE, p, attempts).1) && |replies| == |attempts|
    requires Healthy(attempts) && p.limit >= 1 && p.window >= 1 && i < j < |attempts|
    ensures RefusedForTheWait(p, Times(attempts), replies, i, j)
  {
    var times := Times(attempts);
    ImplementationsAgree(p, attempts);
    ReportedBefore(times, replies, RunMemory([], p, times).1, i);
    if replies[i].TooManyRequests? {
      WaitOfRun(p, times, i, i + 1);
      if forall k | i < k < j :: times[k] < times[i] + WaitAt(p, times, replies, i) {
        WaitOfRun(p, times, i, j);
      }
    }
  }

  // ---------- with any failures ----------

  /** Whatever fails: in any window at most twice the limit of a client's requests get a reply other than 429, and one more if
      counts may come later than five seconds after their clock reads. */
  lemma PostsBound(c: Settings, sys: System, events: seq<Event>, client: string, delay: Time, e: real)
    requires AllServable(c, events) && c.limit >= 0 && c.window >= 0 && StateOfClient(sys, client) == NO_STATE
    requires Limiter.Serial(Limiter.Fresh(1), PolicyOf(c), 0.0, RequestsOf(AttemptsBy(events, client)), delay)
    ensures PassedAtMost(PolicyOf(c), Times(AttemptsBy(events, client)), RepliesTo(c, sys, events, client), e,
                         2 * c.limit + if delay <= 5.0 then 0 else 1)
  {
    RunReports(c, sys, events, client);
    ReportedBound(PolicyOf(c), AttemptsBy(events, client), RepliesTo(c, sys, events, client), delay, e);
  }

  lemma NextReports(c: Settings, sys: System, events: seq<Event>, post: Post)
    requires AllServable(c, events) && |post.draws| >= c.retries && StateOfClient(sys, Client(post)) == NO_STATE
    ensures Reports([Serve(c, RunEvents(c, sys, events), post).1],
                    [Check(RunChecks(NO_STATE, PolicyOf(c), AttemptsBy(events, Client(post))).0, PolicyOf(c), post.attempt).1])
  {
    RunReports(c, sys, events, Client(post));
    ReplyReports(c, RunEvents(c, sys, events), Request(post), Client(post));
  }

  lemma {:induction false} ReportedDecision(p: Policy, attempts: seq<Attempt>, attempt: Attempt, reply: Reply)
    requires Reports([reply], [Check(RunChecks(NO_STATE, p, attempts).0, p, attempt).1])
    ensures
      var f := Refusals.ServeAll(Limiter.Fresh(1), p, RequestsOf(attempts));
      |f.memory| == 1 && (reply.TooManyRequests? ==> !Limiter.Serve(f, p, Limiter.Request(0, attempt)).1.allowed)
  {
    AloneRuns(NO_STATE, p, attempts);
    AloneIsFresh();
    AloneServes(RunChecks(NO_STATE, p, attempts).0, p, attempt);
    assert reply.TooManyRequests? == [reply][0].TooManyRequests?;
  }

  lemma {:induction false} ReportedRefusal(p: Policy, attempts: seq<Attempt>, replies: seq<Reply>, attempt: Attempt,
                                           reply: Reply)
    requires Reports(replies, RunChecks(NO_STATE, p, attempts).1)
    requires Reports([reply], [Check(RunChecks(NO_STATE, p, attempts).0, p, attempt).1])
    requires Refusals.InOrder(1, 0.0, RequestsOf(attempts)) && Refusals.EndReading(0.0, RequestsOf(attempts)) <= attempt.now
    ensures RefusalBacked(p, attempts, replies, attempt.now, reply)
  {
    ReportedAdmissions(p, attempts, replies);
    ReportedDecision(p, attempts, attempt, reply);
    Refusals.RefusedOnlyWhenFull(p, 1, RequestsOf(attempts), Limiter.Request(0, attempt));
  }

  /** Whatever fails: no request is answered 429 unless its window is full. */
  lemma RefusedOnlyWhenFull(c: Settings, sys: System, events: seq<Event>, post: Post)
    requires AllServable(c, events) && |post.draws| >= c.retries && StateOfClient(sys, Client(post)) == NO_STATE
    requires Refusals.InOrder(1, 0.0, RequestsOf(AttemptsBy(events, Client(post))))
    requires Refusals.EndReading(0.0, RequestsOf(AttemptsBy(events, Client(post)))) <= post.attempt.now
    ensures RefusalBacked(PolicyOf(c), AttemptsBy(events, Client(post)), RepliesTo(c, sys, events, Client(post)),
                          post.attempt.now, Serve(c, RunEvents(c, sys, events), post).1)
  {
    RunReports(c, sys, events, Client(post));
    NextReports(c, sys, events, post);
    ReportedRefusal(PolicyOf(c), AttemptsBy(events, Client(post)), RepliesTo(c, sys, events, Client(post)), post.attempt,
                    Serve(c, RunEvents(c, sys, events), post).1);
  }

  // ---------- without failures ----------

  /** If the limiter's calls for the client all work and come in time: at most the limit gets past it in any window. */
  lemma PostsWithinLimit(c: Settings, sys: System, events: seq<Event>, client: string, e: real)
    requires AllServable(c, events) && StateOfClient(sys, client) == NO_STATE && c.limit >= 0
    requires Healthy(AttemptsBy(events, client))
    ensures PassedAtMost(PolicyOf(c), Times(AttemptsBy(events, client)), RepliesTo(c, sys, events, client), e, c.limit)
  {
    RunReports(c, sys, events, client);
    ReportedWithinLimit(PolicyOf(c), AttemptsBy(events, client), RepliesTo(c, sys, events, client), e);
  }

  /** A request is answered 429 exactly if its window is full. */
  lemma RefusedExactlyWhenFull(c: Settings, sys: System, events: seq<Event>, client: string, i: nat)
    requires AllServable(c, events) && StateOfClient(sys, client) == NO_STATE
    requires Healthy(AttemptsBy(events, client)) && i < |AttemptsBy(events, client)|
    ensures RefusedIfFull(PolicyOf(c), Times(AttemptsBy(events, client)), RepliesTo(c, sys, events, client), i)
  {
    RunReports(c, sys, events, client);
    ReportedIfFull(PolicyOf(c), AttemptsBy(events, client), RepliesTo(c, sys, events, client), i);
  }

  /** And the wait it then carries is exact up to truncation. */
  lemma RefusedUntilTheWaitEnds(c: Settings, sys: System, events: seq<Event>, client: string, i: nat, j: nat)
    requires AllServable(c, events) && StateOfClient(sys, client) == NO_STATE && c.limit >= 1 && c.window >= 1
    requires Healthy(AttemptsBy(events, client)) && i < j < |AttemptsBy(events, client)|
    ensures RefusedForTheWait(PolicyOf(c), Times(AttemptsBy(events, client)), RepliesTo(c, sys, events, client), i, j)
  {
    RunReports(c, sys, events, client);
    ReportedForTheWait(PolicyOf(c), AttemptsBy(events, client), RepliesTo(c, sys, events, client), i, j);
  }
}
