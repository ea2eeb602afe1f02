/** One rate-limit check (app/services/rate_limit_service.py) as a function of the state of its key. */
module RateLimit {
  import opened Redis

  datatype Policy = Policy(limit: int, window: int)

  datatype RateLimitResult = RateLimitResult(
    allowed: bool, limit: int, remaining: int, reset_seconds: int, retry_after: int)

  /** What one key owns: its sorted set in Redis and its window in process memory. */
  datatype KeyState = KeyState(zset: ZSet, memory: seq<Time>)

  const NO_STATE := KeyState(NO_ZSET, [])

  /** One check as the environment sees it: the clock read at its start, the member nonce, and what happens to
      the count pipeline, to the add pipeline and to the zrange call, as far as each is reached. */
  datatype Attempt = Attempt(now: Time, nonce: int, count: Call, add: Call, range: Call)

  /** Python's int() on a float: truncation toward zero. */
  function Trunc(x: real): (n: int)
    ensures 0.0 <= x ==> n as real <= x < n as real + 1.0
    ensures x < 0.0 ==> n as real - 1.0 < x <= n as real
  {
    if 0.0 <= x then x.Floor else -((-x).Floor)
  }

  function Max(a: int, b: int): int {
    if a < b then b else a
  }

  function WindowStart(now: Time, p: Policy): real {
    now - p.window as real
  }

  /** `[t for t in timestamps if t > lo]`. */
  function After(ts: seq<Time>, lo: real): seq<Time> {
    if ts == [] then []
    else if ts[0] > lo then [ts[0]] + After(ts[1..], lo)
    else After(ts[1..], lo)
  }

  function Admitted(p: Policy, count: int): RateLimitResult {
    RateLimitResult(true, p.limit, Max(0, p.limit - count - 1), p.window, 0)
  }

  /** Rejection with `wait` seconds until the oldest admission leaves the window. */
  function Rejected(p: Policy, wait: real): RateLimitResult {
    var retryAfter := Max(1, Trunc(wait));
    RateLimitResult(false, p.limit, 0, retryAfter, retryAfter)
  }

  /** Lines 100-124: prune, then admit and append, or reject. */
  function InMemory(ts: seq<Time>, p: Policy, now: Time): (seq<Time>, RateLimitResult) {
    var kept := After(ts, WindowStart(now, p));
    if |kept| < p.limit then
      (kept + [now], Admitted(p, |kept|))
    else
      var oldest := if kept == [] then now else kept[0];
      (kept, Rejected(p, oldest + p.window as real - now))
  }

  /** The count pipeline on the server: drop what left the window. */
  function Pruned(z: ZSet, at: Time, hi: real): ZSet {
    z.(members := RemRangeByScore(Live(z, at), 0.0, hi))
  }

  /** The add pipeline on the server: ZADD, then EXPIRE window + 5 on the whole key. */
  function Added(z: ZSet, at: Time, m: Member, p: Policy): ZSet {
    ZSet(ZAdd(Live(z, at), m), at + (p.window + 5) as real)
  }

  function FallBack(s: KeyState, p: Policy, now: Time): (KeyState, RateLimitResult) {
    var (memory, r) := InMemory(s.memory, p, now);
    (s.(memory := memory), r)
  }

  /** The whole of `check_rate_limit` on one key. */
  function Check(s: KeyState, p: Policy, a: Attempt): (KeyState, RateLimitResult) {
    var start := WindowStart(a.now, p);
    match a.count
    case Fault(at, applied) =>
      FallBack(if applied then s.(zset := Pruned(s.zset, at, start)) else s, p, a.now)
    case Reply(at) =>
      var z := Pruned(s.zset, at, start);
      var counted := s.(zset := z);
      if |z.members| < p.limit then
        var m := Member(a.now, a.nonce);
        match a.add
        case Reply(at) =>
          (counted.(zset := Added(z, at, m, p)), Admitted(p, |z.members|))
        case Fault(at, applied) =>
          FallBack(if applied then counted.(zset := Added(z, at, m, p)) else counted, p, a.now)
      else
        match a.range
        case Reply(at) =>
          var ms := Live(z, at);
          (counted, Rejected(p, if ms == [] then p.window as real
                                else ms[0].score + p.window as real - a.now))
        case Fault(_, _) => FallBack(counted, p, a.now)
  }

  /** f"ratelimit:{scope}:{identifier}" */
  function LimitKey(scope: string, identifier: string): string {
    "ratelimit:" + scope + ":" + identifier
  }
}
