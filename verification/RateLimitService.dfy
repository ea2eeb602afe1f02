/** The rate limiter as it runs: per-process windows and shared Redis sorted sets, updated in place. */
module RateLimitService {
  import opened Redis
  import opened RateLimit
  import opened RedisServer

  class RateLimitService {
    const redis: RedisServer
    var windows: map<string, seq<Time>>

    constructor (redis: RedisServer)
      ensures this.redis == redis && windows == map[]
    {
      this.redis := redis;
      windows := map[];
    }

    function StateOf(key: string): KeyState
      reads this, redis
    {
      KeyState(ZSetAt(redis.zsets, key), if key in windows then windows[key] else [])
    }

    /** `check_rate_limit`: on its own key exactly the function Check; every other key is untouched. */
    method CheckRateLimit(identifier: string, limit: int, window: int, scope: string, a: Attempt)
      returns (r: RateLimitResult)
      modifies this`windows, redis`zsets
      ensures (StateOf(LimitKey(scope, identifier)), r) ==
              Check(old(StateOf(LimitKey(scope, identifier))), Policy(limit, window), a)
      ensures forall k | k != LimitKey(scope, identifier) :: StateOf(k) == old(StateOf(k))
    {
      var p, key := Policy(limit, window), LimitKey(scope, identifier);
      var windowStart := a.now - window as real;
      var count := redis.RemoveAndCount(key, windowStart, a.count);
      if count.Some? {
        if count.value < limit {
          var ok := redis.AddAndExpire(key, Member(a.now, a.nonce), p, a.add);
          if ok {
            return RateLimitResult(true, limit, Max(0, limit - count.value - 1), window, 0);
          }
        } else {
          var oldest := redis.Oldest(key, a.range);
          if oldest.Some? {
            var resetTime := if oldest.value != [] then Trunc(oldest.value[0] + window as real - a.now) else window;
            var retryAfter := Max(1, resetTime);
            return RateLimitResult(false, limit, 0, retryAfter, retryAfter);
          }
        }
      }
      r := CheckInMemory(key, p, a.now);
    }

    method CheckInMemory(key: string, p: Policy, now: Time) returns (r: RateLimitResult)
      modifies this`windows
      ensures (StateOf(key), r) == FallBack(old(StateOf(key)), p, now)
      ensures forall k | k != key :: StateOf(k) == old(StateOf(k))
    {
      var timestamps := if key in windows then windows[key] else [];
      windows := windows[key := After(timestamps, now - p.window as real)];
      if |windows[key]| < p.limit {
        windows := windows[key := windows[key] + [now]];
        var remaining := Max(0, p.limit - |windows[key]|);
        return RateLimitResult(true, p.limit, remaining, p.window, 0);
      }
      var oldest := if windows[key] != [] then windows[key][0] else now;
      var retryAfter := Max(1, Trunc(oldest + p.window as real - now));
      return RateLimitResult(false, p.limit, 0, retryAfter, retryAfter);
    }
  }
}
