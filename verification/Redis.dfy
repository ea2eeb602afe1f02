/** Values held by the Redis server, and the outcomes a client may see for one awaited call. */
module Redis {
  type Time = t: real | 0.0 <= t

  /** One round trip, executed (if at all) by the server at time `at`. A fault raises RedisError or OSError
      in the client; the server may or may not have applied the command. */
  datatype Call = Reply(at: Time) | Fault(at: Time, applied: bool)

  /** A sorted-set member "{now}:{time_ns}": its score is the `now` it was built from. */
  datatype Member = Member(score: Time, nonce: int)

  /** A sorted set in score order, with the expiry time of its key. A set without members is an absent key. */
  datatype ZSet = ZSet(members: seq<Member>, expireAt: real)

  const NO_ZSET := ZSet([], 0.0)

  /** What the server still holds at time `at`: the whole key goes when its expiry passes. */
  function Live(z: ZSet, at: real): seq<Member> {
    if at < z.expireAt then z.members else []
  }

  /** ZREMRANGEBYSCORE lo hi. */
  function RemRangeByScore(ms: seq<Member>, lo: real, hi: real): seq<Member> {
    if ms == [] then []
    else
      var rest := RemRangeByScore(ms[1..], lo, hi);
      if lo <= ms[0].score <= hi then rest else [ms[0]] + rest
  }

  /** ZADD of one member: a member already present is only rescored, here to the score it has. */
  function ZAdd(ms: seq<Member>, m: Member): seq<Member> {
    if m in ms then ms else InsertByScore(ms, m)
  }

  function InsertByScore(ms: seq<Member>, m: Member): seq<Member> {
    if ms == [] then [m]
    else if ms[0].score <= m.score then [ms[0]] + InsertByScore(ms[1..], m)
    else [m] + ms
  }

  function Scores(ms: seq<Member>): (ts: seq<Time>)
    ensures |ts| == |ms|
    ensures forall i | 0 <= i < |ms| :: ts[i] == ms[i].score
  {
    if ms == [] then [] else [ms[0].score] + Scores(ms[1..])
  }
}
