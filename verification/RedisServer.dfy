/** The Redis server as the services see it: string keys and sorted sets, changed in place by commands that may fail. */
module RedisServer {
  import opened Wrappers
  import opened Redis
  import opened RateLimit
  import opened Api

  /** A string value. JSON text that reads back as a record is kept as the record it denotes. */
  datatype Blob = Text(text: string) | Json(record: Record)

  datatype Entry = Entry(value: Blob, expireAt: Option<Time>)

  type Strings = map<string, Entry>

  function ZSetAt(zsets: map<string, ZSet>, key: string): ZSet {
    if key in zsets then zsets[key] else NO_ZSET
  }

  /** GET at time `at`: an entry is gone once its expiry has passed. */
  function Fetched(strings: Strings, key: string, at: Time): Option<Blob> {
    if key in strings && (strings[key].expireAt.Some? ==> at < strings[key].expireAt.value)
    then Some(strings[key].value) else None
  }

  /** SET, with EX ttl when `ttl` is positive. */
  function Stored(strings: Strings, key: string, value: Blob, ttl: int, at: Time): Strings {
    strings[key := Entry(value, if ttl > 0 then Some(at + ttl as real) else None)]
  }

  /** What a GET at `t` finds after a SET at `at`: the value for `ttl` seconds, or for good if `ttl` is not positive; what it
      found before under any other key. */
  lemma FetchedAfterSet(strings: Strings, key: string, value: Blob, ttl: int, at: Time, other: string, t: Time)
    ensures Fetched(Stored(strings, key, value, ttl, at), other, t) ==
            if other != key then Fetched(strings, other, t)
            else if ttl <= 0 || t < at + ttl as real then Some(value)
            else None
  {
  }

  predicate Applied(c: Call) {
    c.Reply? || c.applied
  }

  class RedisServer {
    var strings: Strings
    var zsets: map<string, ZSet>

    constructor ()
      ensures strings == map[] && zsets == map[]
    {
      strings := map[];
      zsets := map[];
    }

    /** MULTI; ZREMRANGEBYSCORE key 0 hi; ZCARD key; EXEC */
    method RemoveAndCount(key: string, hi: real, c: Call) returns (count: Option<nat>)
      modifies this`zsets
      ensures Applied(c) ==> zsets == old(zsets)[key := Pruned(ZSetAt(old(zsets), key), c.at, hi)]
      ensures !Applied(c) ==> zsets == old(zsets)
      ensures count == if c.Reply? then Some(|ZSetAt(zsets, key).members|) else None
    {
      if Applied(c) {
        zsets := zsets[key := Pruned(ZSetAt(zsets, key), c.at, hi)];
      }
      count := if c.Reply? then Some(|ZSetAt(zsets, key).members|) else None;
    }

    /** MULTI; ZADD key member; EXPIRE key window + 5; EXEC */
    method AddAndExpire(key: string, m: Member, p: Policy, c: Call) returns (ok: bool)
      modifies this`zsets
      ensures Applied(c) ==> zsets == old(zsets)[key := Added(ZSetAt(old(zsets), key), c.at, m, p)]
      ensures !Applied(c) ==> zsets == old(zsets)
      ensures ok == c.Reply?
    {
      if Applied(c) {
        zsets := zsets[key := Added(ZSetAt(zsets, key), c.at, m, p)];
      }
      ok := c.Reply?;
    }

    /** ZRANGE key 0 0 WITHSCORES; None if the call fails. */
    method Oldest(key: string, c: Call) returns (scores: Option<seq<Time>>)
      ensures c.Fault? ==> scores == None
      ensures c.Reply? ==>
                var ms := Live(ZSetAt(zsets, key), c.at);
                scores == Some(if ms == [] then [] else [ms[0].score])
    {
      if c.Fault? {
        return None;
      }
      var ms := Live(ZSetAt(zsets, key), c.at);
      return Some(if ms == [] then [] else [ms[0].score]);
    }

    /** GET key; Failure if the call fails. */
    method Get(key: string, c: Call) returns (r: Result<Option<Blob>, ()>)
      ensures r == if c.Reply? then Success(Fetched(strings, key, c.at)) else Failure(())
    {
      r := if c.Reply? then Success(Fetched(strings, key, c.at)) else Failure(());
    }

    /** SET key value [EX ttl] */
    method Set(key: string, value: Blob, ttl: int, c: Call) returns (ok: bool)
      modifies this`strings
      ensures strings == if Applied(c) then Stored(old(strings), key, value, ttl, c.at) else old(strings)
      ensures ok == c.Reply?
    {
      if Applied(c) {
        strings := Stored(strings, key, value, ttl, c.at);
      }
      ok := c.Reply?;
    }

    /** DEL key */
    method Del(key: string, c: Call) returns (ok: bool)
      modifies this`strings
      ensures strings == if Applied(c) then old(strings) - {key} else old(strings)
      ensures ok == c.Reply?
    {
      if Applied(c) {
        strings := strings - {key};
      }
      ok := c.Reply?;
    }
  }
}
