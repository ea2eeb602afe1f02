/** That the cache works: an entry answers every lookup for the whole TTL unless it is dropped or evicted. */
module UrlStoreCaching {
  import opened Wrappers
  import opened Api
  import opened UrlStore
  import opened UrlStoreEviction

  /** The step takes the code out of the cache. */
  predicate Drops(s: State, a: Action, code: Code) {
    a == Lose(code) || (a.Move? && a.o in s.ops && s.ops[a.o] == Delete(Evicting(code)) && a.env.ok)
  }

  /** The entry was written at `since` or later, and expires a TTL after it was written. */
  predicate Lives(c: Config, s: State, code: Code, since: real) {
    && code in s.world.cache && since <= s.world.cache[code].setAt <= s.world.clock
    && s.world.cache[code].expireAt ==
       if c.ttl > 0 then Some(s.world.cache[code].setAt + c.ttl as real) else None
  }

  /** A creation or a miss whose SET is applied leaves an entry of its URL. */
  lemma RefillCaches(c: Config, s: State, a: Action, code: Code)
    requires a.Move? && a.o in s.ops && Refilling(s.ops[a.o], code) && a.env.ok
    ensures
      var s', url := Exec(c, s, a), if s.ops[a.o].Create? then s.ops[a.o].create.url else s.ops[a.o].resolve.url;
      Lives(c, s', code, s.world.clock) && s'.world.cache[code].url == url
  {
  }

  lemma StepLives(c: Config, s: State, a: Action, code: Code, since: real)
    requires Lives(c, s, code, since) && !Drops(s, a, code)
    ensures Lives(c, Exec(c, s, a), code, since)
  {
    if a.Move? && a.o in s.ops && Refilling(s.ops[a.o], code) && a.env.ok {
      RefillCaches(c, s, a, code);
    }
  }

  lemma {:induction false} RunLives(c: Config, s: State, actions: seq<Action>, code: Code, since: real)
    requires Lives(c, s, code, since) && NeverDrops(c, s, actions, code)
    ensures Lives(c, Run(c, s, actions), code, since)
    decreases |actions|
  {
    if actions != [] {
      StepLives(c, s, actions[0], code, since);
      RunLives(c, Exec(c, s, actions[0]), actions[1..], code, since);
    }
  }

  predicate NeverDrops(c: Config, s: State, actions: seq<Action>, code: Code)
    decreases |actions|
  {
    actions == [] || (!Drops(s, actions[0], code) && NeverDrops(c, Exec(c, s, actions[0]), actions[1..], code))
  }

  /** From any state: a SET at `a` keeps the code cached for the whole TTL. Unless the entry is dropped or evicted meanwhile, a
      resolve whose GET is answered before the TTL is over is served from the cache in one step and asks the database nothing;
      without a positive TTL that never ends. */
  lemma CachedUntilTtl(c: Config, s: State, a: Action, actions: seq<Action>, code: Code, o: OpId, known: bool)
    requires a.Move? && a.o in s.ops && Refilling(s.ops[a.o], code) && a.env.ok
    requires NeverDrops(c, Exec(c, s, a), actions, code)
    ensures
      var end := Run(c, Exec(c, s, a), actions);
      && code in end.world.cache
      && (o in end.ops && end.ops[o] == Resolve(Lookup(code, known))
          && (c.ttl > 0 ==> end.world.clock < s.world.clock + c.ttl as real) && end.world.cache[code].url != "" ==>
            Exec(c, end, Move(o, Answer(true))) ==
            end.(ops := end.ops[o := Resolve(ServedNow(code, end.world.cache[code].url, known))]))
  {
    RefillCaches(c, s, a, code);
    RunLives(c, Exec(c, s, a), actions, code, s.world.clock);
  }
}
