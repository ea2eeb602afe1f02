/** The idempotency service is made of the steps of the interleaved machine: what its methods answer and store when nothing
    comes between is what the steps of one request answer and store. */
module IdempotencySteps {
  import opened Wrappers
  import opened Redis
  import opened Api
  import opened Keys
  import opened Idempotency
  import opened IdempotencyRace
  import Server = RedisServer
  import UrlStore
  import UrlService
  import UrlServiceRuns

  /** The record of `key` that Redis would return at time `at`; text that is not a record is not there. */
  function InRedis(strings: Server.Strings, key: string, at: Time): Option<Record> {
    match Server.Fetched(strings, IdempotencyKey(key), at)
    case Some(Json(record)) => Some(record)
    case _ => None
  }

  function InMemory(records: Records, key: string): Option<Record> {
    if IdempotencyKey(key) in records then Some(records[IdempotencyKey(key)]) else None
  }

  /** Only records are ever stored under an idempotency key. */
  predicate OnlyRecords(strings: Server.Strings, key: string) {
    IdempotencyKey(key) in strings ==> strings[IdempotencyKey(key)].value.Json?
  }

  /** get_saved_response is Fetch, then Decide. */
  lemma LookupIsSteps(s: State, r: nat, payload: Payload, key: string, strings: Server.Strings, records: Records, get: Call)
    requires r in s.requests && s.requests[r] == Fetching(payload) && OnlyRecords(strings, key)
    requires s.redis == InRedis(strings, key, get.at) && s.memory == InMemory(records, key)
    ensures
      var end := Exec(Exec(s, Fetch(r, get.Reply?)), Decide(r));
      && end.redis == s.redis && end.memory == s.memory && end.db == s.db && end.created == s.created
      && r in end.requests
      && end.requests[r] ==
         match SavedResponse(strings, records, key, Sha256(payload), get) {
           case Nothing => Claiming(payload, s.retries)
           case Replay(response) => Done(payload, response, true)
           case Mismatch => Rejected
         }
  {
    var s1 := Exec(s, Fetch(r, get.Reply?));
    assert s1 == Move(s, r, Phase.Fetched(payload, if get.Reply? then s.redis else None));
  }

  // ---------- creation ----------

  /** The inserts of a request, one for each draw. */
  function Inserts(r: nat, base: string, draws: seq<UrlService.Draw>): (actions: seq<Action>)
    ensures |actions| == |draws|
  {
    if draws == [] then []
    else [Insert(r, Attempt(draws[0].code, base, draws[0].at))] + Inserts(r, base, draws[1..])
  }

  /** Where a request stands when its claim has become `op`. */
  function AfterClaim(payload: Payload, base: string, op: UrlStore.Creating): Phase {
    match op
    case Priming(code, _, url, since) => Saving(payload, CreateResponse(code, base + "/" + code, url, since))
    case Claim(_, _, _) => Creating(payload, op)
    case _ => Failed
  }

  lemma {:induction false} DecidedStays(s: State, r: nat, base: string, draws: seq<UrlService.Draw>)
    requires r in s.requests && !s.requests[r].Creating?
    ensures Run(s, Inserts(r, base, draws)) == s
    decreases |draws|
  {
    if draws != [] {
      DecidedStays(s, r, base, draws[1..]);
      assert Inserts(r, base, draws)[1..] == Inserts(r, base, draws[1..]);
    }
  }

  /** The claim loop of the URL store is the inserts of the request. */
  lemma {:induction false} LoopIsSteps(s: State, r: nat, payload: Payload, base: string, w: UrlStore.World,
                                       claim: UrlStore.Creating, draws: seq<UrlService.Draw>)
    requires r in s.requests && s.requests[r] == Creating(payload, claim) && claim.Claim?
    requires w.db == s.db && w.cache == map[]
    ensures
      var (w', op) := UrlService.ClaimLoop(w, r, claim, draws);
      var end := Run(s, Inserts(r, base, draws));
      && end == s.(db := w'.db, requests := s.requests[r := AfterClaim(payload, base, op)], created := end.created)
      && end.created == (if op.Priming?
                         then s.created[r := RecordOf(payload, AfterClaim(payload, base, op).response)] else s.created)
    decreases |draws|
  {
    if draws == [] {
      assert s.requests[r := s.requests[r]] == s.requests;
    } else {
      var first := Insert(r, Attempt(draws[0].code, base, draws[0].at));
      var (w1, op1) := UrlStore.ClaimStep(w.(clock := draws[0].at), r, claim, draws[0].code);
      var s1 := Exec(s, first);
      assert Inserts(r, base, draws)[1..] == Inserts(r, base, draws[1..]);
      if op1.Claim? {
        LoopIsSteps(s1, r, payload, base, w1, op1, draws[1..]);
        assert s1.requests[r := AfterClaim(payload, base, UrlService.ClaimLoop(w1, r, op1, draws[1..]).1)]
               == s.requests[r := AfterClaim(payload, base, UrlService.ClaimLoop(w1, r, op1, draws[1..]).1)];
      } else {
        DecidedStays(s1, r, base, draws[1..]);
      }
    }
  }

  /** create_short_url is the inserts of a request, when nothing comes between: same rows, and the response it will store
      exactly if it succeeds. */
  lemma CreateIsSteps(s: State, r: nat, payload: Payload, base: string, draws: seq<UrlService.Draw>, now: Time)
    requires r in s.requests && s.requests[r] == Claiming(payload, s.retries) && |draws| >= s.retries
    ensures
      var (db', result) := UrlService.CreateOutcome(s.db, payload, base, s.retries, draws, now, r);
      var end := Run(s, Inserts(r, base, UrlServiceRuns.Tried(UrlStore.Config(0, s.retries), payload, draws, now)));
      && end.db == db' && end.redis == s.redis && end.memory == s.memory && r in end.requests
      && end.requests[r] == (if result.Success? then Saving(payload, result.value) else Failed)
      && end.created == if result.Success? then s.created[r := RecordOf(payload, result.value)] else s.created
  {
    var c, w := UrlStore.Config(0, s.retries), UrlStore.World(now, s.db, map[]);
    var ds := UrlServiceRuns.Tried(c, payload, draws, now);
    if UrlService.Alias(payload).None? && s.retries == 0 {
      DecidedStays(s, r, base, ds);
    } else {
      var claim := UrlStore.Claim(payload.url, UrlService.Alias(payload), s.retries);
      LoopIsSteps(s, r, payload, base, w, claim, ds);
      if UrlService.Alias(payload).Some? {
        assert ds[1..] == [];
      } else {
        UrlService.ClaimLoopAlone(w, r, payload.url, ds);
      }
    }
  }

  // ---------- store ----------

  /** store_response is Save, then Remember. */
  lemma StoreIsSteps(s: State, r: nat, payload: Payload, response: CreateResponse, key: string, strings: Server.Strings,
                     records: Records, save: Call)
    requires r in s.requests && s.requests[r] == Saving(payload, response)
    requires s.redis == InRedis(strings, key, save.at) && s.memory == InMemory(records, key)
    ensures
      var end := Exec(Exec(s, Save(r, Server.Applied(save))), Remember(r));
      var storageKey, record := IdempotencyKey(key), RecordOf(payload, response);
      && end.redis == InRedis(if Server.Applied(save)
                              then Server.Stored(strings, storageKey, Server.Json(record), REPLAY_WINDOW, save.at)
                              else strings, key, save.at)
      && end.memory == InMemory(records[storageKey := record], key)
      && r in end.requests && end.requests[r] == Done(payload, response, false)
  {
    var s1 := Exec(s, Save(r, Server.Applied(save)));
    assert s1.requests == s.requests[r := Remembering(payload, response)];
  }
}
