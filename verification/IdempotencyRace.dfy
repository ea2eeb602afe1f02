/** Concurrent requests with one idempotency key, in one process. Lookup, creation and store are separate steps, so more
    than one row can be created; how many is bounded by the lookups that ran before the first store completed. */
module IdempotencyRace {
  import opened Wrappers
  import opened Redis
  import opened Api
  import UrlStore
  import UrlService

  /** Where a request stands: its GET is outstanding, or has answered; it claims a code; its SET is outstanding, or has
      answered and the write to process memory is next; it is done, rejected with 422, or failed. */
  datatype Phase =
    | Fetching(payload: Payload)
    | Fetched(payload: Payload, found: Option<Record>)
    | Creating(payload: Payload, claim: UrlStore.Creating)
    | Saving(payload: Payload, response: CreateResponse)
    | Remembering(payload: Payload, response: CreateResponse)
    | Done(payload: Payload, response: CreateResponse, replay: bool)
    | Rejected
    | Failed

  /** The record of the key in Redis and in process memory, the database, and MAX_COLLISION_RETRIES. History: `created` has
      the record of each request that created a row, `early` the requests whose lookup was decided while process memory
      had no record. */
  datatype State = State(
    redis: Option<Record>, memory: Option<Record>, db: UrlStore.Db, retries: nat,
    requests: map<nat, Phase>, created: map<nat, Record>, early: set<nat>)

  /** What the insert of a request meets: the candidate drawn, the base URL it answers with, the time. */
  datatype Attempt = Attempt(candidate: Code, base: string, at: Time)

  datatype Action =
    | Begin(r: nat, payload: Payload)
    | Fetch(r: nat, ok: bool)
    | Decide(r: nat)
    | Insert(r: nat, attempt: Attempt)
    | Save(r: nat, applied: bool)
    | Remember(r: nat)
    | Abort(r: nat)
    | Expire
    | Delete(code: Code)                                   // another request deletes a row
    | Foreign(code: Code, url: Url, at: Time, owner: nat)  // another request claims a code

  predicate OfRequest(a: Action) {
    !a.Begin? && !a.Expire? && !a.Delete? && !a.Foreign?
  }

  function Init(db: UrlStore.Db, retries: nat): State {
    State(None, None, db, retries, map[], map[], {})
  }

  function RecordOf(payload: Payload, response: CreateResponse): Record {
    Record(Sha256(payload), 201, response)
  }

  function Move(s: State, r: nat, p: Phase): State {
    s.(requests := s.requests[r := p])
  }

  /** create_short_url begins: without an alias and without tries it fails at once. */
  function Claiming(payload: Payload, retries: nat): Phase {
    var alias := UrlService.Alias(payload);
    if alias.None? && retries == 0 then Failed else Creating(payload, UrlStore.Claim(payload.url, alias, retries))
  }

  function DecideStep(s: State, r: nat, payload: Payload, found: Option<Record>): State {
    var record := if found.None? then s.memory else found;
    var early := if s.memory.None? then s.early + {r} else s.early;
    match record
    case None => Move(s, r, Claiming(payload, s.retries)).(early := early)
    case Some(rec) =>
      Move(s, r, if rec.payload_hash != Sha256(payload) then Rejected else Done(payload, rec.response_data, true))
      .(early := early)
  }

  /** One insert of the collision loop, under the unique index: the claim step of the URL store. */
  function InsertStep(s: State, r: nat, payload: Payload, claim: UrlStore.Creating, attempt: Attempt): State {
    if !claim.Claim? then s
    else
      var (w, op) := UrlStore.ClaimStep(UrlStore.World(attempt.at, s.db, map[]), r, claim, attempt.candidate);
      var s' := s.(db := w.db);
      match op
      case Priming(code, _, url, since) =>
        var response := CreateResponse(code, attempt.base + "/" + code, url, since);
        Move(s', r, Saving(payload, response)).(created := s.created[r := RecordOf(payload, response)])
      case Claim(_, _, _) => Move(s', r, Creating(payload, op))
      case _ => Move(s', r, Failed)
  }

  function StepRequest(s: State, a: Action, p: Phase): State
    requires OfRequest(a)
  {
    match (a, p)
    case (Fetch(r, ok), Fetching(payload)) => Move(s, r, Fetched(payload, if ok then s.redis else None))
    case (Decide(r), Fetched(payload, found)) => DecideStep(s, r, payload, found)
    case (Insert(r, attempt), Creating(payload, claim)) => InsertStep(s, r, payload, claim, attempt)
    case (Save(r, applied), Saving(payload, response)) =>
      Move(s, r, Remembering(payload, response)).(redis := if applied then Some(RecordOf(payload, response)) else s.redis)
    case (Remember(r), Remembering(payload, response)) =>
      Move(s, r, Done(payload, response, false)).(memory := Some(RecordOf(payload, response)))
    case (Abort(r), _) => if p.Done? || p.Rejected? then s else Move(s, r, Failed)
    case _ => s
  }

  function Deleted(db: UrlStore.Db, code: Code): UrlStore.Db {
    if code in db.rows then UrlStore.DeleteRow(db, code, db.rows[code].id) else db
  }

  /** One step; an action that is not enabled changes nothing. Redis may drop the record at any time. */
  function Exec(s: State, a: Action): State {
    match a
    case Begin(r, payload) => if r in s.requests then s else Move(s, r, Fetching(payload))
    case Expire => s.(redis := None)
    case Delete(code) => s.(db := Deleted(s.db, code))
    case Foreign(code, url, at, owner) => s.(db := UrlStore.InsertRow(s.db, code, url, at, owner))
    case _ => if a.r in s.requests then StepRequest(s, a, s.requests[a.r]) else s
  }

  function Run(s: State, actions: seq<Action>): State
    decreases |actions|
  {
    if actions == [] then s else Run(Exec(s, actions[0]), actions[1..])
  }

  lemma RunOne(s: State, a: Action)
    ensures Run(s, [a]) == Exec(s, a)
  {
    assert [a][1..] == [];
  }

  lemma {:induction false} RunConcat(s: State, first: seq<Action>, rest: seq<Action>)
    ensures Run(s, first + rest) == Run(Run(s, first), rest)
    decreases |first|
  {
    if first == [] {
      assert first + rest == rest;
    } else {
      RunConcat(Exec(s, first[0]), first[1..], rest);
      assert (first + rest)[1..] == first[1..] + rest;
    }
  }

  lemma RunMore(s: State, actions: seq<Action>, a: Action)
    ensures Run(s, actions + [a]) == Exec(Run(s, actions), a)
  {
    RunConcat(s, actions, [a]);
    RunOne(Run(s, actions), a);
  }

  // ---------- what every step keeps ----------

  /** The record is that of a request that created a row. */
  ghost predicate FromCreation(s: State, record: Record) {
    record.status_code == 201 && exists q :: q in s.created && s.created[q] == record
  }

  ghost predicate PhaseOk(s: State, r: nat, p: Phase) {
    match p
    case Fetching(_) => r !in s.created
    case Fetched(_, found) => r !in s.created && (found.Some? ==> FromCreation(s, found.value))
    case Creating(payload, claim) =>
      r in s.early && r !in s.created && claim.Claim? && claim.alias == UrlService.Alias(payload)
    case Saving(payload, response) => r in s.early && r in s.created && s.created[r] == RecordOf(payload, response)
    case Remembering(payload, response) => r in s.early && r in s.created && s.created[r] == RecordOf(payload, response)
    case Done(payload, response, _) => FromCreation(s, RecordOf(payload, response))
    case _ => true
  }

  ghost predicate Inv(s: State) {
    && (forall r | r in s.requests :: PhaseOk(s, r, s.requests[r]))
    && (s.redis.Some? ==> FromCreation(s, s.redis.value))
    && (s.memory.Some? ==> FromCreation(s, s.memory.value))
    && s.created.Keys <= s.early
    && s.created.Keys <= s.requests.Keys
  }

  /** History only grows, and `early` stops growing once process memory has the record. */
  lemma StepGrows(s: State, a: Action)
    ensures
      var s' := Exec(s, a);
      && s.early <= s'.early
      && (s.memory.Some? ==> s'.memory.Some? && s'.early == s.early)
  {
  }

  /** The step is the insert of a request that has not created anything yet, under a free code, which is its alias if it has
      one. */
  ghost predicate NewCreation(s: State, a: Action) {
    && a.Insert? && a.r in s.requests && s.requests[a.r].Creating? && a.r !in s.created && a.r in s.early
    && (var s', p := Exec(s, a), s.requests[a.r].payload;
        && s'.requests.Keys == s.requests.Keys && s'.requests[a.r].Saving? && s'.requests[a.r].payload == p
        && (var response := s'.requests[a.r].response;
            && s'.created == s.created[a.r := RecordOf(p, response)]
            && response.short_code !in s.db.rows && response.short_code in s'.db.rows
            && (UrlService.Alias(p).Some? ==> UrlService.Alias(p).value == response.short_code)))
  }

  lemma StepCreation(s: State, a: Action)
    requires Inv(s)
    ensures Exec(s, a).created == s.created || NewCreation(s, a)
  {
    if a.Insert? && a.r in s.requests { assert PhaseOk(s, a.r, s.requests[a.r]); }
  }

  lemma StepCreates(s: State, a: Action)
    requires Inv(s)
    ensures forall q | q in s.created :: q in Exec(s, a).created && Exec(s, a).created[q] == s.created[q]
  {
    StepCreation(s, a);
  }

  lemma CreationLasts(s: State, s': State, record: Record)
    requires FromCreation(s, record)
    requires forall q | q in s.created :: q in s'.created && s'.created[q] == s.created[q]
    ensures FromCreation(s', record)
  {
  }

  lemma InsertedOk(s: State, r: nat, attempt: Attempt)
    requires Inv(s) && r in s.requests && s.requests[r].Creating?
    ensures
      var s' := Exec(s, Insert(r, attempt));
      r in s'.requests && PhaseOk(s', r, s'.requests[r])
  {
    assert PhaseOk(s, r, s.requests[r]);
  }

  lemma MovedOk(s: State, a: Action)
    requires Inv(s) && (OfRequest(a) || a.Begin?)
    ensures a.r in Exec(s, a).requests ==> PhaseOk(Exec(s, a), a.r, Exec(s, a).requests[a.r])
  {
    if a.r in s.requests {
      if a.Insert? && s.requests[a.r].Creating? {
        InsertedOk(s, a.r, a.attempt);
      } else {
        OtherMovedOk(s, a);
      }
    } else {
      assert a.r !in s.created;
    }
  }

  lemma OtherMovedOk(s: State, a: Action)
    requires Inv(s) && (OfRequest(a) || a.Begin?) && a.r in s.requests && !(a.Insert? && s.requests[a.r].Creating?)
    ensures a.r in Exec(s, a).requests && PhaseOk(Exec(s, a), a.r, Exec(s, a).requests[a.r])
  {
    var s' := Exec(s, a);
    assert PhaseOk(s, a.r, s.requests[a.r]) && s'.created == s.created;
    OthersOk(s, a, a.r, s.requests[a.r]);
    match (a, s.requests[a.r])
    case (Decide(r), Fetched(payload, found)) =>
      var record := if found.None? then s.memory else found;
      if record.Some? { CreationLasts(s, s', record.value); }
    case (Fetch(r, ok), Fetching(payload)) =>
      if s.redis.Some? { CreationLasts(s, s', s.redis.value); }
    case (Remember(r), Remembering(payload, response)) => assert s'.created[r] == RecordOf(payload, response);
    case _ =>
  }

  /** What is true of a request stays true while others move. */
  lemma OthersOk(s: State, a: Action, r: nat, p: Phase)
    requires Inv(s) && r in s.requests && s.requests[r] == p && PhaseOk(s, r, p)
    ensures !OfRequest(a) || a.r != r || !p.Creating? ==> PhaseOk(Exec(s, a), r, p)
  {
    StepGrows(s, a);
    StepCreates(s, a);
    if p.Fetched? && p.found.Some? { CreationLasts(s, Exec(s, a), p.found.value); }
    if p.Done? { CreationLasts(s, Exec(s, a), RecordOf(p.payload, p.response)); }
  }

  /** What a step puts into a store is the record of the request that moves. */
  lemma StoredByMover(s: State, a: Action)
    requires Inv(s)
    ensures
      var s' := Exec(s, a);
      && (s'.redis == s.redis || s'.redis.None? ||
          (OfRequest(a) && a.r in s.created && s'.redis.value == s.created[a.r] && s'.redis.value.status_code == 201))
      && (s'.memory == s.memory ||
          (OfRequest(a) && a.r in s.created && s'.memory.Some? && s'.memory.value == s.created[a.r]
           && s'.memory.value.status_code == 201))
  {
    if OfRequest(a) && a.r in s.requests { assert PhaseOk(s, a.r, s.requests[a.r]); }
  }

  lemma StepStores(s: State, a: Action)
    requires Inv(s)
    ensures
      var s' := Exec(s, a);
      && (s'.redis.Some? ==> FromCreation(s', s'.redis.value))
      && (s'.memory.Some? ==> FromCreation(s', s'.memory.value))
  {
    var s' := Exec(s, a);
    StoredByMover(s, a);
    StepCreates(s, a);
    if s'.redis.Some? { CreationLasts(s, s', s'.redis.value); }
    if s'.memory.Some? { CreationLasts(s, s', s'.memory.value); }
  }

  lemma StepPhases(s: State, a: Action, r: nat)
    requires Inv(s) && r in Exec(s, a).requests
    ensures PhaseOk(Exec(s, a), r, Exec(s, a).requests[r])
  {
    if (OfRequest(a) || a.Begin?) && r == a.r {
      MovedOk(s, a);
    } else {
      assert Exec(s, a).requests[r] == s.requests[r];
      OthersOk(s, a, r, s.requests[r]);
    }
  }

  lemma RequestsStay(s: State, a: Action)
    ensures s.requests.Keys <= Exec(s, a).requests.Keys
  {
  }

  lemma StepInv(s: State, a: Action)
    requires Inv(s)
    ensures Inv(Exec(s, a))
  {
    var s' := Exec(s, a);
    StepGrows(s, a);
    StepStores(s, a);
    StepCreation(s, a);
    RequestsStay(s, a);
    forall r | r in s'.requests ensures PhaseOk(s', r, s'.requests[r]) {
      StepPhases(s, a, r);
    }
  }

  lemma {:induction false} RunInv(s: State, actions: seq<Action>)
    requires Inv(s)
    ensures Inv(Run(s, actions))
    ensures s.memory.Some? ==> Run(s, actions).early == s.early && Run(s, actions).memory.Some?
    decreases |actions|
  {
    if actions != [] {
      StepInv(s, actions[0]);
      StepGrows(s, actions[0]);
      RunInv(Exec(s, actions[0]), actions[1..]);
    }
  }

  // ---------- the bound ----------

  lemma {:induction false} CardOfSubset<T>(a: set<T>, b: set<T>)
    requires a <= b
    ensures |a| <= |b|
  {
    if a != {} {
      var x :| x in a;
      CardOfSubset(a - {x}, b - {x});
    }
  }

  /** In every interleaving, from any database, the rows created for the key are at most the lookups decided before the first
      store to process memory completed. */
  lemma RowsBoundedByEarlyLookups(db: UrlStore.Db, retries: nat, actions: seq<Action>)
    ensures
      var s := Run(Init(db, retries), actions);
      |s.created| <= |s.early| && s.created.Keys <= s.early
  {
    var s := Run(Init(db, retries), actions);
    RunInv(Init(db, retries), actions);
    CardOfSubset(s.created.Keys, s.early);
  }

  /** After that store, whatever still runs: the set of early lookups is closed, and a request outside it, in particular
      every request whose lookup comes later, creates nothing. */
  lemma LateLookupsCreateNothing(db: UrlStore.Db, retries: nat, before: seq<Action>, after: seq<Action>)
    requires Run(Init(db, retries), before).memory.Some?
    ensures
      var s := Run(Init(db, retries), before);
      var end := Run(s, after);
      && end.early == s.early
      && |end.created| <= |s.early|
      && forall r | r !in s.early :: r !in end.created
  {
    var s := Run(Init(db, retries), before);
    RunInv(Init(db, retries), before);
    RunInv(s, after);
    CardOfSubset(Run(s, after).created.Keys, s.early);
  }

  /** Every answer, replayed or not, is the response of a request with the same payload that created a row. */
  lemma AnswersComeFromCreations(db: UrlStore.Db, retries: nat, actions: seq<Action>, r: nat)
    requires r in Run(Init(db, retries), actions).requests && Run(Init(db, retries), actions).requests[r].Done?
    ensures
      var s := Run(Init(db, retries), actions);
      FromCreation(s, RecordOf(s.requests[r].payload, s.requests[r].response))
  {
    RunInv(Init(db, retries), actions);
    assert PhaseOk(Run(Init(db, retries), actions), r, Run(Init(db, retries), actions).requests[r]);
  }

  // ---------- codes are unique ----------

  /** The requests that created a row with this code. */
  function CreatorsOf(s: State, code: Code): set<nat> {
    set r | r in s.created && s.created[r].response_data.short_code == code
  }

  /** The requests that created a row for this payload. */
  function CreatorsFor(s: State, payload: Payload): set<nat> {
    set r | r in s.created && s.created[r].payload_hash == Sha256(payload)
  }

  /** The code's row is not deleted. */
  ghost predicate Kept(actions: seq<Action>, code: Code) {
    Delete(code) !in actions
  }

  /** While the row is there, it has one creator at most; while it is not, nobody has created it. */
  ghost predicate OneCreator(s: State, code: Code) {
    |CreatorsOf(s, code)| <= 1 && (code !in s.db.rows ==> CreatorsOf(s, code) == {})
  }

  lemma RowsStay(s: State, a: Action, code: Code)
    requires a != Delete(code) && code in s.db.rows
    ensures code in Exec(s, a).db.rows
  {
  }

  lemma StepOneCreator(s: State, a: Action, code: Code)
    requires Inv(s) && OneCreator(s, code) && a != Delete(code)
    ensures OneCreator(Exec(s, a), code)
  {
    var s' := Exec(s, a);
    StepCreation(s, a);
    if code in s.db.rows { RowsStay(s, a, code); }
    if s'.created != s.created {
      var c := s'.requests[a.r].response.short_code;
      if c == code {
        assert CreatorsOf(s, code) == {} && CreatorsOf(s', code) == {a.r};
      } else {
        assert CreatorsOf(s', code) == CreatorsOf(s, code);
      }
    } else {
      assert CreatorsOf(s', code) == CreatorsOf(s, code);
    }
  }

  lemma {:induction false} RunOneCreator(s: State, actions: seq<Action>, code: Code)
    requires Inv(s) && OneCreator(s, code) && Kept(actions, code)
    ensures OneCreator(Run(s, actions), code)
    decreases |actions|
  {
    if actions != [] {
      assert actions[0] in actions && forall a | a in actions[1..] :: a in actions;
      StepInv(s, actions[0]);
      StepOneCreator(s, actions[0], code);
      RunOneCreator(Exec(s, actions[0]), actions[1..], code);
    }
  }

  /** Whoever creates a row for a payload with an alias creates it under that alias. */
  ghost predicate AliasKept(s: State, payload: Payload) {
    forall r | r in s.created && s.created[r].payload_hash == Sha256(payload) ::
      UrlService.Alias(payload) == Some(s.created[r].response_data.short_code)
  }

  lemma StepAliasKept(s: State, a: Action, payload: Payload)
    requires Inv(s) && AliasKept(s, payload) && UrlService.Alias(payload).Some?
    ensures AliasKept(Exec(s, a), payload)
  {
    StepCreation(s, a);
  }

  lemma {:induction false} RunAliasKept(s: State, actions: seq<Action>, payload: Payload)
    requires Inv(s) && AliasKept(s, payload) && UrlService.Alias(payload).Some?
    ensures AliasKept(Run(s, actions), payload)
    decreases |actions|
  {
    if actions != [] {
      StepInv(s, actions[0]);
      StepAliasKept(s, actions[0], payload);
      RunAliasKept(Exec(s, actions[0]), actions[1..], payload);
    }
  }

  /** In every interleaving no code has two creators unless its row was deleted in between; so requests with one key and one
      payload with an alias create at most one row while that row is not deleted, however many race. */
  lemma AliasCreatesOneRow(db: UrlStore.Db, retries: nat, actions: seq<Action>, payload: Payload)
    requires UrlService.Alias(payload).Some? && Kept(actions, UrlService.Alias(payload).value)
    ensures |CreatorsFor(Run(Init(db, retries), actions), payload)| <= 1
  {
    var alias, s0 := UrlService.Alias(payload).value, Init(db, retries);
    var s := Run(s0, actions);
    RunOneCreator(s0, actions, alias);
    RunAliasKept(s0, actions, payload);
    assert CreatorsFor(s, payload) <= CreatorsOf(s, alias);
    CardOfSubset(CreatorsFor(s, payload), CreatorsOf(s, alias));
  }

  // ---------- the bound is attained ----------

  lemma {:induction false} CardBelow(a: set<nat>, n: nat)
    requires forall r: nat :: r in a <==> r < n
    ensures |a| == n
  {
    if n == 0 {
      assert a == {};
    } else {
      CardBelow(a - {n - 1}, n - 1);
    }
  }

  /** Different codes, and none of them taken. */
  ghost predicate FreeCodes(db: UrlStore.Db, codes: seq<Code>) {
    && (forall i | 0 <= i < |codes| :: codes[i] !in db.rows)
    && (forall i, j | 0 <= i < j < |codes| :: codes[i] != codes[j])
  }

  function ResponseOf(payload: Payload, code: Code): CreateResponse {
    CreateResponse(code, "/" + code, payload.url, 0.0)
  }

  /** `n` requests have looked up, the first `k` of them have created rows with the first `k` codes, nothing is stored. */
  ghost predicate Racing(s: State, p: Payload, codes: seq<Code>, n: nat, k: nat) {
    && s.redis.None? && s.memory.None? && s.retries >= 1 && k <= |codes|
    && (forall r: nat :: r in s.early <==> r < n)
    && (forall r: nat :: r in s.requests <==> r < n)
    && (forall r: nat :: r in s.created <==> r < k)
    && (forall i | k <= i < |codes| :: codes[i] !in s.db.rows)
    && (forall r | r in s.requests && r >= k :: s.requests[r] == Creating(p, UrlStore.Claim(p.url, None, s.retries)))
    && (forall r | r in s.created :: s.created[r] == RecordOf(p, ResponseOf(p, codes[r])) && codes[r] in s.db.rows)
  }

  lemma OneMoreLookup(s: State, p: Payload, codes: seq<Code>, n: nat)
    requires Racing(s, p, codes, n, 0) && UrlService.Alias(p).None?
    ensures Racing(Exec(Exec(Exec(s, Begin(n, p)), Fetch(n, true)), Decide(n)), p, codes, n + 1, 0)
  {
    var s1 := Exec(s, Begin(n, p));
    assert s1 == s.(requests := s.requests[n := Fetching(p)]);
    var s2 := Exec(s1, Fetch(n, true));
    assert s2 == s.(requests := s.requests[n := Fetched(p, None)]);
    assert Exec(s2, Decide(n)) ==
           s.(requests := s.requests[n := Creating(p, UrlStore.Claim(p.url, None, s.retries))], early := s.early + {n});
  }

  lemma OneMoreRow(s: State, p: Payload, codes: seq<Code>, n: nat, k: nat)
    requires Racing(s, p, codes, n, k) && k < n && k < |codes|
    requires forall i, j | 0 <= i < j < |codes| :: codes[i] != codes[j]
    ensures Racing(Exec(s, Insert(k, Attempt(codes[k], "", 0.0))), p, codes, n, k + 1)
  {
    var s', response := Exec(s, Insert(k, Attempt(codes[k], "", 0.0))), ResponseOf(p, codes[k]);
    assert "" + "/" + codes[k] == "/" + codes[k];
    assert s' == s.(db := s'.db, requests := s.requests[k := Saving(p, response)],
                    created := s.created[k := RecordOf(p, response)]);
    assert s'.db.rows.Keys == s.db.rows.Keys + {codes[k]};
  }

  lemma LookUpNext(s0: State, before: seq<Action>, p: Payload, codes: seq<Code>, n: nat) returns (actions: seq<Action>)
    requires Racing(Run(s0, before), p, codes, n, 0) && UrlService.Alias(p).None?
    ensures Racing(Run(s0, actions), p, codes, n + 1, 0)
  {
    OneMoreLookup(Run(s0, before), p, codes, n);
    actions := ThreeMore(s0, before, Begin(n, p), Fetch(n, true), Decide(n));
  }

  lemma {:induction false} AllLookUp(db: UrlStore.Db, retries: nat, p: Payload, codes: seq<Code>, n: nat)
    returns (actions: seq<Action>)
    requires retries >= 1 && UrlService.Alias(p).None? && FreeCodes(db, codes)
    ensures Racing(Run(Init(db, retries), actions), p, codes, n, 0)
  {
    if n == 0 {
      actions := [];
    } else {
      actions := AllLookUp(db, retries, p, codes, n - 1);
      actions := LookUpNext(Init(db, retries), actions, p, codes, n - 1);
    }
  }

  lemma ThreeMore(s: State, actions: seq<Action>, a: Action, b: Action, d: Action) returns (more: seq<Action>)
    ensures Run(s, more) == Exec(Exec(Exec(Run(s, actions), a), b), d)
  {
    RunMore(s, actions, a);
    RunMore(s, actions + [a], b);
    RunMore(s, actions + [a] + [b], d);
    more := actions + [a] + [b] + [d];
  }

  lemma CreateNext(s0: State, before: seq<Action>, p: Payload, codes: seq<Code>, k: nat) returns (actions: seq<Action>)
    requires Racing(Run(s0, before), p, codes, |codes|, k) && k < |codes|
    requires forall i, j | 0 <= i < j < |codes| :: codes[i] != codes[j]
    ensures Racing(Run(s0, actions), p, codes, |codes|, k + 1)
  {
    var insert := Insert(k, Attempt(codes[k], "", 0.0));
    OneMoreRow(Run(s0, before), p, codes, |codes|, k);
    RunMore(s0, before, insert);
    actions := before + [insert];
  }

  lemma {:induction false} AllCreate(db: UrlStore.Db, retries: nat, p: Payload, codes: seq<Code>, k: nat)
    returns (actions: seq<Action>)
    requires retries >= 1 && UrlService.Alias(p).None? && FreeCodes(db, codes) && k <= |codes|
    ensures Racing(Run(Init(db, retries), actions), p, codes, |codes|, k)
  {
    if k == 0 {
      actions := AllLookUp(db, retries, p, codes, |codes|);
    } else {
      actions := AllCreate(db, retries, p, codes, k - 1);
      actions := CreateNext(Init(db, retries), actions, p, codes, k - 1);
    }
  }

  /** From any database, for any number of different free codes and any payload without an alias: as many requests with one
      key and this payload can each create a row, one under each code, although no call fails. All look up before the
      first one stores. */
  lemma ManyRowsForOneKey(db: UrlStore.Db, retries: nat, p: Payload, codes: seq<Code>) returns (actions: seq<Action>)
    requires retries >= 1 && UrlService.Alias(p).None? && FreeCodes(db, codes)
    ensures
      var s := Run(Init(db, retries), actions);
      && |s.created| == |s.early| == |codes|
      && (forall r: nat :: r in s.created <==> r < |codes|)
      && (forall r | r in s.created ::
            s.created[r].payload_hash == Sha256(p) && s.created[r].response_data.short_code == codes[r]
            && codes[r] in s.db.rows)
  {
    actions := AllCreate(db, retries, p, codes, |codes|);
    CardBelow(Run(Init(db, retries), actions).early, |codes|);
    CardBelow(Run(Init(db, retries), actions).created.Keys, |codes|);
  }
}
