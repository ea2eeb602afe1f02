/** Exactly when concurrent requests with one idempotency key create at most one row: when process memory has the record, and
    at most one request has created a row or may still do so. */
module IdempotencyExact {
  import opened Wrappers
  import opened Api
  import opened IdempotencyRace
  import UrlStore
  import UrlService

  function ClaimingNow(s: State): set<nat> {
    set r | r in s.requests && s.requests[r].Creating?
  }

  /** The requests that have created a row, or have passed their lookup and are about to. */
  function Could(s: State): set<nat> {
    s.created.Keys + ClaimingNow(s)
  }

  /** No continuation, whatever requests, failures, deletes and claims of others it has, ends with more than one row created
      for the key. */
  ghost predicate OnceForever(s: State) {
    forall actions :: |Run(s, actions).created| <= 1
  }

  // ---------- enough ----------

  lemma StepCould(s: State, a: Action)
    requires Inv(s) && s.memory.Some?
    ensures Could(Exec(s, a)) <= Could(s)
  {
    var s' := Exec(s, a);
    StepCreation(s, a);
    forall r | r in ClaimingNow(s') ensures r in ClaimingNow(s) {}
    if s'.created != s.created {
      assert a.r in ClaimingNow(s);
    }
  }

  lemma {:induction false} RunCould(s: State, actions: seq<Action>)
    requires Inv(s) && s.memory.Some?
    ensures Could(Run(s, actions)) <= Could(s)
    decreases |actions|
  {
    if actions != [] {
      StepCould(s, actions[0]);
      StepInv(s, actions[0]);
      StepGrows(s, actions[0]);
      RunCould(Exec(s, actions[0]), actions[1..]);
    }
  }

  lemma RunAtMostOne(s: State, actions: seq<Action>)
    requires Inv(s) && s.memory.Some? && |Could(s)| <= 1
    ensures |Run(s, actions).created| <= 1
  {
    RunCould(s, actions);
    CardOfSubset(Run(s, actions).created.Keys, Could(s));
  }

  // ---------- necessary ----------

  /** The code a claim would insert, given the candidate "x". */
  function Wanted(claim: UrlStore.Creating): Code
    requires claim.Claim?
  {
    if claim.alias.Some? then claim.alias.value else "x"
  }

  /** A request about to create a row does so, once whoever has its code has deleted it. */
  lemma CreatesNow(s: State, y: nat) returns (actions: seq<Action>)
    requires Inv(s) && y in ClaimingNow(s)
    ensures y in Run(s, actions).created && s.created.Keys <= Run(s, actions).created.Keys
    ensures ClaimingNow(s) - {y} <= ClaimingNow(Run(s, actions))
  {
    assert PhaseOk(s, y, s.requests[y]);
    var code := Wanted(s.requests[y].claim);
    var free, insert := Delete(code), Insert(y, Attempt(code, "", 0.0));
    var s1 := Exec(s, free);
    assert s1.requests == s.requests && s1.created == s.created && code !in s1.db.rows;
    RunMore(s, [free], insert);
    RunOne(s, free);
    actions := [free] + [insert];
    var s2 := Exec(s1, insert);
    assert s2.requests.Keys == s.requests.Keys && forall x | x in s.requests && x != y :: s2.requests[x] == s.requests[x];
  }

  lemma CouldCreate(s: State, y: nat) returns (actions: seq<Action>)
    requires Inv(s) && y in Could(s)
    ensures y in Run(s, actions).created && Could(s) <= Could(Run(s, actions))
    ensures Inv(Run(s, actions))
  {
    if y in s.created {
      actions := [];
    } else {
      actions := CreatesNow(s, y);
    }
    RunInv(s, actions);
    RunCreates(s, actions);
  }

  lemma {:induction false} RunCreates(s: State, actions: seq<Action>)
    requires Inv(s)
    ensures s.created.Keys <= Run(s, actions).created.Keys
    decreases |actions|
  {
    if actions != [] {
      StepInv(s, actions[0]);
      StepCreates(s, actions[0]);
      RunCreates(Exec(s, actions[0]), actions[1..]);
    }
  }

  /** Two that could, do. */
  lemma TwoCould(s: State, x: nat, y: nat)
    requires Inv(s) && x in Could(s) && y in Could(s) && x != y
    ensures !OnceForever(s)
  {
    var first := CouldCreate(s, x);
    var s1 := Run(s, first);
    var second := CouldCreate(s1, y);
    RunCreates(s1, second);
    RunConcat(s, first, second);
    var end := Run(s, first + second);
    assert {x, y} <= end.created.Keys;
    CardOfSubset({x, y}, end.created.Keys);
    assert |end.created| == |end.created.Keys| >= 2;
  }

  lemma {:induction false} Unused(used: set<nat>) returns (r: nat)
    ensures forall x | x in used :: x < r
  {
    if used == {} {
      r := 0;
    } else {
      var x :| x in used;
      var rest := Unused(used - {x});
      r := if x < rest then rest else x + 1;
      assert forall y | y in used :: y == x || y in used - {x};
    }
  }

  /** While neither store has the record, a new request looks up and is about to create a row. */
  lemma NewClaim(s: State, r: nat, p: Payload) returns (actions: seq<Action>)
    requires s.redis.None? && s.memory.None? && r !in s.requests && UrlService.Alias(p).Some?
    ensures
      var s' := Run(s, actions);
      && s'.redis.None? && s'.memory.None?
      && s'.requests.Keys == s.requests.Keys + {r} && ClaimingNow(s') == ClaimingNow(s) + {r}
  {
    actions := ThreeMore(s, [], Begin(r, p), Fetch(r, true), Decide(r));
    var s1 := Exec(s, Begin(r, p));
    assert s1 == Move(s, r, Fetching(p));
    var s2 := Exec(s1, Fetch(r, true));
    assert s2 == Move(s, r, Fetched(p, None));
    assert Exec(s2, Decide(r)) == Move(s, r, Claiming(p, s.retries)).(early := s.early + {r});
  }

  lemma OnceBefore(s: State, actions: seq<Action>)
    requires !OnceForever(Run(s, actions))
    ensures !OnceForever(s)
  {
    var more :| |Run(Run(s, actions), more).created| > 1;
    RunConcat(s, actions, more);
    assert |Run(s, actions + more).created| > 1;
  }

  lemma TwoNewClaims(s: State) returns (actions: seq<Action>, r: nat)
    requires s.redis.None? && s.memory.None?
    ensures {r, r + 1} <= ClaimingNow(Run(s, actions))
  {
    r := Unused(s.requests.Keys);
    assert r !in s.requests.Keys && r + 1 !in s.requests.Keys;
    var first := NewClaim(s, r, Payload("u", Some("a")));
    var second := NewClaim(Run(s, first), r + 1, Payload("v", Some("b")));
    RunConcat(s, first, second);
    actions := first + second;
  }

  /** Without the record in process memory two more requests may create rows, as soon as Redis has lost its record. */
  lemma MemoryNeeded(s: State)
    requires Inv(s) && s.memory.None?
    ensures !OnceForever(s)
  {
    var s0 := Exec(s, Expire);
    StepInv(s, Expire);
    var actions, r := TwoNewClaims(s0);
    RunInv(s0, actions);
    TwoCould(Run(s0, actions), r, r + 1);
    OnceBefore(s0, actions);
    RunOne(s, Expire);
    OnceBefore(s, [Expire]);
  }

  lemma {:induction false} TwoMembers(a: set<nat>) returns (x: nat, y: nat)
    requires |a| >= 2
    ensures x in a && y in a && x != y
  {
    x :| x in a;
    assert |a - {x}| >= 1;
    y :| y in a - {x};
  }

  /** From any state that a run can reach, every continuation creates at most one row for the key if and only if process
      memory has the record and at most one request has created a row or is about to. */
  lemma ExactlyWhenOnce(s: State)
    requires Inv(s)
    ensures OnceForever(s) <==> s.memory.Some? && |Could(s)| <= 1
  {
    if s.memory.None? {
      MemoryNeeded(s);
    } else if |Could(s)| > 1 {
      var x, y := TwoMembers(Could(s));
      TwoCould(s, x, y);
    } else {
      forall actions ensures |Run(s, actions).created| <= 1 {
        RunAtMostOne(s, actions);
      }
    }
  }
}
