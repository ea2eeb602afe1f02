/** When a delete takes its code out of the cache for good: exactly when the eviction is applied and nobody is about to
    refill the code at that moment. */
module UrlStoreEviction {
  import opened Wrappers
  import opened Api
  import opened UrlStore

  /** The operation has read or committed a URL of the code and is about to cache it. */
  predicate Refilling(op: Op, code: Code) {
    match op
    case Create(Priming(k, _, _, _)) => k == code
    case Resolve(Filling(k, _, _, _)) => k == code
    case _ => false
  }

  ghost predicate SomeRefilling(s: State, code: Code) {
    exists o :: o in s.ops && Refilling(s.ops[o], code)
  }

  /** The code has no row in any state of the run. */
  ghost predicate NoRowDuring(c: Config, s: State, actions: seq<Action>, code: Code)
    decreases |actions|
  {
    code !in s.world.db.rows && (actions == [] || NoRowDuring(c, Exec(c, s, actions[0]), actions[1..], code))
  }

  /** Whatever follows, the code is not cached unless it gets a row again. */
  ghost predicate StaysOut(c: Config, s: State, code: Code) {
    forall actions :: NoRowDuring(c, s, actions, code) ==> code !in Run(c, s, actions).world.cache
  }

  lemma StepStaysOut(c: Config, s: State, a: Action, code: Code)
    requires code !in s.world.db.rows && code !in Exec(c, s, a).world.db.rows
    requires code !in s.world.cache && !SomeRefilling(s, code)
    ensures code !in Exec(c, s, a).world.cache && !SomeRefilling(Exec(c, s, a), code)
  {
    var s' := Exec(c, s, a);
    forall o | o in s'.ops ensures !Refilling(s'.ops[o], code) {
      if o in s.ops { assert !Refilling(s.ops[o], code); }
    }
    if a.Move? && a.o in s.ops { assert !Refilling(s.ops[a.o], code); }
  }

  lemma {:induction false} RunStaysOut(c: Config, s: State, actions: seq<Action>, code: Code)
    requires NoRowDuring(c, s, actions, code) && code !in s.world.cache && !SomeRefilling(s, code)
    ensures code !in Run(c, s, actions).world.cache
    decreases |actions|
  {
    if actions != [] {
      assert NoRowDuring(c, Exec(c, s, actions[0]), actions[1..], code);
      StepStaysOut(c, s, actions[0], code);
      RunStaysOut(c, Exec(c, s, actions[0]), actions[1..], code);
    }
  }

  /** One step of an operation about to refill brings the code back. */
  lemma RefillReturns(c: Config, s: State, o: OpId, code: Code)
    requires code !in s.world.db.rows && o in s.ops && Refilling(s.ops[o], code)
    ensures !StaysOut(c, s, code)
  {
    var refill := Move(o, Answer(true));
    RunOne(c, s, refill);
    assert [refill][1..] == [];
    assert NoRowDuring(c, Exec(c, s, refill), [], code);
    assert NoRowDuring(c, s, [refill], code) && code in Run(c, s, [refill]).world.cache;
  }

  /** Without a row and without an entry the code stays out of the cache, in every continuation in which it gets no row, if
      and only if no operation is about to refill it. */
  lemma OutForGood(c: Config, s: State, code: Code)
    requires code !in s.world.db.rows && code !in s.world.cache
    ensures StaysOut(c, s, code) <==> !SomeRefilling(s, code)
  {
    if SomeRefilling(s, code) {
      var o :| o in s.ops && Refilling(s.ops[o], code);
      RefillReturns(c, s, o, code);
    } else {
      forall actions | NoRowDuring(c, s, actions, code) ensures code !in Run(c, s, actions).world.cache {
        RunStaysOut(c, s, actions, code);
      }
    }
  }

  /** The last step of delete_url, after its commit: the deleted URL is out of the cache for good if and only if the DEL is
      applied (or there is nothing to evict) and no reader or creator is about to refill the code. */
  lemma DeleteEvictsForGood(c: Config, s: State, o: OpId, code: Code, env: Env)
    requires o in s.ops && s.ops[o] == Delete(Evicting(code)) && code !in s.world.db.rows
    ensures
      var s' := Exec(c, s, Move(o, env));
      && code !in s'.world.db.rows
      && (StaysOut(c, s', code) <==> (env.ok || code !in s.world.cache) && !SomeRefilling(s, code))
  {
    var s' := Exec(c, s, Move(o, env));
    assert s'.ops == s.ops[o := Delete(Deleted(true))] && s'.world.db == s.world.db;
    SameRefilling(s, s', o, code);
    if code in s'.world.cache {
      assert Run(c, s', []) == s' && NoRowDuring(c, s', [], code);
    } else {
      OutForGood(c, s', code);
    }
  }

  lemma SameRefilling(s: State, s': State, o: OpId, code: Code)
    requires o in s.ops && !Refilling(s.ops[o], code)
    requires s'.ops == s.ops[o := Delete(Deleted(true))]
    ensures SomeRefilling(s, code) <==> SomeRefilling(s', code)
  {
    forall x | x in s.ops && Refilling(s.ops[x], code) ensures x in s'.ops && Refilling(s'.ops[x], code) {}
    forall x | x in s'.ops && Refilling(s'.ops[x], code) ensures x in s.ops && Refilling(s.ops[x], code) {}
  }

  /** The cache does not follow the table: from any state where a reader has missed the cache and a delete is about to
      begin, the reader can read the row first and refill after the eviction. The delete has succeeded, the row is gone,
      and the next hit serves its URL. */
  lemma RefillOutlivesDelete(c: Config, s: State, reader: OpId, known: bool, delete: OpId, code: Code)
    returns (actions: seq<Action>)
    requires reader in s.ops && s.ops[reader] == Resolve(Query(code, known))
    requires delete in s.ops && s.ops[delete] == Delete(Finding(code))
    requires code in s.world.db.rows && s.world.db.rows[code].url != ""
    ensures
      var end, url := Run(c, s, actions), s.world.db.rows[code].url;
      && code !in end.world.db.rows
      && delete in end.ops && end.ops[delete] == Delete(Deleted(true))
      && CacheGet(end.world.cache, code, end.world.clock) == Some(url)
  {
    var env, row := Answer(true), s.world.db.rows[code];
    var read, remove := Move(reader, env), Move(delete, env);
    var s1 := Exec(c, s, read);
    assert s1 == State(s.world, s.ops[reader := Resolve(Filling(code, row.url, s.world.clock, known))]);
    var s2 := Exec(c, s1, remove);
    assert s2 == State(s.world, s1.ops[delete := Delete(Doomed(code, row.id))]);
    var s3 := Exec(c, s2, remove);
    assert s3.ops == s2.ops[delete := Delete(Evicting(code))] && code !in s3.world.db.rows;
    var s4 := Exec(c, s3, remove);
    assert s4.ops == s3.ops[delete := Delete(Deleted(true))] && s4.world.db == s3.world.db;
    assert s4.ops[reader] == Resolve(Filling(code, row.url, s.world.clock, known));
    RunOne(c, s4, read);
    RunStep(c, s3, remove, [read]);
    RunStep(c, s2, remove, [remove] + [read]);
    RunStep(c, s1, remove, [remove] + ([remove] + [read]));
    actions := [remove] + ([remove] + ([remove] + [read]));
    RunStep(c, s, read, actions);
    actions := [read] + actions;
  }
}
