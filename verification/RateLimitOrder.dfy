/** Two sharper bounds for the concurrent Redis path: on what the sorted set and the workers about to add to it amount to,
    in every run, and on any window when the server counts in the order of the clock readings. */
module RateLimitOrder {
  import opened Redis
  import opened RateLimit
  import opened RateLimitRace
  import opened Windows

  // ---------- the sorted set and the pending admissions ----------

  function IsPending(): Phase -> bool {
    (x: Phase) => x.Admitting?
  }

  /** What is in the sorted set, with what workers counted below the limit may still add. */
  function Promised(s: State): nat {
    |s.zset.members| + Tally(s.workers, IsPending())
  }

  lemma {:induction false} RemoveShortens(ms: seq<Member>, lo: real, hi: real)
    ensures |RemRangeByScore(ms, lo, hi)| <= |ms|
  {
    if ms != [] {
      RemoveShortens(ms[1..], lo, hi);
    }
  }

  lemma CountPromises(c: Config, s: State, w: nat, g: nat)
    requires Indexed(c, s) && 1 <= g && Promised(s) <= c.limit + g - 1
    requires Tally(Exec(c, s, CountReply(w)).workers, IsPending()) <= g
    ensures Promised(Exec(c, s, CountReply(w))) <= c.limit + g - 1
  {
    var s' := Exec(c, s, CountReply(w));
    if Under(c, s, w) && s' != s {
      RemoveShortens(Live(s.zset, s.clock), 0.0, WindowStart(s.workers[w].t, c.Policy()));
      TallyUpdate(s.workers, IsPending(), w, s'.workers[w]);
    }
  }

  lemma AddPromises(c: Config, s: State, a: Action)
    requires Indexed(c, s) && (a.AddReply? || a.AddFault?)
    ensures Promised(Exec(c, s, a)) <= Promised(s)
  {
    if Under(c, s, a.w) {
      InsertLength(Live(s.zset, s.clock), Member(s.workers[a.w].t, a.nonce));
      TallyUpdate(s.workers, IsPending(), a.w, Idle);
    }
  }

  /** Whatever is no count reply promises nothing new. */
  lemma OthersPromiseNothing(c: Config, s: State, a: Action)
    requires Indexed(c, s) && !a.CountReply?
    ensures Promised(Exec(c, s, a)) <= Promised(s)
  {
    match a
    case Tick(_) =>
    case Begin(w, proc) =>
      if w < c.workers { TallyUpdate(s.workers, IsPending(), w, Reading(proc, s.clock)); }
    case CountFault(w, _) =>
      if Under(c, s, w) {
        RemoveShortens(Live(s.zset, s.clock), 0.0, WindowStart(s.workers[w].t, c.Policy()));
        TallyUpdate(s.workers, IsPending(), w, Idle);
      }
    case AddReply(_, _) => AddPromises(c, s, a);
    case AddFault(_, _, _) => AddPromises(c, s, a);
    case RangeReply(w) =>
      if w < c.workers { TallyUpdate(s.workers, IsPending(), w, Idle); }
    case RangeFault(w) =>
      if w < c.workers { TallyUpdate(s.workers, IsPending(), w, Idle); }
  }

  /** In no state of the run are more than `g` workers between their count and their add. However many checks are under
      way, in front of the count or on the way to a rejection, they do not matter. */
  ghost predicate GapAtMost(c: Config, s: State, actions: seq<Action>, g: nat)
    decreases |actions|
  {
    Tally(s.workers, IsPending()) <= g && (actions == [] || GapAtMost(c, Exec(c, s, actions[0]), actions[1..], g))
  }

  /** As many workers as there are is always a bound. */
  lemma {:induction false} GapWithinWorkers(c: Config, s: State, actions: seq<Action>)
    requires Basic(c, s)
    ensures GapAtMost(c, s, actions, c.workers)
    decreases |actions|
  {
    if actions != [] {
      StepBasic(c, s, actions[0]);
      GapWithinWorkers(c, Exec(c, s, actions[0]), actions[1..]);
    }
  }

  lemma {:induction false} RunPromises(c: Config, s: State, actions: seq<Action>, g: nat)
    requires Basic(c, s) && 1 <= g && GapAtMost(c, s, actions, g) && Promised(s) <= c.limit + g - 1
    ensures Promised(Run(c, s, actions)) <= c.limit + g - 1
    decreases |actions|
  {
    if actions != [] {
      StepBasic(c, s, actions[0]);
      if actions[0].CountReply? {
        CountPromises(c, s, actions[0].w, g);
      } else {
        OthersPromiseNothing(c, s, actions[0]);
      }
      RunPromises(c, Exec(c, s, actions[0]), actions[1..], g);
    }
  }

  lemma InitBasic(c: Config)
    ensures Basic(c, Init(c))
    ensures forall f: Phase -> bool | !f(Idle) :: Tally(Init(c).workers, f) == 0
  {
    forall f: Phase -> bool | !f(Idle) ensures Tally(Init(c).workers, f) == 0 {
      AllIdle(Init(c).workers, f);
    }
  }

  /** In every interleaving of any number of workers, whatever fails: if at most g of them are ever between their count and
      their add, the sorted set never holds more than limit + g - 1 members, not even with all the adds outstanding. */
  lemma CardinalityBound(c: Config, actions: seq<Action>, g: nat)
    requires 1 <= g && GapAtMost(c, Init(c), actions, g)
    ensures Promised(Run(c, Init(c), actions)) <= c.limit + g - 1
  {
    InitBasic(c);
    RunPromises(c, Init(c), actions, g);
  }

  // ---------- counting in order ----------

  /** The count comes after no count, and no expiry, that has dropped entries later than this worker's clock reading
      could: the cut is the latest reading that has been used to drop anything, or the time five seconds ago if the key
      has expired. */
  ghost predicate CountsInOrder(c: Config, s: State, a: Action) {
    a.CountReply? && Under(c, s, a.w) && s.workers[a.w].Reading? ==> ExpiryCut(s) <= s.workers[a.w].t
  }

  ghost predicate InOrder(c: Config, s: State, actions: seq<Action>)
    decreases |actions|
  {
    actions == [] || (CountsInOrder(c, s, actions[0]) && InOrder(c, Exec(c, s, actions[0]), actions[1..]))
  }

  /** The clock read and the count happen at one moment. */
  ghost predicate CountsAtOnce(c: Config, s: State, actions: seq<Action>)
    decreases |actions|
  {
    actions == [] ||
    (var a := actions[0];
     (a.CountReply? && Under(c, s, a.w) && s.workers[a.w].Reading? ==> s.workers[a.w].t == s.clock)
     && CountsAtOnce(c, Exec(c, s, a), actions[1..]))
  }

  lemma {:induction false} AtOnceIsInOrder(c: Config, s: State, actions: seq<Action>)
    requires Basic(c, s) && CountsAtOnce(c, s, actions)
    ensures InOrder(c, s, actions)
    decreases |actions|
  {
    if actions != [] {
      StepBasic(c, s, actions[0]);
      AtOnceIsInOrder(c, Exec(c, s, actions[0]), actions[1..]);
    }
  }

  /** The window (e - window, e]: admitted and about to be admitted in it. */
  ghost predicate OrderedBound(c: Config, s: State, e: real, g: nat) {
    && (s.cut <= e ==> AdmittedByRedis(c, s, e) <= InRedis(c, s, e))
    && AdmittedByRedis(c, s, e) + Tally(s.workers, IsAdmitting(Start(c, e), e)) <= c.limit + g - 1
  }

  lemma CountOrdered(c: Config, s: State, w: nat, e: real, g: nat)
    requires Basic(c, s) && OrderedBound(c, s, e, g) && CountsInOrder(c, s, CountReply(w))
    requires 1 <= g && Tally(Exec(c, s, CountReply(w)).workers, IsPending()) <= g
    ensures OrderedBound(c, Exec(c, s, CountReply(w)), e, g)
  {
    var s' := Exec(c, s, CountReply(w));
    if Under(c, s, w) && s' != s {
      TallyUpdate(s.workers, IsAdmitting(Start(c, e), e), w, s'.workers[w]);
      TallyMonotone(s'.workers, IsAdmitting(Start(c, e), e), IsPending());
      if s'.cut <= e {
        PruneKeepsWindow(c, s, s.workers[w].t, e);
      }
    }
  }

  lemma AddOrdered(c: Config, s: State, a: Action, e: real, g: nat)
    requires Basic(c, s) && OrderedBound(c, s, e, g)
    requires a.AddReply? || a.AddFault?
    ensures OrderedBound(c, Exec(c, s, a), e, g)
  {
    if Under(c, s, a.w) && s.workers[a.w].Admitting? {
      var m := Member(s.workers[a.w].t, a.nonce);
      TallyUpdate(s.workers, IsAdmitting(Start(c, e), e), a.w, Idle);
      AppendWindow(s.viaRedis, m.score, Start(c, e), e);
      if ServerAdd(c, s, m).cut <= e {
        AddKeepsWindow(c, s, m, e);
      }
    }
  }

  /** A worker that begins, falls back or is rejected. */
  lemma OtherOrdered(c: Config, s: State, a: Action, e: real, g: nat)
    requires Basic(c, s) && OrderedBound(c, s, e, g)
    requires a.Begin? || a.CountFault? || a.RangeReply? || a.RangeFault?
    ensures OrderedBound(c, Exec(c, s, a), e, g)
  {
    var s' := Exec(c, s, a);
    if a.w < c.workers {
      TallyUpdate(s.workers, IsAdmitting(Start(c, e), e), a.w, s'.workers[a.w]);
      if Under(c, s, a.w) && a.CountFault? && a.applied && ServerPrune(c, s, s.workers[a.w].t).cut <= e {
        PruneKeepsWindow(c, s, s.workers[a.w].t, e);
      }
    }
  }

  lemma StepOrdered(c: Config, s: State, a: Action, e: real, g: nat)
    requires Basic(c, s) && OrderedBound(c, s, e, g) && CountsInOrder(c, s, a)
    requires 1 <= g && Tally(Exec(c, s, a).workers, IsPending()) <= g
    ensures OrderedBound(c, Exec(c, s, a), e, g)
  {
    match a
    case Tick(_) =>
    case CountReply(w) => CountOrdered(c, s, w, e, g);
    case AddReply(_, _) => AddOrdered(c, s, a, e, g);
    case AddFault(_, _, _) => AddOrdered(c, s, a, e, g);
    case _ => OtherOrdered(c, s, a, e, g);
  }

  lemma {:induction false} RunOrdered(c: Config, s: State, actions: seq<Action>, e: real, g: nat)
    requires Basic(c, s) && OrderedBound(c, s, e, g) && InOrder(c, s, actions)
    requires 1 <= g && GapAtMost(c, s, actions, g)
    ensures OrderedBound(c, Run(c, s, actions), e, g)
    decreases |actions|
  {
    if actions != [] {
      StepBasic(c, s, actions[0]);
      StepOrdered(c, s, actions[0], e, g);
      RunOrdered(c, Exec(c, s, actions[0]), actions[1..], e, g);
    }
  }

  /** If moreover the server counts in the order of the clock readings, in particular if each clock read and its count form
      one step, no window holds more than limit + g - 1 admissions granted through Redis; exactly the limit if count and
      add exclude each other. */
  lemma OrderedWindowBound(c: Config, actions: seq<Action>, e: real, g: nat)
    requires 1 <= g && GapAtMost(c, Init(c), actions, g)
    requires InOrder(c, Init(c), actions) || CountsAtOnce(c, Init(c), actions)
    ensures AdmittedByRedis(c, Run(c, Init(c), actions), e) <= c.limit + g - 1
  {
    InitBasic(c);
    if !InOrder(c, Init(c), actions) {
      AtOnceIsInOrder(c, Init(c), actions);
    }
    RunOrdered(c, Init(c), actions, e, g);
  }
}
