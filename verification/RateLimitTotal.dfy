/** The sharp bound on all admissions of one window, over Redis and every process memory together. A check under way is
    admitted at most once, so what races add to (P+1) times the limit does not grow with the number of processes. */
module RateLimitTotal {
  import opened Redis
  import opened RateLimitRace
  import opened RateLimitOrder
  import opened Windows

  /** Under way, with a clock reading in the window. */
  function IsUnderWay(lo: real, hi: real): Phase -> bool {
    (x: Phase) => !x.Idle? && lo < x.t <= hi
  }

  function UnderWay(c: Config, s: State, e: real): nat {
    Tally(s.workers, IsUnderWay(Start(c, e), e))
  }

  function Admitting(c: Config, s: State, e: real): nat {
    Tally(s.workers, IsAdmitting(Start(c, e), e))
  }

  /** Some store may have dropped entries of the window (e - window, e]. */
  ghost predicate Cut(c: Config, s: State, e: real)
    requires Indexed(c, s)
  {
    s.cut > e || exists q: nat :: q < c.processes && s.memoryCut[q] > e
  }

  /** From the first such moment on: admitted in the window, with everything that may still be. */
  ghost predicate TotalBound(c: Config, s: State, e: real)
    requires Indexed(c, s)
  {
    Cut(c, s, e) ==> AdmittedIn(c, s, e) + UnderWay(c, s, e) <= (c.processes + 1) * c.limit + 2 * (c.workers - 1) + c.Slack()
  }

  // ---------- once cut, nothing is added ----------

  /** Admitted in the window by the memory of process `q` of `n`. */
  lemma {:induction false} MemoryTotalMoves(c: Config, s: State, s': State, e: real, q: nat, n: nat)
    requires q < |s.viaMemory| == |s'.viaMemory| && n <= |s.viaMemory|
    requires forall i: nat | i < |s.viaMemory| && i != q :: s'.viaMemory[i] == s.viaMemory[i]
    ensures MemoryTotal(c, s', e, n) + (if q < n then AdmittedByMemory(c, s, e, q) else 0) ==
            MemoryTotal(c, s, e, n) + if q < n then AdmittedByMemory(c, s', e, q) else 0
  {
    if n > 0 {
      MemoryTotalMoves(c, s, s', e, q, n - 1);
    }
  }

  lemma {:induction false} MemoryTotalSame(c: Config, s: State, s': State, e: real, n: nat)
    requires s.viaMemory == s'.viaMemory && n <= |s.viaMemory|
    ensures MemoryTotal(c, s', e, n) == MemoryTotal(c, s, e, n)
  {
    if n > 0 {
      MemoryTotalSame(c, s, s', e, n - 1);
    }
  }

  /** The in-memory decision turns a check under way into at most one admission. */
  lemma FallTotal(c: Config, s: State, w: nat, e: real)
    requires Under(c, s, w)
    ensures AdmittedIn(c, Fall(c, s, w), e) + UnderWay(c, Fall(c, s, w), e) <= AdmittedIn(c, s, e) + UnderWay(c, s, e)
  {
    var s', q, t := Fall(c, s, w), s.workers[w].proc, s.workers[w].t;
    TallyUpdate(s.workers, IsUnderWay(Start(c, e), e), w, Idle);
    AppendWindow(s.viaMemory[q], t, Start(c, e), e);
    MemoryTotalMoves(c, s, s', e, q, c.processes);
  }

  lemma FaultTotal(c: Config, s: State, a: Action, e: real)
    requires Indexed(c, s) && (a.CountFault? || a.AddFault? || a.RangeFault?)
    ensures Indexed(c, Exec(c, s, a))
    ensures AdmittedIn(c, Exec(c, s, a), e) + UnderWay(c, Exec(c, s, a), e) <= AdmittedIn(c, s, e) + UnderWay(c, s, e)
  {
    var w := a.w;
    if Under(c, s, w) && Exec(c, s, a) != s {
      var s1 :=
        if a.CountFault? && a.applied then ServerPrune(c, s, s.workers[w].t)
        else if a.AddFault? && a.applied then ServerAdd(c, s, Member(s.workers[w].t, a.nonce))
        else s;
      MemoryTotalSame(c, s, s1, e, c.processes);
      FallTotal(c, s1, w, e);
    }
  }

  lemma ReplyTotal(c: Config, s: State, a: Action, e: real)
    requires Indexed(c, s) && (a.CountReply? || a.AddReply? || a.RangeReply?)
    ensures Indexed(c, Exec(c, s, a))
    ensures AdmittedIn(c, Exec(c, s, a), e) + UnderWay(c, Exec(c, s, a), e) <= AdmittedIn(c, s, e) + UnderWay(c, s, e)
  {
    var w, s' := a.w, Exec(c, s, a);
    if Under(c, s, w) && s' != s {
      TallyUpdate(s.workers, IsUnderWay(Start(c, e), e), w, s'.workers[w]);
      MemoryTotalSame(c, s, s', e, c.processes);
      AppendWindow(s.viaRedis, s.workers[w].t, Start(c, e), e);
    }
  }

  /** No step adds to the window but the beginning of a check in it. */
  lemma StepTotal(c: Config, s: State, a: Action, e: real)
    requires Indexed(c, s) && (a.Begin? ==> s.clock > e)
    ensures Indexed(c, Exec(c, s, a))
    ensures AdmittedIn(c, Exec(c, s, a), e) + UnderWay(c, Exec(c, s, a), e) <= AdmittedIn(c, s, e) + UnderWay(c, s, e)
  {
    var s' := Exec(c, s, a);
    match a
    case Tick(_) => MemoryTotalSame(c, s, s', e, c.processes);
    case Begin(w, proc) =>
      MemoryTotalSame(c, s, s', e, c.processes);
      if w < c.workers { TallyUpdate(s.workers, IsUnderWay(Start(c, e), e), w, Reading(proc, s.clock)); }
    case CountReply(_) => ReplyTotal(c, s, a, e);
    case AddReply(_, _) => ReplyTotal(c, s, a, e);
    case RangeReply(_) => ReplyTotal(c, s, a, e);
    case _ => FaultTotal(c, s, a, e);
  }

  // ---------- the first cut ----------

  function IsElsewhere(lo: real, hi: real): Phase -> bool {
    (x: Phase) => !x.Idle? && !x.Admitting? && lo < x.t <= hi
  }

  lemma {:induction false} UnderWaySplits(ws: seq<Phase>, lo: real, hi: real)
    ensures Tally(ws, IsUnderWay(lo, hi)) == Tally(ws, IsAdmitting(lo, hi)) + Tally(ws, IsElsewhere(lo, hi))
  {
    if ws != [] {
      UnderWaySplits(ws[1..], lo, hi);
    }
  }

  lemma CutNeedsWorker(c: Config, s: State, a: Action)
    requires a.Tick? || a.Begin? || a.RangeReply? || !Under(c, s, a.w)
    ensures Exec(c, s, a).cut == s.cut && Exec(c, s, a).memoryCut == s.memoryCut
  {
  }

  /** A step that cuts a store and is no count reply leaves its worker idle. */
  lemma CutterIsOut(c: Config, s: State, a: Action, e: real)
    requires Basic(c, s) && Indexed(c, Exec(c, s, a)) && !Cut(c, s, e) && Cut(c, Exec(c, s, a), e)
    ensures !a.Tick? && Under(c, s, a.w) && (!a.CountReply? ==> Exec(c, s, a).workers[a.w].Idle?)
    ensures a.CountReply? ==> s.workers[a.w].Reading? && (c.delay <= 5.0 ==> s.workers[a.w].t > e)
  {
    if a.Tick? || a.Begin? || a.RangeReply? || !Under(c, s, a.w) {
      CutNeedsWorker(c, s, a);
    }
  }

  /** A decision that cuts a memory is made with a clock reading past the window. */
  lemma CutAddsNothing(c: Config, s: State, a: Action, e: real, q: nat)
    requires Indexed(c, s) && q < c.processes && s.memoryCut[q] <= e
    ensures Indexed(c, Exec(c, s, a))
    ensures Exec(c, s, a).memoryCut[q] > e ==>
              AdmittedByMemory(c, Exec(c, s, a), e, q) == AdmittedByMemory(c, s, e, q)
  {
    if Exec(c, s, a).memoryCut[q] > e {
      AppendWindow(s.viaMemory[q], s.workers[a.w].t, Start(c, e), e);
    }
  }

  /** A memory decision keeps its process within the limit as long as the window was whole before. */
  lemma MemoryWithinLimit(c: Config, s: State, a: Action, e: real, q: nat)
    requires Safe(c, s, e) && !Cut(c, s, e) && q < c.processes
    ensures |Exec(c, s, a).viaMemory| == c.processes && AdmittedByMemory(c, Exec(c, s, a), e, q) <= c.limit
  {
    assert MemoryBound(c, s, e, q) && s.memoryCut[q] <= e;
    StepMemory(c, s, a, e, q);
    CutAddsNothing(c, s, a, e, q);
  }

  lemma {:induction false} MemoriesWithinLimit(c: Config, s: State, e: real, n: nat)
    requires n <= |s.viaMemory| && forall q: nat | q < |s.viaMemory| :: AdmittedByMemory(c, s, e, q) <= c.limit
    ensures MemoryTotal(c, s, e, n) <= n * c.limit
  {
    if n > 0 {
      MemoriesWithinLimit(c, s, e, n - 1);
      assert n * c.limit == (n - 1) * c.limit + c.limit;
    }
  }

  function RedisUnderWay(c: Config, s: State, e: real): nat {
    AdmittedByRedis(c, s, e) + UnderWay(c, s, e)
  }

  /** A count reply admits nothing yet; its worker stays under way. */
  lemma FirstCutByCount(c: Config, s: State, a: Action, e: real)
    requires Safe(c, s, e) && c.workers >= 1 && !Cut(c, s, e) && Indexed(c, Exec(c, s, a)) && Cut(c, Exec(c, s, a), e)
    requires a.CountReply?
    ensures RedisUnderWay(c, Exec(c, s, a), e) <= c.limit + 2 * (c.workers - 1) + c.Slack()
  {
    var s', w := Exec(c, s, a), a.w;
    CutterIsOut(c, s, a, e);
    TallyUpdate(s.workers, IsUnderWay(Start(c, e), e), w, s'.workers[w]);
    UnderWaySplits(s.workers, Start(c, e), e);
    if !IsElsewhere(Start(c, e), e)(s.workers[w]) {
      TallyMisses(s.workers, IsElsewhere(Start(c, e), e), w);
    }
  }

  /** Any other step that cuts a store leaves its worker idle. */
  lemma FirstCutByOther(c: Config, s: State, a: Action, e: real)
    requires Safe(c, s, e) && c.workers >= 1 && !Cut(c, s, e) && Indexed(c, Exec(c, s, a)) && Cut(c, Exec(c, s, a), e)
    requires !a.CountReply?
    ensures RedisUnderWay(c, Exec(c, s, a), e) <= c.limit + 2 * (c.workers - 1)
  {
    var s' := Exec(c, s, a);
    CutterIsOut(c, s, a, e);
    assert OrderedBound(c, s, e, c.workers);
    StepOrdered(c, s, a, e, c.workers);
    UnderWaySplits(s'.workers, Start(c, e), e);
    TallyMisses(s'.workers, IsElsewhere(Start(c, e), e), a.w);
  }

  lemma FirstCutMemory(c: Config, s: State, a: Action, e: real)
    requires Safe(c, s, e) && !Cut(c, s, e) && Indexed(c, Exec(c, s, a))
    ensures MemoryTotal(c, Exec(c, s, a), e, c.processes) <= c.processes * c.limit
  {
    var s' := Exec(c, s, a);
    forall q: nat | q < |s'.viaMemory| ensures AdmittedByMemory(c, s', e, q) <= c.limit {
      MemoryWithinLimit(c, s, a, e, q);
    }
    MemoriesWithinLimit(c, s', e, c.processes);
  }

  lemma OneMoreLimit(p: nat, l: nat)
    ensures (p + 1) * l == p * l + l
  {
  }

  lemma SumsUp(c: Config, s: State, e: real)
    requires RedisUnderWay(c, s, e) <= c.limit + 2 * (c.workers - 1) + c.Slack()
    requires MemoryTotal(c, s, e, |s.viaMemory|) <= c.processes * c.limit
    ensures AdmittedIn(c, s, e) + UnderWay(c, s, e) <= (c.processes + 1) * c.limit + 2 * (c.workers - 1) + c.Slack()
  {
    OneMoreLimit(c.processes, c.limit);
  }

  /** At the first cut: limit + C - 1 for Redis with the adds outstanding, the limit for each memory, and at most C - 1
      other checks under way (C if the count that cuts is itself late). */
  lemma FirstCut(c: Config, s: State, a: Action, e: real)
    requires Safe(c, s, e) && c.workers >= 1 && !Cut(c, s, e) && Indexed(c, Exec(c, s, a)) && Cut(c, Exec(c, s, a), e)
    ensures TotalBound(c, Exec(c, s, a), e)
  {
    if a.CountReply? {
      FirstCutByCount(c, s, a, e);
    } else {
      FirstCutByOther(c, s, a, e);
    }
    FirstCutMemory(c, s, a, e);
    SumsUp(c, Exec(c, s, a), e);
  }

  lemma StepTotalBound(c: Config, s: State, a: Action, e: real)
    requires Safe(c, s, e) && c.workers >= 1 && TotalBound(c, s, e)
    ensures Indexed(c, Exec(c, s, a)) && TotalBound(c, Exec(c, s, a), e)
  {
    StepBasic(c, s, a);
    if Cut(c, s, e) {
      StepTotal(c, s, a, e);
    } else if Cut(c, Exec(c, s, a), e) {
      FirstCut(c, s, a, e);
    }
  }

  // ---------- over every run ----------

  lemma {:induction false} RunTotal(c: Config, s: State, actions: seq<Action>, e: real)
    requires Safe(c, s, e) && c.workers >= 1 && TotalBound(c, s, e)
    ensures Indexed(c, Run(c, s, actions)) && Safe(c, Run(c, s, actions), e) && TotalBound(c, Run(c, s, actions), e)
    decreases |actions|
  {
    if actions != [] {
      StepTotalBound(c, s, actions[0], e);
      StepSafe(c, s, actions[0], e);
      RunTotal(c, Exec(c, s, actions[0]), actions[1..], e);
    }
  }

  /** While the window is whole, the path bounds add up to less. */
  lemma WholeWindow(c: Config, s: State, e: real)
    requires Safe(c, s, e) && c.workers >= 1 && !Cut(c, s, e)
    ensures AdmittedIn(c, s, e) <= (c.processes + 1) * c.limit + (c.workers - 1)
  {
    forall q: nat | q < |s.viaMemory| ensures AdmittedByMemory(c, s, e, q) <= c.limit {
      assert s.memoryCut[q] <= e && MemoryBound(c, s, e, q);
    }
    MemoriesWithinLimit(c, s, e, c.processes);
    OneMoreLimit(c.processes, c.limit);
  }

  lemma InitTotal(c: Config, e: real)
    ensures AdmittedIn(c, Init(c), e) == 0 && UnderWay(c, Init(c), e) == 0
  {
    InitBasic(c);
    NothingAdmitted(c, Init(c), e, c.processes);
  }

  lemma {:induction false} NothingAdmitted(c: Config, s: State, e: real, n: nat)
    requires n <= |s.viaMemory| && forall q: nat | q < |s.viaMemory| :: s.viaMemory[q] == []
    ensures MemoryTotal(c, s, e, n) == 0
  {
    if n > 0 {
      NothingAdmitted(c, s, e, n - 1);
    }
  }

  /** In every interleaving of P processes and C workers, with every pattern of Redis failures, any window holds at most
      limit + 2(C-1) admissions granted through Redis, limit + (C-1) granted by one process's memory, and
      (P+1) * limit + 2(C-1) in all. Where counts may come later than five seconds after their clock reads, Redis and the
      total may have one more. */
  lemma WindowBound(c: Config, actions: seq<Action>, e: real)
    requires c.workers >= 1
    ensures
      var s := Run(c, Init(c), actions);
      && |s.viaMemory| == c.processes
      && AdmittedByRedis(c, s, e) <= c.limit + 2 * (c.workers - 1) + c.Slack()
      && (forall q: nat | q < c.processes :: AdmittedByMemory(c, s, e, q) <= c.limit + (c.workers - 1))
      && AdmittedIn(c, s, e) <= (c.processes + 1) * c.limit + 2 * (c.workers - 1) + c.Slack()
  {
    InitSafe(c, e);
    InitTotal(c, e);
    var s := Run(c, Init(c), actions);
    RunTotal(c, Init(c), actions, e);
    if !Cut(c, s, e) {
      WholeWindow(c, s, e);
    }
    forall q: nat | q < c.processes ensures AdmittedByMemory(c, s, e, q) <= c.limit + (c.workers - 1) {
      assert MemoryBound(c, s, e, q);
    }
  }

  /** With one check at a time: at most (P+1) times the limit under arbitrary outages, and exactly the limit when every
      admission goes through Redis or everything runs in the memory of one process; with late counts one more. */
  lemma SerialWindowBound(c: Config, actions: seq<Action>, e: real)
    requires c.workers == 1
    ensures
      var s := Run(c, Init(c), actions);
      && |s.viaMemory| == c.processes
      && AdmittedIn(c, s, e) <= (c.processes + 1) * c.limit + c.Slack()
      && AdmittedByRedis(c, s, e) <= c.limit + c.Slack()
      && (forall q: nat | q < c.processes :: AdmittedByMemory(c, s, e, q) <= c.limit)
  {
    WindowBound(c, actions, e);
  }
}
