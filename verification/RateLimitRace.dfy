/** Concurrent rate-limit checks on one key: `processes` server processes share one Redis, at most `workers` checks
    are under way at once, and every Redis call may fail, applied or not. A check is split at its awaits: the clock
    read, the count pipeline, the add pipeline or the zrange call. Falling back to process memory has no await. */
module RateLimitRace {
  import opened Redis
  import opened RateLimit
  import opened Windows

  /** `delay` bounds the time from a clock read to the count that follows it, if that is answered. */
  datatype Config = Config(limit: nat, window: nat, processes: nat, workers: nat, delay: Time) {
    function Policy(): Policy {
      RateLimit.Policy(limit, window)
    }

    /** What counts that may find their key expired add to a bound. */
    function Slack(): nat {
      if delay <= 5.0 then 0 else 1
    }
  }

  /** Where a worker stands: `t` is the clock it read when it began. */
  datatype Phase =
    | Idle
    | Reading(proc: nat, t: Time)    // the count pipeline is outstanding
    | Admitting(proc: nat, t: Time)  // counted below the limit, the add pipeline is outstanding
    | Refused(proc: nat, t: Time)    // counted at the limit, zrange is outstanding

  /** The stores, the workers, and history: which clock readings were admitted on which path, and up to which clock
      reading entries may have been dropped from each store. */
  datatype State = State(
    clock: Time,
    zset: ZSet,
    memory: seq<seq<Time>>,
    workers: seq<Phase>,
    viaRedis: seq<Time>,
    viaMemory: seq<seq<Time>>,
    cut: real,
    memoryCut: seq<real>)

  datatype Action =
    | Tick(elapsed: Time)
    | Begin(w: nat, proc: nat)
    | CountReply(w: nat)
    | CountFault(w: nat, applied: bool)
    | AddReply(w: nat, nonce: int)
    | AddFault(w: nat, nonce: int, applied: bool)
    | RangeReply(w: nat)
    | RangeFault(w: nat)

  function Init(c: Config): State {
    State(0.0, NO_ZSET, seq(c.processes, _ => []), seq(c.workers, _ => Idle),
          [], seq(c.processes, _ => []), 0.0, seq(c.processes, _ => 0.0))
  }

  function Later(x: real, y: real): real {
    if x < y then y else x
  }

  /** If the key has expired, everything with a score below clock - window - 5 is gone. */
  function ExpiryCut(s: State): real {
    if s.clock < s.zset.expireAt then s.cut else Later(s.cut, s.clock - 5.0)
  }

  function ServerPrune(c: Config, s: State, t: Time): State {
    s.(zset := Pruned(s.zset, s.clock, WindowStart(t, c.Policy())), cut := Later(ExpiryCut(s), t))
  }

  function ServerAdd(c: Config, s: State, m: Member): State {
    s.(zset := Added(s.zset, s.clock, m, c.Policy()), cut := ExpiryCut(s))
  }

  predicate Indexed(c: Config, s: State) {
    |s.memory| == |s.viaMemory| == |s.memoryCut| == c.processes && |s.workers| == c.workers
  }

  predicate Under(c: Config, s: State, w: nat) {
    Indexed(c, s) && w < c.workers && !s.workers[w].Idle? && s.workers[w].proc < c.processes
  }

  /** The in-memory decision of worker `w`, with the clock it read at its start. */
  function Fall(c: Config, s: State, w: nat): State
    requires Under(c, s, w)
  {
    var q, t := s.workers[w].proc, s.workers[w].t;
    var (ts, r) := InMemory(s.memory[q], c.Policy(), t);
    s.(memory := s.memory[q := ts],
       viaMemory := if r.allowed then s.viaMemory[q := s.viaMemory[q] + [t]] else s.viaMemory,
       memoryCut := s.memoryCut[q := Later(s.memoryCut[q], t)],
       workers := s.workers[w := Idle])
  }

  /** One step; an action that is not enabled changes nothing. A count reply arrives within the delay after the clock read,
      and a member added is new. */
  function Exec(c: Config, s: State, a: Action): State {
    match a
    case Tick(elapsed) => s.(clock := s.clock + elapsed)
    case Begin(w, proc) =>
      if Indexed(c, s) && w < c.workers && s.workers[w].Idle? && proc < c.processes then
        s.(workers := s.workers[w := Reading(proc, s.clock)])
      else s
    case CountReply(w) =>
      if Under(c, s, w) && s.workers[w].Reading? && s.clock <= s.workers[w].t + c.delay then
        var Reading(proc, t) := s.workers[w];
        var s' := ServerPrune(c, s, t);
        s'.(workers := s.workers[w := if |s'.zset.members| < c.limit then Admitting(proc, t) else Refused(proc, t)])
      else s
    case CountFault(w, applied) =>
      if Under(c, s, w) && s.workers[w].Reading? then
        Fall(c, if applied then ServerPrune(c, s, s.workers[w].t) else s, w)
      else s
    case AddReply(w, nonce) =>
      if Under(c, s, w) && s.workers[w].Admitting? && Member(s.workers[w].t, nonce) !in Live(s.zset, s.clock) then
        var t := s.workers[w].t;
        ServerAdd(c, s, Member(t, nonce)).(viaRedis := s.viaRedis + [t], workers := s.workers[w := Idle])
      else s
    case AddFault(w, nonce, applied) =>
      if Under(c, s, w) && s.workers[w].Admitting? then
        Fall(c, if applied then ServerAdd(c, s, Member(s.workers[w].t, nonce)) else s, w)
      else s
    case RangeReply(w) =>
      if Under(c, s, w) && s.workers[w].Refused? then s.(workers := s.workers[w := Idle]) else s
    case RangeFault(w) =>
      if Under(c, s, w) && s.workers[w].Refused? then Fall(c, s, w) else s
  }

  function Run(c: Config, s: State, actions: seq<Action>): State
    decreases |actions|
  {
    if actions == [] then s else Run(c, Exec(c, s, actions[0]), actions[1..])
  }

  // ---------- counting workers ----------

  function Tally(ws: seq<Phase>, f: Phase -> bool): (n: nat)
    ensures n <= |ws|
  {
    if ws == [] then 0 else (if f(ws[0]) then 1 else 0) + Tally(ws[1..], f)
  }

  function One(b: bool): nat {
    if b then 1 else 0
  }

  lemma {:induction false} TallyUpdate(ws: seq<Phase>, f: Phase -> bool, w: nat, x: Phase)
    requires w < |ws|
    ensures Tally(ws[w := x], f) == Tally(ws, f) - One(f(ws[w])) + One(f(x))
  {
    if w == 0 {
      assert ws[w := x][1..] == ws[1..];
    } else {
      TallyUpdate(ws[1..], f, w - 1, x);
      assert ws[w := x][1..] == ws[1..][w - 1 := x];
    }
  }

  lemma {:induction false} TallyMisses(ws: seq<Phase>, f: Phase -> bool, w: nat)
    requires w < |ws| && !f(ws[w])
    ensures Tally(ws, f) <= |ws| - 1
  {
    if w > 0 {
      TallyMisses(ws[1..], f, w - 1);
    }
  }

  lemma {:induction false} TallyMonotone(ws: seq<Phase>, f: Phase -> bool, g: Phase -> bool)
    requires forall x :: f(x) ==> g(x)
    ensures Tally(ws, f) <= Tally(ws, g)
  {
    if ws != [] {
      TallyMonotone(ws[1..], f, g);
    }
  }

  function Start(c: Config, e: real): real {
    e - c.window as real
  }

  function IsAdmitting(lo: real, hi: real): Phase -> bool {
    (x: Phase) => x.Admitting? && lo < x.t <= hi
  }

  /** Still able to be counted below the limit. */
  function IsViable(c: Config, e: real, clock: Time): Phase -> bool {
    (x: Phase) => x.Reading? && Start(c, e) < x.t <= e && clock <= x.t + c.delay
  }

  function IsInFlight(q: nat, lo: real, hi: real): Phase -> bool {
    (x: Phase) => !x.Idle? && x.proc == q && lo < x.t <= hi
  }

  // ---------- what every step keeps ----------

  ghost predicate Basic(c: Config, s: State) {
    && Indexed(c, s)
    && s.cut <= s.clock
    && (forall q | 0 <= q < c.processes :: s.memoryCut[q] <= s.clock)
    && (forall w | 0 <= w < c.workers ::
          s.workers[w].Idle? || (s.workers[w].proc < c.processes && s.workers[w].t <= s.clock))
    && (forall m | m in s.zset.members :: m.score <= s.clock && m.score + (c.window + 5) as real <= s.zset.expireAt)
  }

  lemma PruneBasic(c: Config, s: State, t: Time)
    requires Basic(c, s) && t <= s.clock
    ensures Basic(c, ServerPrune(c, s, t))
  {
    var hi := WindowStart(t, c.Policy());
    forall m | m in ServerPrune(c, s, t).zset.members ensures m in s.zset.members {
      RemovedMembers(Live(s.zset, s.clock), 0.0, hi, m);
    }
  }

  lemma AddBasic(c: Config, s: State, m: Member)
    requires Basic(c, s) && m.score <= s.clock
    ensures Basic(c, ServerAdd(c, s, m))
  {
    var live := Live(s.zset, s.clock);
    forall x | x in ServerAdd(c, s, m).zset.members ensures x == m || x in live {
      InsertedMembers(live, m, x);
    }
  }

  lemma FallBasic(c: Config, s: State, w: nat)
    requires Basic(c, s) && Under(c, s, w)
    ensures Basic(c, Fall(c, s, w))
  {
  }

  lemma FaultBasic(c: Config, s: State, a: Action)
    requires Basic(c, s) && (a.CountFault? || a.AddFault? || a.RangeFault?)
    ensures Basic(c, Exec(c, s, a))
  {
    if Under(c, s, a.w) {
      match a
      case CountFault(w, applied) =>
        PruneBasic(c, s, s.workers[w].t);
        FallBasic(c, if applied then ServerPrune(c, s, s.workers[w].t) else s, w);
      case AddFault(w, nonce, applied) =>
        AddBasic(c, s, Member(s.workers[w].t, nonce));
        FallBasic(c, if applied then ServerAdd(c, s, Member(s.workers[w].t, nonce)) else s, w);
      case RangeFault(w) => FallBasic(c, s, w);
    }
  }

  lemma StepBasic(c: Config, s: State, a: Action)
    requires Basic(c, s)
    ensures Basic(c, Exec(c, s, a))
  {
    match a
    case CountReply(w) =>
      if Under(c, s, w) { PruneBasic(c, s, s.workers[w].t); }
    case AddReply(w, nonce) =>
      if Under(c, s, w) { AddBasic(c, s, Member(s.workers[w].t, nonce)); }
    case CountFault(_, _) => FaultBasic(c, s, a);
    case AddFault(_, _, _) => FaultBasic(c, s, a);
    case RangeFault(_) => FaultBasic(c, s, a);
    case _ =>
  }

  function InRedis(c: Config, s: State, e: real): nat {
    InWindow(Scores(s.zset.members), Start(c, e), e)
  }

  function AdmittedByRedis(c: Config, s: State, e: real): nat {
    InWindow(s.viaRedis, Start(c, e), e)
  }

  function AdmittedByMemory(c: Config, s: State, e: real, q: nat): nat
    requires q < |s.viaMemory|
  {
    InWindow(s.viaMemory[q], Start(c, e), e)
  }

  /** The window (e - window, e]. While nothing of it has been dropped, Redis still holds every admission it granted
      there. Once something may have been dropped, only workers that read the clock before can add to it. */
  ghost predicate RedisBound(c: Config, s: State, e: real) {
    var admitting := Tally(s.workers, IsAdmitting(Start(c, e), e));
    var viable := Tally(s.workers, IsViable(c, e, s.clock));
    if s.cut <= e then
      && AdmittedByRedis(c, s, e) <= InRedis(c, s, e)
      && AdmittedByRedis(c, s, e) + admitting <= c.limit + c.workers - 1
    else
      AdmittedByRedis(c, s, e) + admitting + viable <= c.limit + 2 * c.workers - 2 + c.Slack()
  }

  /** Expiry drops nothing of a window whose end is at most five seconds old. */
  lemma ExpiryKeepsWindow(c: Config, s: State, e: real)
    requires Basic(c, s) && ExpiryCut(s) <= e
    ensures InWindow(Scores(Live(s.zset, s.clock)), Start(c, e), e) == InRedis(c, s, e)
  {
    if s.clock >= s.zset.expireAt {
      var lo, ts := Start(c, e), Scores(s.zset.members);
      forall i | 0 <= i < |ts| ensures ts[i] <= lo {
        assert s.zset.members[i] in s.zset.members;
      }
      AfterNone(ts, lo);
      AfterKeepsWindow(ts, lo, lo, e);
    }
  }

  lemma PruneKeepsWindow(c: Config, s: State, t: Time, e: real)
    requires Basic(c, s) && ServerPrune(c, s, t).cut <= e
    ensures InRedis(c, ServerPrune(c, s, t), e) == InRedis(c, s, e)
    ensures InRedis(c, ServerPrune(c, s, t), e) <= |ServerPrune(c, s, t).zset.members|
  {
    var live, hi := Live(s.zset, s.clock), WindowStart(t, c.Policy());
    ExpiryKeepsWindow(c, s, e);
    RemoveKeepsScores(live, hi);
    AfterKeepsWindow(Scores(live), hi, Start(c, e), e);
    WindowAtMostLength(Scores(ServerPrune(c, s, t).zset.members), Start(c, e), e);
  }

  lemma AddKeepsWindow(c: Config, s: State, m: Member, e: real)
    requires Basic(c, s) && ServerAdd(c, s, m).cut <= e
    ensures InRedis(c, ServerAdd(c, s, m), e) >= InRedis(c, s, e)
    ensures m !in Live(s.zset, s.clock) ==>
              InRedis(c, ServerAdd(c, s, m), e) == InRedis(c, s, e) + Weight(m.score, Start(c, e), e)
  {
    ExpiryKeepsWindow(c, s, e);
    InsertWindow(Live(s.zset, s.clock), m, Start(c, e), e);
  }

  lemma TallyBoth(c: Config, s: State, w: nat, x: Phase, e: real)
    requires w < |s.workers|
    ensures
      var lo, ws' := Start(c, e), s.workers[w := x];
      && Tally(ws', IsAdmitting(lo, e)) ==
         Tally(s.workers, IsAdmitting(lo, e)) - One(IsAdmitting(lo, e)(s.workers[w])) + One(IsAdmitting(lo, e)(x))
      && Tally(ws', IsViable(c, e, s.clock)) ==
         Tally(s.workers, IsViable(c, e, s.clock)) - One(IsViable(c, e, s.clock)(s.workers[w]))
         + One(IsViable(c, e, s.clock)(x))
      && (!IsViable(c, e, s.clock)(x) ==> Tally(ws', IsViable(c, e, s.clock)) <= |s.workers| - 1)
  {
    TallyUpdate(s.workers, IsAdmitting(Start(c, e), e), w, x);
    TallyUpdate(s.workers, IsViable(c, e, s.clock), w, x);
    if !IsViable(c, e, s.clock)(x) {
      TallyMisses(s.workers[w := x], IsViable(c, e, s.clock), w);
    }
  }

  lemma CountReplyRedis(c: Config, s: State, w: nat, e: real)
    requires Basic(c, s) && RedisBound(c, s, e)
    ensures RedisBound(c, Exec(c, s, CountReply(w)), e)
  {
    var s' := Exec(c, s, CountReply(w));
    if Under(c, s, w) && s' != s {
      TallyBoth(c, s, w, s'.workers[w], e);
      if s'.cut <= e {
        PruneKeepsWindow(c, s, s.workers[w].t, e);
      }
    }
  }

  lemma CountFaultRedis(c: Config, s: State, w: nat, applied: bool, e: real)
    requires Basic(c, s) && RedisBound(c, s, e)
    ensures RedisBound(c, Exec(c, s, CountFault(w, applied)), e)
  {
    var s' := Exec(c, s, CountFault(w, applied));
    if Under(c, s, w) && s.workers[w].Reading? {
      TallyBoth(c, s, w, Idle, e);
      if applied && s'.cut <= e {
        PruneKeepsWindow(c, s, s.workers[w].t, e);
      }
    }
  }

  lemma AddReplyRedis(c: Config, s: State, w: nat, nonce: int, e: real)
    requires Basic(c, s) && RedisBound(c, s, e)
    ensures RedisBound(c, Exec(c, s, AddReply(w, nonce)), e)
  {
    var s' := Exec(c, s, AddReply(w, nonce));
    if Under(c, s, w) && s.workers[w].Admitting? {
      var m := Member(s.workers[w].t, nonce);
      TallyBoth(c, s, w, Idle, e);
      AppendWindow(s.viaRedis, m.score, Start(c, e), e);
      if s'.cut <= e && m !in Live(s.zset, s.clock) {
        AddKeepsWindow(c, s, m, e);
      }
    }
  }

  lemma AddFaultRedis(c: Config, s: State, w: nat, nonce: int, applied: bool, e: real)
    requires Basic(c, s) && RedisBound(c, s, e)
    ensures RedisBound(c, Exec(c, s, AddFault(w, nonce, applied)), e)
  {
    var s' := Exec(c, s, AddFault(w, nonce, applied));
    if Under(c, s, w) && s.workers[w].Admitting? {
      TallyBoth(c, s, w, Idle, e);
      if applied && s'.cut <= e {
        AddKeepsWindow(c, s, Member(s.workers[w].t, nonce), e);
      }
    }
  }

  /** A worker that begins, or whose zrange answers or fails. */
  lemma OtherRedis(c: Config, s: State, a: Action, e: real)
    requires Basic(c, s) && RedisBound(c, s, e) && (a.Begin? || a.RangeReply? || a.RangeFault?)
    ensures RedisBound(c, Exec(c, s, a), e)
  {
    if a.w < |s.workers| {
      TallyBoth(c, s, a.w, Exec(c, s, a).workers[a.w], e);
      assert s.workers[a.w := s.workers[a.w]] == s.workers;
    }
  }

  lemma StepRedis(c: Config, s: State, a: Action, e: real)
    requires Basic(c, s) && RedisBound(c, s, e)
    ensures RedisBound(c, Exec(c, s, a), e)
  {
    match a
    case Tick(elapsed) =>
      TallyMonotone(s.workers, IsViable(c, e, s.clock + elapsed), IsViable(c, e, s.clock));
    case CountReply(w) => CountReplyRedis(c, s, w, e);
    case CountFault(w, applied) => CountFaultRedis(c, s, w, applied, e);
    case AddReply(w, nonce) => AddReplyRedis(c, s, w, nonce, e);
    case AddFault(w, nonce, applied) => AddFaultRedis(c, s, w, nonce, applied, e);
    case _ => OtherRedis(c, s, a, e);
  }

  /** The same argument for the memory of process `q`, whose decision is one step. */
  ghost predicate MemoryBound(c: Config, s: State, e: real, q: nat)
    requires Indexed(c, s) && q < c.processes
  {
    if s.memoryCut[q] <= e then
      && AdmittedByMemory(c, s, e, q) <= InWindow(s.memory[q], Start(c, e), e)
      && AdmittedByMemory(c, s, e, q) <= c.limit
    else
      AdmittedByMemory(c, s, e, q) + Tally(s.workers, IsInFlight(q, Start(c, e), e)) <= c.limit + c.workers - 1
  }

  lemma FallMemory(c: Config, s: State, w: nat, e: real, q: nat)
    requires Indexed(c, s) && q < c.processes && Under(c, s, w) && MemoryBound(c, s, e, q)
    ensures MemoryBound(c, Fall(c, s, w), e, q)
  {
    var lo, t := Start(c, e), s.workers[w].t;
    TallyUpdate(s.workers, IsInFlight(q, lo, e), w, Idle);
    TallyMisses(s.workers[w := Idle], IsInFlight(q, lo, e), w);
    if s.workers[w].proc == q {
      var kept := After(s.memory[q], WindowStart(t, c.Policy()));
      AppendWindow(s.viaMemory[q], t, lo, e);
      AppendWindow(kept, t, lo, e);
      WindowAtMostLength(kept, lo, e);
      if t <= e {
        AfterKeepsWindow(s.memory[q], WindowStart(t, c.Policy()), lo, e);
      }
    }
  }

  /** A worker that moves on with the clock it read, finishes, or begins now does not disturb the bound. */
  lemma RephaseMemory(c: Config, s: State, w: nat, x: Phase, e: real, q: nat)
    requires Basic(c, s) && q < c.processes && MemoryBound(c, s, e, q) && w < c.workers
    requires
      || x.Idle?
      || (x.Reading? && x.t == s.clock && s.workers[w].Idle?)
      || (!s.workers[w].Idle? && x.proc == s.workers[w].proc && x.t == s.workers[w].t)
    ensures MemoryBound(c, s.(workers := s.workers[w := x]), e, q)
  {
    TallyUpdate(s.workers, IsInFlight(q, Start(c, e), e), w, x);
  }

  /** Nor does anything that happens on the Redis side. */
  lemma RedisSideMemory(c: Config, s: State, s': State, e: real, q: nat)
    requires Indexed(c, s) && q < c.processes && MemoryBound(c, s, e, q)
    requires s'.memory == s.memory && s'.viaMemory == s.viaMemory && s'.memoryCut == s.memoryCut
    requires s'.workers == s.workers
    ensures Indexed(c, s') && MemoryBound(c, s', e, q)
  {
  }

  lemma FaultMemory(c: Config, s: State, a: Action, e: real, q: nat)
    requires Basic(c, s) && q < c.processes && MemoryBound(c, s, e, q)
    requires a.CountFault? || a.AddFault? || a.RangeFault?
    ensures Indexed(c, Exec(c, s, a)) && MemoryBound(c, Exec(c, s, a), e, q)
  {
    var w := a.w;
    if Under(c, s, w) {
      var s1 :=
        if a.CountFault? && a.applied then ServerPrune(c, s, s.workers[w].t)
        else if a.AddFault? && a.applied then ServerAdd(c, s, Member(s.workers[w].t, a.nonce))
        else s;
      RedisSideMemory(c, s, s1, e, q);
      FallMemory(c, s1, w, e, q);
    }
  }

  lemma ReplyMemory(c: Config, s: State, a: Action, e: real, q: nat)
    requires Basic(c, s) && q < c.processes && MemoryBound(c, s, e, q)
    requires a.CountReply? || a.AddReply?
    ensures Indexed(c, Exec(c, s, a)) && MemoryBound(c, Exec(c, s, a), e, q)
  {
    var w, s' := a.w, Exec(c, s, a);
    if Under(c, s, w) && s' != s {
      RephaseMemory(c, s, w, s'.workers[w], e, q);
      RedisSideMemory(c, s.(workers := s.workers[w := s'.workers[w]]), s', e, q);
    }
  }

  lemma StepMemory(c: Config, s: State, a: Action, e: real, q: nat)
    requires Basic(c, s) && q < c.processes && MemoryBound(c, s, e, q)
    ensures Indexed(c, Exec(c, s, a)) && MemoryBound(c, Exec(c, s, a), e, q)
  {
    match a
    case Tick(_) =>
    case Begin(w, proc) =>
      if w < c.workers && s.workers[w].Idle? { RephaseMemory(c, s, w, Reading(proc, s.clock), e, q); }
    case RangeReply(w) =>
      if w < c.workers { RephaseMemory(c, s, w, Idle, e, q); }
    case CountReply(_) => ReplyMemory(c, s, a, e, q);
    case AddReply(_, _) => ReplyMemory(c, s, a, e, q);
    case _ => FaultMemory(c, s, a, e, q);
  }

  // ---------- over every run ----------

  ghost predicate Safe(c: Config, s: State, e: real) {
    Basic(c, s) && RedisBound(c, s, e) && forall q: nat | q < c.processes :: MemoryBound(c, s, e, q)
  }

  lemma StepSafe(c: Config, s: State, a: Action, e: real)
    requires Safe(c, s, e)
    ensures Safe(c, Exec(c, s, a), e)
  {
    StepBasic(c, s, a);
    StepRedis(c, s, a, e);
    forall q: nat | q < c.processes ensures MemoryBound(c, Exec(c, s, a), e, q) {
      StepMemory(c, s, a, e, q);
    }
  }

  lemma {:induction false} RunSafe(c: Config, s: State, actions: seq<Action>, e: real)
    requires Safe(c, s, e)
    ensures Safe(c, Run(c, s, actions), e)
    decreases |actions|
  {
    if actions != [] {
      StepSafe(c, s, actions[0], e);
      RunSafe(c, Exec(c, s, actions[0]), actions[1..], e);
    }
  }

  lemma InitSafe(c: Config, e: real)
    requires c.workers >= 1
    ensures Safe(c, Init(c), e)
  {
    var s, lo := Init(c), Start(c, e);
    AllIdle(s.workers, IsAdmitting(lo, e));
    AllIdle(s.workers, IsViable(c, e, s.clock));
    forall q: nat | q < c.processes ensures MemoryBound(c, s, e, q) {
      AllIdle(s.workers, IsInFlight(q, lo, e));
    }
  }

  lemma {:induction false} AllIdle(ws: seq<Phase>, f: Phase -> bool)
    requires !f(Idle) && forall w | 0 <= w < |ws| :: ws[w] == Idle
    ensures Tally(ws, f) == 0
  {
    if ws != [] {
      AllIdle(ws[1..], f);
    }
  }

  /** All admissions of the window (e - window, e], whichever path granted them. */
  function AdmittedIn(c: Config, s: State, e: real): nat {
    AdmittedByRedis(c, s, e) + MemoryTotal(c, s, e, |s.viaMemory|)
  }

  function MemoryTotal(c: Config, s: State, e: real, n: nat): nat
    requires n <= |s.viaMemory|
  {
    if n == 0 then 0 else MemoryTotal(c, s, e, n - 1) + AdmittedByMemory(c, s, e, n - 1)
  }

  // ---------- runs of several steps ----------

  lemma RunStep(c: Config, s: State, a: Action, rest: seq<Action>)
    ensures Run(c, s, [a] + rest) == Run(c, Exec(c, s, a), rest)
  {
    assert ([a] + rest)[1..] == rest;
  }

  lemma {:induction false} RunConcat(c: Config, s: State, first: seq<Action>, rest: seq<Action>)
    ensures Run(c, s, first + rest) == Run(c, Run(c, s, first), rest)
    decreases |first|
  {
    if first == [] {
      assert first + rest == rest;
    } else {
      RunConcat(c, Exec(c, s, first[0]), first[1..], rest);
      assert (first + rest)[1..] == first[1..] + rest;
    }
  }
}
