/** What one process's memory can admit in one window when Redis is down: exactly the limit if that is at most one, and up to
    limit + C - 1 from a limit of two on. */
module RateLimitMemory {
  import opened Redis
  import opened RateLimit
  import opened RateLimitRace
  import opened RateLimitTight
  import opened Windows

  // ---------- limits up to one ----------

  ghost predicate Spaced(ts: seq<Time>, gap: nat) {
    forall i, j | 0 <= i < j < |ts| :: ts[i] + gap as real <= ts[j]
  }

  /** Admissions a window apart: at most one lies in a window. */
  lemma {:induction false} SpacedWindow(ts: seq<Time>, gap: nat, e: real)
    requires Spaced(ts, gap)
    ensures InWindow(ts, e - gap as real, e) <= 1
  {
    if ts != [] {
      var rest := ts[1..];
      assert forall i | 0 <= i < |rest| :: rest[i] == ts[i + 1];
      SpacedWindow(rest, gap, e);
      if e - gap as real < ts[0] <= e {
        NoneLater(rest, e - gap as real, e);
      }
    }
  }

  lemma {:induction false} NoneLater(ts: seq<Time>, lo: real, e: real)
    requires forall i | 0 <= i < |ts| :: ts[i] > e
    ensures InWindow(ts, lo, e) == 0
  {
    if ts != [] {
      NoneLater(ts[1..], lo, e);
    }
  }

  /** With limit one the memory holds nothing but the latest admission, and admissions are a window apart. */
  ghost predicate Single(c: Config, memory: seq<Time>, granted: seq<Time>) {
    && (c.limit == 0 ==> memory == [] && granted == [])
    && (memory == [] ==> granted == [])
    && (memory != [] ==> |memory| == 1 && granted != [] && granted[|granted| - 1] == memory[0] && Spaced(granted, c.window))
  }

  /** What a step does to the memory of process `q`. */
  lemma MemoryStep(c: Config, s: State, a: Action, q: nat)
    requires Indexed(c, s) && q < c.processes
    ensures Indexed(c, Exec(c, s, a))
    ensures
      var s' := Exec(c, s, a);
      || (s'.memory[q] == s.memory[q] && s'.viaMemory[q] == s.viaMemory[q])
      || (!a.Tick? && Under(c, s, a.w) &&
          var (ts, r) := InMemory(s.memory[q], c.Policy(), s.workers[a.w].t);
          s'.memory[q] == ts && s'.viaMemory[q] == s.viaMemory[q] + if r.allowed then [s.workers[a.w].t] else [])
  {
  }

  lemma SingleDecision(c: Config, memory: seq<Time>, granted: seq<Time>, t: Time)
    requires c.limit <= 1 && Single(c, memory, granted)
    ensures
      var (ts, r) := InMemory(memory, c.Policy(), t);
      Single(c, ts, granted + if r.allowed then [t] else [])
  {
    if memory != [] {
      assert memory == [memory[0]] && After(memory[1..], WindowStart(t, c.Policy())) == [];
    }
  }

  lemma {:induction false} RunSingle(c: Config, s: State, actions: seq<Action>, q: nat)
    requires c.limit <= 1 && Indexed(c, s) && q < c.processes && Single(c, s.memory[q], s.viaMemory[q])
    ensures Indexed(c, Run(c, s, actions))
    ensures Single(c, Run(c, s, actions).memory[q], Run(c, s, actions).viaMemory[q])
    decreases |actions|
  {
    if actions != [] {
      var a, s' := actions[0], Exec(c, s, actions[0]);
      MemoryStep(c, s, a, q);
      if !(s'.memory[q] == s.memory[q] && s'.viaMemory[q] == s.viaMemory[q]) {
        SingleDecision(c, s.memory[q], s.viaMemory[q], s.workers[a.w].t);
      }
      RunSingle(c, s', actions[1..], q);
    }
  }

  /** A limit of at most one is never exceeded in process memory, whatever races. */
  lemma SmallLimitHolds(c: Config, actions: seq<Action>, e: real, q: nat)
    requires c.limit <= 1 && q < c.processes
    ensures |Run(c, Init(c), actions).viaMemory| == c.processes
    ensures AdmittedByMemory(c, Run(c, Init(c), actions), e, q) <= c.limit
  {
    RunSingle(c, Init(c), actions, q);
    SpacedWindow(Run(c, Init(c), actions).viaMemory[q], c.window, e);
  }

  // ---------- limits from two on ----------

  /** The first process: its clock, workers `k` and up waiting with clock 0, everything in its memory in the past, and `n`
      admissions in the window (-window, 0]. */
  ghost predicate Stale(c: Config, actions: seq<Action>, clock: Time, k: nat, n: nat) {
    var s := Run(c, Init(c), actions);
    && Indexed(c, s) && c.processes >= 1 && s.clock == clock
    && s.workers == Line(c, k, Idle, Idle, Reading(0, 0.0))
    && AllAtMost(s.memory[0], clock) && InWindow(s.viaMemory[0], Start(c, 0.0), 0.0) == n
  }

  /** The same at clock 0, with `m` admissions in memory. */
  ghost predicate Filling(c: Config, actions: seq<Action>, m: nat) {
    && Stale(c, actions, 0.0, 1, m)
    && AllAtZero(Run(c, Init(c), actions).memory[0]) && |Run(c, Init(c), actions).memory[0]| == m
  }

  /** All workers but worker 0 read clock 0. */
  lemma {:induction false} OthersRead(c: Config, k: nat) returns (actions: seq<Action>)
    requires Sensible(c) && 1 <= k <= c.workers
    ensures
      var s := Run(c, Init(c), actions);
      && Indexed(c, s) && s.clock == 0.0 && s.memory[0] == s.viaMemory[0] == []
      && s.workers == Line(c, k, Idle, Reading(0, 0.0), Idle)
  {
    if k == 1 {
      actions := [];
      assert Init(c).workers == Line(c, 1, Idle, Reading(0, 0.0), Idle);
    } else {
      actions := OthersRead(c, k - 1);
      Extend(c, actions, Begin(k - 1, 0));
      actions := actions + [Begin(k - 1, 0)];
      LineMoves(c, k - 1, Idle, Reading(0, 0.0), Idle, Idle);
    }
  }

  lemma {:induction false} FillMemory(c: Config, m: nat) returns (actions: seq<Action>)
    requires Sensible(c) && m <= c.limit
    ensures Filling(c, actions, m)
  {
    if m == 0 {
      actions := OthersRead(c, c.workers);
      LineMoves(c, c.workers, Idle, Reading(0, 0.0), Idle, Idle);
    } else {
      actions := FillMemory(c, m - 1);
      actions := FillMore(c, actions, m - 1);
    }
  }

  /** Worker 0 reads the clock, its count fails, and memory admits it. */
  lemma FallsAtOnce(c: Config, actions: seq<Action>, s: State) returns (more: seq<Action>)
    requires Sensible(c) && Run(c, Init(c), actions) == s && Indexed(c, s) && s.workers[0].Idle?
    requires |After(s.memory[0], Start(c, s.clock))| < c.limit
    ensures
      var s' := Run(c, Init(c), more);
      && Indexed(c, s') && s'.clock == s.clock && s'.workers == s.workers
      && s'.memory[0] == After(s.memory[0], Start(c, s.clock)) + [s.clock]
      && s'.viaMemory[0] == s.viaMemory[0] + [s.clock]
  {
    Extend(c, actions, Begin(0, 0));
    Extend(c, actions + [Begin(0, 0)], CountFault(0, false));
    more := actions + [Begin(0, 0)] + [CountFault(0, false)];
    SameCell(s.workers, Reading(0, s.clock), Idle);
    assert s.workers[0 := Idle] == s.workers;
  }

  lemma FillMore(c: Config, actions: seq<Action>, m: nat) returns (more: seq<Action>)
    requires Sensible(c) && m < c.limit && Filling(c, actions, m)
    ensures Filling(c, more, m + 1)
  {
    var s := Run(c, Init(c), actions);
    AfterZero(s.memory[0], Start(c, 0.0));
    AppendWindow(s.viaMemory[0], 0.0, Start(c, 0.0), 0.0);
    more := FallsAtOnce(c, actions, s);
  }

  /** A window later worker 0 falls back again and clears the memory but for itself. */
  lemma Refresh(c: Config, actions: seq<Action>, clock: Time, k: nat, n: nat) returns (more: seq<Action>)
    requires Sensible(c) && Stale(c, actions, clock, k, n)
    ensures Stale(c, more, clock + c.window as real, k, n)
    ensures Run(c, Init(c), more).memory[0] == [clock + c.window as real]
  {
    var w: Time := c.window as real;
    Extend(c, actions, Tick(w));
    var s := Run(c, Init(c), actions + [Tick(w)]);
    AfterNone(s.memory[0], Start(c, s.clock));
    AppendWindow(s.viaMemory[0], s.clock, Start(c, 0.0), 0.0);
    more := FallsAtOnce(c, actions + [Tick(w)], s);
  }

  /** Then there is room for one of the workers that read clock 0. */
  lemma StaleAdmitted(c: Config, actions: seq<Action>, clock: Time, k: nat, n: nat) returns (more: seq<Action>)
    requires Sensible(c) && c.limit >= 2 && 1 <= k < c.workers && Stale(c, actions, clock, k, n)
    requires Run(c, Init(c), actions).memory[0] == [clock]
    ensures Stale(c, more, clock, k + 1, n + 1)
  {
    var s := Run(c, Init(c), actions);
    Extend(c, actions, CountFault(k, false));
    more := actions + [CountFault(k, false)];
    assert After([clock], Start(c, 0.0)) == [clock];
    AppendWindow(s.viaMemory[0], 0.0, Start(c, 0.0), 0.0);
    LineMoves(c, k, Idle, Idle, Reading(0, 0.0), Idle);
  }

  lemma {:induction false} AllStale(c: Config, k: nat) returns (actions: seq<Action>, clock: Time)
    requires Sensible(c) && c.limit >= 2 && 1 <= k <= c.workers
    ensures Stale(c, actions, clock, k, c.limit + k - 1)
  {
    if k == 1 {
      actions := FillMemory(c, c.limit);
      clock := 0.0;
    } else {
      actions, clock := AllStale(c, k - 1);
      actions := Refresh(c, actions, clock, k - 1, c.limit + k - 2);
      clock := clock + c.window as real;
      actions := StaleAdmitted(c, actions, clock, k - 1, c.limit + k - 2);
    }
  }

  /** From a limit of two on one process's memory can admit limit + C - 1 requests of one window: later fallbacks clear the
      list before the workers that read the clock in the window are decided. */
  lemma MemoryBoundIsAttained(c: Config) returns (actions: seq<Action>)
    requires Sensible(c) && c.limit >= 2
    ensures |Run(c, Init(c), actions).viaMemory| == c.processes
    ensures AdmittedByMemory(c, Run(c, Init(c), actions), 0.0, 0) == c.limit + c.workers - 1
  {
    var clock;
    actions, clock := AllStale(c, c.workers);
  }
}
