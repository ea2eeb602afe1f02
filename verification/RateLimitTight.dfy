/** The window bounds of the concurrent machine cannot be improved: for every limit, window, number of processes and number
    of workers some interleaving without any failure admits limit + 2(C-1) requests through Redis in one window, and after
    an outage the window holds (P+1) * limit + 2(C-1); with late counts one more. */
module RateLimitTight {
  import opened Redis
  import opened RateLimit
  import opened RateLimitRace
  import opened RateLimitOrder
  import opened RateLimitTotal
  import opened Windows

  /** At least one admission, one second, one process and one worker. */
  ghost predicate Sensible(c: Config) {
    c.limit >= 1 && c.window >= 1 && c.processes >= 1 && c.workers >= 1
  }

  /** The last moment of the window (-1, window - 1]. */
  function Last(c: Config): Time
    requires Sensible(c)
  {
    (c.window - 1) as real
  }

  /** The clock; the sorted set, by its size, the one score in it, a bound on its nonces and the time of the last add; the
      admissions through Redis so far in the window under attack, the last moment of that window, and the admissions that
      process memories ever granted. */
  datatype View = View(clock: Time, size: nat, score: Time, bound: int, stamp: Time,
                       admitted: nat, last: Time, fallen: seq<seq<Time>>)

  /** The run so far shows this view and these workers. */
  ghost predicate Shows(c: Config, actions: seq<Action>, v: View, ws: seq<Phase>) {
    var s := Run(c, Init(c), actions);
    && Indexed(c, s) && s.clock == v.clock && s.workers == ws
    && |s.zset.members| == v.size && (v.size > 0 ==> v.clock < s.zset.expireAt && c.window as real < s.zset.expireAt)
    && s.zset.expireAt <= v.stamp + (c.window + 5) as real
    && (forall m | m in s.zset.members :: m.score == v.score && m.nonce < v.bound)
    && InWindow(s.viaRedis, Start(c, v.last), v.last) == v.admitted && s.viaMemory == v.fallen
  }

  lemma Extend(c: Config, actions: seq<Action>, a: Action)
    ensures Run(c, Init(c), actions + [a]) == Exec(c, Run(c, Init(c), actions), a)
  {
    RunConcat(c, Init(c), actions, [a]);
    assert [a][1..] == [];
  }

  // ---------- one step ----------

  lemma Wait(c: Config, actions: seq<Action>, v: View, ws: seq<Phase>, elapsed: Time)
    requires Shows(c, actions, v, ws) && (v.size == 0 || v.clock + elapsed <= c.window as real)
    ensures Shows(c, actions + [Tick(elapsed)], v.(clock := v.clock + elapsed), ws)
  {
    Extend(c, actions, Tick(elapsed));
  }

  lemma Read(c: Config, actions: seq<Action>, v: View, ws: seq<Phase>, w: nat)
    requires Sensible(c) && w < |ws| && Shows(c, actions, v, ws) && ws[w] == Idle
    ensures Shows(c, actions + [Begin(w, 0)], v, ws[w := Reading(0, v.clock)])
  {
    Extend(c, actions, Begin(w, 0));
  }

  lemma {:induction false} RemoveNone(ms: seq<Member>, hi: real)
    requires forall i | 0 <= i < |ms| :: ms[i].score > hi
    ensures RemRangeByScore(ms, 0.0, hi) == ms
  {
    if ms != [] {
      RemoveNone(ms[1..], hi);
    }
  }

  lemma {:induction false} RemoveAll(ms: seq<Member>, hi: real)
    requires forall i | 0 <= i < |ms| :: ms[i].score <= hi
    ensures RemRangeByScore(ms, 0.0, hi) == []
  {
    if ms != [] {
      RemoveAll(ms[1..], hi);
    }
  }

  /** Counted below the limit, nothing dropped. */
  lemma CountKeeps(c: Config, actions: seq<Action>, v: View, ws: seq<Phase>, w: nat, t: Time)
    requires Sensible(c) && w < |ws| && Shows(c, actions, v, ws) && ws[w] == Reading(0, t)
    requires v.clock <= t + c.delay && v.size < c.limit && (v.size == 0 || t - c.window as real < v.score)
    ensures Shows(c, actions + [CountReply(w)], v, ws[w := Admitting(0, t)])
  {
    Extend(c, actions, CountReply(w));
    var ms := Run(c, Init(c), actions).zset.members;
    assert forall i | 0 <= i < |ms| :: ms[i] in ms;
    if v.size > 0 {
      RemoveNone(ms, t - c.window as real);
    }
  }

  /** Counted below the limit because everything is dropped. */
  lemma CountDrops(c: Config, actions: seq<Action>, v: View, ws: seq<Phase>, w: nat, t: Time)
    requires Sensible(c) && w < |ws| && Shows(c, actions, v, ws) && ws[w] == Reading(0, t)
    requires v.clock <= t + c.delay && v.score <= t - c.window as real
    ensures Shows(c, actions + [CountReply(w)], v.(size := 0), ws[w := Admitting(0, t)])
  {
    Extend(c, actions, CountReply(w));
    var s := Run(c, Init(c), actions);
    var live := Live(s.zset, s.clock);
    assert forall i | 0 <= i < |live| :: live[i] in s.zset.members;
    RemoveAll(live, t - c.window as real);
  }

  /** `n` more admissions with this clock reading. */
  function Grown(v: View, t: Time, n: nat): View {
    View(v.clock, v.size + n, t, v.bound + n, if n > 0 then v.clock else v.stamp, v.admitted + n, v.last, v.fallen)
  }

  lemma Admit(c: Config, actions: seq<Action>, v: View, ws: seq<Phase>, w: nat, t: Time)
    requires Sensible(c) && w < |ws| && Shows(c, actions, v, ws) && ws[w] == Admitting(0, t)
    requires (v.size == 0 || v.score == t) && Start(c, v.last) < t <= v.last
    ensures Shows(c, actions + [AddReply(w, v.bound)],
                  Grown(v, t, 1), ws[w := Idle])
  {
    Extend(c, actions, AddReply(w, v.bound));
    var s, m := Run(c, Init(c), actions), Member(t, v.bound);
    var live := Live(s.zset, s.clock);
    assert live == s.zset.members;
    InsertLength(live, m);
    forall x ensures x in InsertByScore(live, m) <==> x == m || x in live { InsertedMembers(live, m, x); }
    AppendWindow(s.viaRedis, t, Start(c, v.last), v.last);
  }

  // ---------- one kind of step for workers 1 .. C - 1 ----------

  /** Worker 0 is at `head`, the workers before `k` have moved to `done`, the others are at `todo`. */
  function Line(c: Config, k: nat, head: Phase, done: Phase, todo: Phase): (ws: seq<Phase>)
    ensures |ws| == c.workers
    ensures forall w | 0 <= w < |ws| :: ws[w] == if w == 0 then head else if w < k then done else todo
  {
    seq(c.workers, w => if w == 0 then head else if w < k then done else todo)
  }

  lemma LineMoves(c: Config, k: nat, head: Phase, done: Phase, todo: Phase, h: Phase)
    requires c.workers >= 1
    ensures 1 <= k < c.workers ==> Line(c, k, head, done, todo)[k := done] == Line(c, k + 1, head, done, todo)
    ensures Line(c, k, head, done, todo)[0 := h] == Line(c, k, h, done, todo)
    ensures Line(c, c.workers, head, done, todo) == Line(c, 1, head, h, done)
  {
  }

  lemma {:induction false} AllRead(c: Config, actions: seq<Action>, v: View, head: Phase, k: nat)
    returns (more: seq<Action>)
    requires Sensible(c) && 1 <= k <= c.workers
    requires Shows(c, actions, v, Line(c, k, head, Reading(0, v.clock), Idle))
    ensures Shows(c, more, v, Line(c, c.workers, head, Reading(0, v.clock), Idle))
    decreases c.workers - k
  {
    more := actions;
    if k < c.workers {
      Read(c, actions, v, Line(c, k, head, Reading(0, v.clock), Idle), k);
      LineMoves(c, k, head, Reading(0, v.clock), Idle, head);
      more := AllRead(c, actions + [Begin(k, 0)], v, head, k + 1);
    }
  }

  lemma {:induction false} AllCounted(c: Config, actions: seq<Action>, v: View, head: Phase, t: Time, k: nat)
    returns (more: seq<Action>)
    requires Sensible(c) && 1 <= k <= c.workers
    requires v.clock <= t + c.delay && v.size < c.limit && (v.size == 0 || t - c.window as real < v.score)
    requires Shows(c, actions, v, Line(c, k, head, Admitting(0, t), Reading(0, t)))
    ensures Shows(c, more, v, Line(c, c.workers, head, Admitting(0, t), Reading(0, t)))
    decreases c.workers - k
  {
    more := actions;
    if k < c.workers {
      CountKeeps(c, actions, v, Line(c, k, head, Admitting(0, t), Reading(0, t)), k, t);
      LineMoves(c, k, head, Admitting(0, t), Reading(0, t), head);
      more := AllCounted(c, actions + [CountReply(k)], v, head, t, k + 1);
    }
  }

  lemma {:induction false} AllAdmitted(c: Config, actions: seq<Action>, v: View, head: Phase, t: Time, k: nat)
    returns (more: seq<Action>)
    requires Sensible(c) && 1 <= k <= c.workers && (v.size == 0 || v.score == t) && Start(c, v.last) < t <= v.last
    requires Shows(c, actions, v, Line(c, k, head, Idle, Admitting(0, t)))
    ensures Shows(c, more, Grown(v, t, c.workers - k), Line(c, c.workers, head, Idle, Admitting(0, t)))
    decreases c.workers - k
  {
    more := actions;
    if k < c.workers {
      Admit(c, actions, v, Line(c, k, head, Idle, Admitting(0, t)), k, t);
      LineMoves(c, k, head, Idle, Admitting(0, t), head);
      more := AllAdmitted(c, actions + [AddReply(k, v.bound)], Grown(v, t, 1), head, t, k + 1);
    }
  }

  // ---------- the interleaving ----------

  function AllAt(c: Config, x: Phase): seq<Phase> {
    Line(c, 1, x, x, x)
  }

  /** All workers move from `x` to `y`, worker 0 first. */
  lemma AllMove(c: Config, x: Phase, y: Phase)
    requires c.workers >= 1
    ensures AllAt(c, x)[0 := y] == Line(c, 1, y, y, x)
    ensures Line(c, c.workers, y, y, x) == AllAt(c, y)
  {
  }

  /** Clock 0, an empty sorted set and no admission through Redis. */
  function Empty(last: Time, fallen: seq<seq<Time>>): View {
    View(0.0, 0, 0.0, 0, 0.0, 0, last, fallen)
  }

  /** A run that leaves everything at rest at clock 0, whatever process memories have granted; clock 0 is in the window
      under attack. */
  ghost predicate Opens(c: Config, start: seq<Action>, last: Time, fallen: seq<seq<Time>>) {
    Sensible(c) && last < c.window as real && Shows(c, start, Empty(last, fallen), AllAt(c, Idle))
  }

  /** Worker 0 alone admits `j` requests at clock 0. */
  lemma {:induction false} FillAlone(c: Config, start: seq<Action>, last: Time, fallen: seq<seq<Time>>, j: nat)
    returns (actions: seq<Action>)
    requires Opens(c, start, last, fallen) && j < c.limit
    ensures Shows(c, actions, Grown(Empty(last, fallen), 0.0, j), AllAt(c, Idle))
  {
    if j == 0 {
      actions := start;
    } else {
      actions := FillAlone(c, start, last, fallen, j - 1);
      var v, ws := Grown(Empty(last, fallen), 0.0, j - 1), AllAt(c, Idle);
      Read(c, actions, v, ws, 0);
      actions := actions + [Begin(0, 0)];
      CountKeeps(c, actions, v, ws[0 := Reading(0, 0.0)], 0, 0.0);
      actions := actions + [CountReply(0)];
      SameCell(ws, Reading(0, 0.0), Admitting(0, 0.0));
      Admit(c, actions, v, ws[0 := Admitting(0, 0.0)], 0, 0.0);
      actions := actions + [AddReply(0, j - 1)];
      SameCell(ws, Admitting(0, 0.0), Idle);
      assert ws[0 := Idle] == ws;
    }
  }

  lemma SameCell(ws: seq<Phase>, x: Phase, y: Phase)
    requires ws != []
    ensures ws[0 := x][0 := y] == ws[0 := y]
  {
  }

  /** One admission below the limit at clock 0. */
  function Full(c: Config, last: Time, fallen: seq<seq<Time>>): View
    requires Sensible(c)
  {
    Grown(Empty(last, fallen), 0.0, c.limit - 1)
  }

  /** All workers read clock 0. */
  lemma EveryoneReads(c: Config, start: seq<Action>, last: Time, fallen: seq<seq<Time>>) returns (actions: seq<Action>)
    requires Opens(c, start, last, fallen)
    ensures Shows(c, actions, Full(c, last, fallen), AllAt(c, Reading(0, 0.0)))
  {
    var r, v := Reading(0, 0.0), Full(c, last, fallen);
    actions := FillAlone(c, start, last, fallen, c.limit - 1);
    Read(c, actions, v, AllAt(c, Idle), 0);
    actions := actions + [Begin(0, 0)];
    AllMove(c, Idle, r);
    actions := AllRead(c, actions, v, r, 1);
  }

  /** All are counted before any adds. */
  lemma EveryoneIsCounted(c: Config, start: seq<Action>, last: Time, fallen: seq<seq<Time>>) returns (actions: seq<Action>)
    requires Opens(c, start, last, fallen)
    ensures Shows(c, actions, Full(c, last, fallen), AllAt(c, Admitting(0, 0.0)))
  {
    var r, a, v := Reading(0, 0.0), Admitting(0, 0.0), Full(c, last, fallen);
    actions := EveryoneReads(c, start, last, fallen);
    CountKeeps(c, actions, v, AllAt(c, r), 0, 0.0);
    actions := actions + [CountReply(0)];
    AllMove(c, r, a);
    actions := AllCounted(c, actions, v, a, 0.0, 1);
  }

  /** Then all are admitted: limit + C - 1 admissions at clock 0. */
  lemma EveryoneIsAdmitted(c: Config, start: seq<Action>, last: Time, fallen: seq<seq<Time>>) returns (actions: seq<Action>)
    requires Opens(c, start, last, fallen)
    ensures Shows(c, actions, Grown(Empty(last, fallen), 0.0, c.limit + c.workers - 1), AllAt(c, Idle))
  {
    var a, v := Admitting(0, 0.0), Full(c, last, fallen);
    actions := EveryoneIsCounted(c, start, last, fallen);
    Admit(c, actions, v, AllAt(c, a), 0, 0.0);
    actions := actions + [AddReply(0, v.bound)];
    AllMove(c, a, Idle);
    actions := AllAdmitted(c, actions, Grown(v, 0.0, 1), Idle, 0.0, 1);
    assert Grown(Grown(v, 0.0, 1), 0.0, c.workers - 1) == Grown(Empty(last, fallen), 0.0, c.limit + c.workers - 1);
  }

  /** limit + C - 1 admissions at clock 0. */
  function Overshot(c: Config, last: Time, fallen: seq<seq<Time>>): View
    requires Sensible(c)
  {
    Grown(Empty(last, fallen), 0.0, c.limit + c.workers - 1)
  }

  /** Then the workers 1 .. C - 1 read the last clock of the window. */
  lemma OthersReadLast(c: Config, start: seq<Action>, fallen: seq<seq<Time>>) returns (actions: seq<Action>)
    requires Sensible(c) && Opens(c, start, Last(c), fallen)
    ensures Shows(c, actions, Overshot(c, Last(c), fallen).(clock := Last(c)),
                  Line(c, 1, Idle, Admitting(0, Last(c)), Reading(0, Last(c))))
  {
    var t, v := Last(c), Overshot(c, Last(c), fallen);
    actions := EveryoneIsAdmitted(c, start, t, fallen);
    Wait(c, actions, v, AllAt(c, Idle), t);
    actions := actions + [Tick(t)];
    assert AllAt(c, Idle) == Line(c, 1, Idle, Reading(0, t), Idle);
    actions := AllRead(c, actions, v.(clock := t), Idle, 1);
    LineMoves(c, c.workers, Idle, Reading(0, t), Idle, Admitting(0, t));
  }

  /** Worker 0 reads a later clock and is counted first: it drops everything. */
  lemma Overtake(c: Config, start: seq<Action>, fallen: seq<seq<Time>>) returns (actions: seq<Action>)
    requires Sensible(c) && Opens(c, start, Last(c), fallen)
    ensures Shows(c, actions, Overshot(c, Last(c), fallen).(clock := c.window as real, size := 0),
                  Line(c, 1, Admitting(0, c.window as real), Admitting(0, Last(c)), Reading(0, Last(c))))
  {
    var t, late := Last(c), c.window as real;
    var v := Overshot(c, Last(c), fallen).(clock := t);
    var ws := Line(c, 1, Idle, Admitting(0, t), Reading(0, t));
    actions := OthersReadLast(c, start, fallen);
    Wait(c, actions, v, ws, 1.0);
    actions := actions + [Tick(1.0)];
    v := v.(clock := late);
    Read(c, actions, v, ws, 0);
    actions := actions + [Begin(0, 0)];
    CountDrops(c, actions, v, ws[0 := Reading(0, late)], 0, late);
    actions := actions + [CountReply(0)];
    SameCell(ws, Reading(0, late), Admitting(0, late));
    LineMoves(c, 1, Idle, Admitting(0, t), Reading(0, t), Admitting(0, late));
  }

  /** The counts of the others find the sorted set empty although limit + C - 1 admissions still lie in their window; they
      are admitted as well. */
  lemma OthersFollow(c: Config, start: seq<Action>, fallen: seq<seq<Time>>) returns (actions: seq<Action>)
    requires Sensible(c) && Opens(c, start, Last(c), fallen) && c.delay >= 1.0
    ensures
      var s := Run(c, Init(c), actions);
      AdmittedByRedis(c, s, Last(c)) == c.limit + 2 * (c.workers - 1) && s.viaMemory == fallen
  {
    var t, head := Last(c), Admitting(0, c.window as real);
    var v := Overshot(c, t, fallen).(clock := c.window as real, size := 0);
    actions := Overtake(c, start, fallen);
    actions := AllCounted(c, actions, v, head, t, 1);
    LineMoves(c, c.workers, head, Admitting(0, t), Reading(0, t), Idle);
    actions := AllAdmitted(c, actions, v, head, t, 1);
  }

  lemma InitOpens(c: Config, last: Time)
    requires Sensible(c) && last < c.window as real
    ensures Opens(c, [], last, Init(c).viaMemory)
  {
    assert Init(c).workers == AllAt(c, Idle);
  }

  /** Without any failure, and with counts at most a second after their clock reads, limit + 2(C-1) admissions through Redis
      fit into one window. */
  lemma BoundIsAttained(c: Config) returns (actions: seq<Action>)
    requires Sensible(c) && c.delay >= 1.0
    ensures AdmittedByRedis(c, Run(c, Init(c), actions), Last(c)) == c.limit + 2 * (c.workers - 1)
  {
    InitOpens(c, Last(c));
    actions := OthersFollow(c, [], Init(c).viaMemory);
  }

  // ---------- with late counts ----------

  /** A clock reading so early that a count `delay` seconds later finds the key of clock 0 expired, but less than a window
      later than clock 0. */
  function Early(c: Config): Time
    requires Sensible(c) && c.delay > 5.0
  {
    if c.delay - 5.0 < c.window as real then c.window as real - (c.delay - 5.0) else 0.0
  }

  /** Counted when the key has just expired. */
  lemma CountExpired(c: Config, actions: seq<Action>, v: View, ws: seq<Phase>, w: nat, t: Time, elapsed: Time)
    requires Sensible(c) && w < |ws| && Shows(c, actions, v, ws) && ws[w] == Reading(0, t)
    requires v.stamp + (c.window + 5) as real <= v.clock + elapsed <= t + c.delay
    ensures Shows(c, actions + [Tick(elapsed)] + [CountReply(w)],
                  v.(size := 0, clock := v.clock + elapsed), ws[w := Admitting(0, t)])
  {
    Extend(c, actions, Tick(elapsed));
    Extend(c, actions + [Tick(elapsed)], CountReply(w));
    var s := Run(c, Init(c), actions + [Tick(elapsed)]);
    assert Live(s.zset, s.clock) == [];
  }

  /** All workers read the early clock. */
  lemma EveryoneReadsEarly(c: Config, start: seq<Action>, fallen: seq<seq<Time>>) returns (actions: seq<Action>)
    requires Sensible(c) && c.delay > 5.0 && Opens(c, start, Early(c), fallen)
    ensures Shows(c, actions, Overshot(c, Early(c), fallen).(clock := Early(c)), AllAt(c, Reading(0, Early(c))))
  {
    var t := Early(c);
    var r, v := Reading(0, t), Overshot(c, t, fallen).(clock := t);
    actions := EveryoneIsAdmitted(c, start, t, fallen);
    Wait(c, actions, Overshot(c, t, fallen), AllAt(c, Idle), t);
    actions := actions + [Tick(t)];
    Read(c, actions, v, AllAt(c, Idle), 0);
    actions := actions + [Begin(0, 0)];
    AllMove(c, Idle, r);
    actions := AllRead(c, actions, v, r, 1);
  }

  /** All are counted when the key has expired. */
  lemma EveryoneIsCountedLate(c: Config, start: seq<Action>, fallen: seq<seq<Time>>) returns (actions: seq<Action>)
    requires Sensible(c) && c.delay > 5.0 && Opens(c, start, Early(c), fallen)
    ensures Shows(c, actions, Overshot(c, Early(c), fallen).(clock := (c.window + 5) as real, size := 0),
                  AllAt(c, Admitting(0, Early(c))))
  {
    var t := Early(c);
    var r, a, v := Reading(0, t), Admitting(0, t), Overshot(c, t, fallen).(clock := t);
    actions := EveryoneReadsEarly(c, start, fallen);
    var elapsed := (c.window + 5) as real - t;
    CountExpired(c, actions, v, AllAt(c, r), 0, t, elapsed);
    actions := actions + [Tick(elapsed)] + [CountReply(0)];
    AllMove(c, r, a);
    actions := AllCounted(c, actions, v.(clock := (c.window + 5) as real, size := 0), a, t, 1);
  }

  /** All are admitted once more. */
  lemma EveryoneIsAdmittedTwice(c: Config, start: seq<Action>, fallen: seq<seq<Time>>) returns (actions: seq<Action>)
    requires Sensible(c) && c.delay > 5.0 && Opens(c, start, Early(c), fallen)
    ensures
      var s := Run(c, Init(c), actions);
      AdmittedByRedis(c, s, Early(c)) == c.limit + 2 * (c.workers - 1) + 1 && s.viaMemory == fallen
  {
    var t := Early(c);
    var a, v := Admitting(0, t), Overshot(c, t, fallen).(clock := (c.window + 5) as real, size := 0);
    actions := EveryoneIsCountedLate(c, start, fallen);
    Admit(c, actions, v, AllAt(c, a), 0, t);
    actions := actions + [AddReply(0, v.bound)];
    AllMove(c, a, Idle);
    actions := AllAdmitted(c, actions, Grown(v, t, 1), Idle, t, 1);
  }

  /** For every delay above five seconds the late bound is attained as well: limit + 2(C-1) + 1 through Redis, without any
      failure. */
  lemma LateBoundIsAttained(c: Config) returns (actions: seq<Action>)
    requires Sensible(c) && c.delay > 5.0
    ensures AdmittedByRedis(c, Run(c, Init(c), actions), Early(c)) == c.limit + 2 * (c.workers - 1) + c.Slack()
  {
    InitOpens(c, Early(c));
    actions := EveryoneIsAdmittedTwice(c, [], Init(c).viaMemory);
  }

  // ---------- counting in order ----------

  /** Where no time has passed, every count comes at the clock that was read. */
  lemma {:induction false} StillClock(c: Config, s: State, actions: seq<Action>)
    requires Basic(c, s) && s.clock == Run(c, s, actions).clock
    requires forall w | 0 <= w < |s.workers| :: s.workers[w].Idle? || s.workers[w].t == s.clock
    ensures CountsAtOnce(c, s, actions)
    decreases |actions|
  {
    if actions != [] {
      var s' := Exec(c, s, actions[0]);
      StepBasic(c, s, actions[0]);
      ClockAdvances(c, s', actions[1..]);
      assert s'.clock == s.clock;
      StillClock(c, s', actions[1..]);
    }
  }

  lemma {:induction false} ClockAdvances(c: Config, s: State, actions: seq<Action>)
    ensures s.clock <= Run(c, s, actions).clock
    decreases |actions|
  {
    if actions != [] {
      ClockAdvances(c, Exec(c, s, actions[0]), actions[1..]);
    }
  }

  /** The bounds by the gap g between count and add are attained, for every g (the number of workers here): in a run in which
      at most g workers are between their count and their add, and each clock read and its count are one moment, the sorted
      set and one window hold limit + g - 1 admissions. */
  lemma OrderedBoundIsAttained(c: Config) returns (actions: seq<Action>)
    requires Sensible(c)
    ensures GapAtMost(c, Init(c), actions, c.workers) && CountsAtOnce(c, Init(c), actions)
    ensures Promised(Run(c, Init(c), actions)) == c.limit + c.workers - 1
    ensures AdmittedByRedis(c, Run(c, Init(c), actions), 0.0) == c.limit + c.workers - 1
  {
    InitOpens(c, 0.0);
    actions := EveryoneIsAdmitted(c, [], 0.0, Init(c).viaMemory);
    InitBasic(c);
    GapWithinWorkers(c, Init(c), actions);
    StillClock(c, Init(c), actions);
    AllIdle(Run(c, Init(c), actions).workers, IsPending());
  }

  // ---------- after an outage ----------

  /** All at rest at clock 0, Redis untouched; the memories before `q` are full, that of `q` has `m`, the others none. */
  ghost predicate Out(c: Config, s: State, q: nat, m: nat) {
    && Indexed(c, s) && s.clock == 0.0 && s.zset == NO_ZSET && s.workers == AllAt(c, Idle) && s.viaRedis == []
    && forall i | 0 <= i < c.processes ::
         && AllAtZero(s.memory[i]) && AllAtZero(s.viaMemory[i])
         && |s.memory[i]| == |s.viaMemory[i]| == if i < q then c.limit else if i == q then m else 0
  }

  lemma OneFalls(c: Config, s: State, q: nat, m: nat)
    requires Sensible(c) && q < c.processes && m < c.limit && Out(c, s, q, m)
    ensures Out(c, Exec(c, Exec(c, s, Begin(0, q)), CountFault(0, false)), q, m + 1)
  {
    AfterZero(s.memory[q], WindowStart(0.0, c.Policy()));
    var s1 := Exec(c, s, Begin(0, q));
    assert s1 == s.(workers := s.workers[0 := Reading(q, 0.0)]);
    SameCell(s.workers, Reading(q, 0.0), Idle);
    assert Exec(c, s1, CountFault(0, false)).workers == s.workers;
  }

  /** With Redis down at clock 0, the processes fill their memories one after the other. */
  lemma {:induction false} Outage(c: Config, q: nat, m: nat) returns (actions: seq<Action>)
    requires Sensible(c) && q <= c.processes && m <= c.limit && (q == c.processes ==> m == 0)
    ensures Out(c, Run(c, Init(c), actions), q, m)
  {
    if m > 0 {
      actions := Outage(c, q, m - 1);
      OneFalls(c, Run(c, Init(c), actions), q, m - 1);
      Extend(c, actions, Begin(0, q));
      Extend(c, actions + [Begin(0, q)], CountFault(0, false));
      actions := actions + [Begin(0, q)] + [CountFault(0, false)];
    } else if q > 0 {
      actions := Outage(c, q - 1, c.limit);
    } else {
      actions := [];
      assert Init(c).workers == AllAt(c, Idle);
    }
  }

  lemma {:induction false} OutTotal(c: Config, s: State, last: Time, n: nat)
    requires Sensible(c) && last < c.window as real && Out(c, s, c.processes, 0) && n <= c.processes
    ensures MemoryTotal(c, s, last, n) == n * c.limit
  {
    if n > 0 {
      OutTotal(c, s, last, n - 1);
      ZerosInWindow(s.viaMemory[n - 1], Start(c, last), last);
      assert n * c.limit == (n - 1) * c.limit + c.limit;
    }
  }

  lemma OutageOpens(c: Config, last: Time) returns (start: seq<Action>)
    requires Sensible(c) && last < c.window as real
    ensures Opens(c, start, last, Run(c, Init(c), start).viaMemory) && Out(c, Run(c, Init(c), start), c.processes, 0)
  {
    start := Outage(c, c.processes, 0);
  }

  lemma OutageCounts(c: Config, s: State, end: State, last: Time, n: nat)
    requires Sensible(c) && last < c.window as real && Out(c, s, c.processes, 0) && end.viaMemory == s.viaMemory
    requires AdmittedByRedis(c, end, last) == n
    ensures AdmittedIn(c, end, last) == c.processes * c.limit + n
  {
    OutTotal(c, s, last, c.processes);
    MemoryTotalSame(c, s, end, last, c.processes);
  }

  /** After an outage at clock 0 that fills every process memory, the same interleavings: (P+1) * limit + 2(C-1) in one
      window, and one more with late counts. */
  lemma TotalBoundIsAttained(c: Config) returns (actions: seq<Action>, e: Time)
    requires Sensible(c) && c.delay >= 1.0
    ensures AdmittedIn(c, Run(c, Init(c), actions), e) == (c.processes + 1) * c.limit + 2 * (c.workers - 1) + c.Slack()
  {
    e := if c.delay <= 5.0 then Last(c) else Early(c);
    var start := OutageOpens(c, e);
    var s := Run(c, Init(c), start);
    if c.delay <= 5.0 {
      actions := OthersFollow(c, start, s.viaMemory);
    } else {
      actions := EveryoneIsAdmittedTwice(c, start, s.viaMemory);
    }
    OutageCounts(c, s, Run(c, Init(c), actions), e, c.limit + 2 * (c.workers - 1) + c.Slack());
    OneMoreLimit(c.processes, c.limit);
  }
}
