/** Counting timestamps in a half-open window (lo, hi], over logs, pruned lists and sorted sets. */
module Windows {
  import opened Redis
  import opened RateLimit

  function Weight(t: Time, lo: real, hi: real): nat {
    if lo < t <= hi then 1 else 0
  }

  function InWindow(ts: seq<Time>, lo: real, hi: real): nat {
    if ts == [] then 0 else Weight(ts[0], lo, hi) + InWindow(ts[1..], lo, hi)
  }

  ghost predicate AllAtMost(ts: seq<Time>, bound: real) {
    forall i | 0 <= i < |ts| :: ts[i] <= bound
  }

  predicate Sorted(ts: seq<Time>) {
    forall i, j | 0 <= i < j < |ts| :: ts[i] <= ts[j]
  }

  lemma {:induction false} AppendWindow(ts: seq<Time>, t: Time, lo: real, hi: real)
    ensures InWindow(ts + [t], lo, hi) == InWindow(ts, lo, hi) + Weight(t, lo, hi)
  {
    if ts == [] {
      assert ts + [t] == [t];
    } else {
      AppendWindow(ts[1..], t, lo, hi);
      assert (ts + [t])[1..] == ts[1..] + [t];
    }
  }

  lemma {:induction false} WindowAtMostLength(ts: seq<Time>, lo: real, hi: real)
    ensures InWindow(ts, lo, hi) <= |ts|
  {
    if ts != [] {
      WindowAtMostLength(ts[1..], lo, hi);
    }
  }

  /** Pruning at or below `cut` loses nothing of a window that starts at or above `cut`. */
  lemma {:induction false} AfterKeepsWindow(ts: seq<Time>, cut: real, lo: real, hi: real)
    requires cut <= lo
    ensures InWindow(After(ts, cut), lo, hi) == InWindow(ts, lo, hi)
  {
    if ts != [] {
      AfterKeepsWindow(ts[1..], cut, lo, hi);
    }
  }

  lemma {:induction false} AfterAfter(ts: seq<Time>, lo: real, hi: real)
    requires lo <= hi
    ensures After(After(ts, lo), hi) == After(ts, hi)
  {
    if ts != [] {
      AfterAfter(ts[1..], lo, hi);
    }
  }

  lemma {:induction false} AfterAppend(ts: seq<Time>, t: Time, lo: real)
    ensures After(ts + [t], lo) == After(ts, lo) + if t > lo then [t] else []
  {
    if ts == [] {
      assert ts + [t] == [t];
    } else {
      AfterAppend(ts[1..], t, lo);
      assert (ts + [t])[1..] == ts[1..] + [t];
    }
  }

  lemma {:induction false} AfterNone(ts: seq<Time>, lo: real)
    requires AllAtMost(ts, lo)
    ensures After(ts, lo) == []
  {
    if ts != [] {
      AfterNone(ts[1..], lo);
    }
  }

  ghost predicate AllAtZero(ts: seq<Time>) {
    forall i | 0 <= i < |ts| :: ts[i] == 0.0
  }

  lemma {:induction false} AfterZero(ts: seq<Time>, lo: real)
    requires AllAtZero(ts) && lo < 0.0
    ensures After(ts, lo) == ts
  {
    if ts != [] {
      AfterZero(ts[1..], lo);
    }
  }

  lemma {:induction false} ZerosInWindow(ts: seq<Time>, lo: real, hi: real)
    requires AllAtZero(ts) && lo < 0.0 <= hi
    ensures InWindow(ts, lo, hi) == |ts|
  {
    if ts != [] {
      ZerosInWindow(ts[1..], lo, hi);
    }
  }

  lemma {:induction false} AfterIsSubsequence(ts: seq<Time>, lo: real)
    ensures |After(ts, lo)| <= |ts|
    ensures forall i | 0 <= i < |After(ts, lo)| :: After(ts, lo)[i] > lo && After(ts, lo)[i] in ts
    ensures Sorted(ts) ==> Sorted(After(ts, lo))
  {
    if ts != [] {
      AfterIsSubsequence(ts[1..], lo);
    }
  }

  lemma {:induction false} RemoveKeepsScores(ms: seq<Member>, hi: real)
    ensures Scores(RemRangeByScore(ms, 0.0, hi)) == After(Scores(ms), hi)
  {
    if ms != [] {
      RemoveKeepsScores(ms[1..], hi);
    }
  }

  lemma {:induction false} InsertWindow(ms: seq<Member>, m: Member, lo: real, hi: real)
    ensures InWindow(Scores(InsertByScore(ms, m)), lo, hi) == InWindow(Scores(ms), lo, hi) + Weight(m.score, lo, hi)
  {
    if ms != [] {
      InsertWindow(ms[1..], m, lo, hi);
    }
  }

  lemma {:induction false} InsertLength(ms: seq<Member>, m: Member)
    ensures |InsertByScore(ms, m)| == |ms| + 1
  {
    if ms != [] {
      InsertLength(ms[1..], m);
    }
  }

  lemma {:induction false} InsertLast(ms: seq<Member>, m: Member)
    requires forall i | 0 <= i < |ms| :: ms[i].score <= m.score
    ensures InsertByScore(ms, m) == ms + [m]
  {
    if ms != [] {
      InsertLast(ms[1..], m);
    }
  }

  lemma {:induction false} ScoresAppend(ms: seq<Member>, m: Member)
    ensures Scores(ms + [m]) == Scores(ms) + [m.score]
  {
    if ms == [] {
      assert ms + [m] == [m];
    } else {
      ScoresAppend(ms[1..], m);
      assert (ms + [m])[1..] == ms[1..] + [m];
    }
  }

  lemma {:induction false} RemovedMembers(ms: seq<Member>, lo: real, hi: real, m: Member)
    requires m in RemRangeByScore(ms, lo, hi)
    ensures m in ms && !(lo <= m.score <= hi)
  {
    if ms != [] && m in RemRangeByScore(ms[1..], lo, hi) {
      RemovedMembers(ms[1..], lo, hi, m);
    }
  }

  lemma {:induction false} InsertedMembers(ms: seq<Member>, m: Member, x: Member)
    ensures x in InsertByScore(ms, m) <==> x == m || x in ms
  {
    if ms != [] {
      InsertedMembers(ms[1..], m, x);
      assert x in ms <==> x == ms[0] || x in ms[1..];
    }
  }
}
