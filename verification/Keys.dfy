/** Redis keys: rate-limit keys of different clients differ, and the three key families never meet, so clients do not
    disturb each other. */
module Keys {
  import opened Wrappers
  import opened RateLimit
  import opened RateLimitRuns
  import opened Text

  function UrlKey(code: string): string {
    "url:" + code
  }

  function IdempotencyKey(key: string): string {
    "idempotency:" + key
  }

  predicate ColonFree(s: string) {
    ':' !in s
  }

  /** A colon-free prefix ends at the first colon, whatever follows it. */
  lemma FirstColon(scope1: string, id1: string, scope2: string, id2: string)
    requires ColonFree(scope1) && ColonFree(scope2)
    requires scope1 + ":" + id1 == scope2 + ":" + id2
    ensures scope1 == scope2 && id1 == id2
  {
    var s, t := scope1 + ":" + id1, scope2 + ":" + id2;
    assert s[|scope1|] == ':' && t[|scope2|] == ':';
    assert |scope1| == |scope2|;
    assert scope1 == s[..|scope1|] && scope2 == t[..|scope2|];
    assert id1 == s[|scope1| + 1..] && id2 == t[|scope2| + 1..];
  }

  /** The rate-limit key determines scope and identifier, even for identifiers with colons such as IPv6 addresses. */
  lemma LimitKeyInjective(scope1: string, id1: string, scope2: string, id2: string)
    requires ColonFree(scope1) && ColonFree(scope2)
    ensures LimitKey(scope1, id1) == LimitKey(scope2, id2) <==> scope1 == scope2 && id1 == id2
  {
    var s, t := LimitKey(scope1, id1), LimitKey(scope2, id2);
    assert s[10..] == scope1 + ":" + id1 && t[10..] == scope2 + ":" + id2;
    if s == t {
      FirstColon(scope1, id1, scope2, id2);
    }
  }

  /** A scope with a colon breaks this. */
  lemma ColonInScopeCollides()
    ensures LimitKey("a:b", "c") == LimitKey("a", "b:c")
  {
  }

  lemma KeyFamiliesDisjoint(code: string, key: string, scope: string, id: string)
    ensures UrlKey(code) != IdempotencyKey(key)
    ensures UrlKey(code) != LimitKey(scope, id)
    ensures IdempotencyKey(key) != LimitKey(scope, id)
    ensures forall c :: UrlKey(c) == UrlKey(code) ==> c == code
    ensures forall k :: IdempotencyKey(k) == IdempotencyKey(key) ==> k == key
  {
    assert UrlKey(code)[0] == 'u' && IdempotencyKey(key)[0] == 'i' && LimitKey(scope, id)[0] == 'r';
    forall c | UrlKey(c) == UrlKey(code) ensures c == code {
      assert c == UrlKey(c)[4..] && code == UrlKey(code)[4..];
    }
    forall k | IdempotencyKey(k) == IdempotencyKey(key) ensures k == key {
      assert k == IdempotencyKey(k)[12..] && key == IdempotencyKey(key)[12..];
    }
  }

  // ---------- many clients ----------

  /** The identifier the limiter uses: the first address of X-Forwarded-For if the header is not empty, else the peer. */
  function ClientOf(host: Option<string>, forwardedFor: Option<string>): string {
    if forwardedFor.Some? && forwardedFor.value != "" then Strip(FirstField(forwardedFor.value))
    else if host.Some? then host.value
    else "unknown"
  }

  lemma {:induction false} FirstFieldStops(first: string, rest: string)
    requires ',' !in first
    ensures FirstField(first + "," + rest) == FirstField(first) == first
  {
    if first == "" {
      assert first + "," + rest == "," + rest;
    } else {
      FirstFieldStops(first[1..], rest);
      assert (first + "," + rest)[1..] == first[1..] + "," + rest;
    }
  }

  /** What later proxies append to the header does not move a client to another bucket; the peer address only counts
      when the header is absent or empty. */
  lemma ProxiesKeepClient(first: string, rest: string, host1: Option<string>, host2: Option<string>)
    requires ',' !in first && first != ""
    ensures ClientOf(host1, Some(first + "," + rest)) == ClientOf(host2, Some(first)) == Strip(first)
  {
    FirstFieldStops(first, rest);
  }

  datatype ClientCheck = ClientCheck(key: string, attempt: Attempt)

  function StateAt(states: map<string, KeyState>, key: string): KeyState {
    if key in states then states[key] else NO_STATE
  }

  /** A run over many keys: each check touches the state of its own key. */
  function RunKeyed(states: map<string, KeyState>, p: Policy, checks: seq<ClientCheck>)
    : (map<string, KeyState>, seq<RateLimitResult>)
    decreases |checks|
  {
    if checks == [] then (states, [])
    else
      var (s, r) := Check(StateAt(states, checks[0].key), p, checks[0].attempt);
      var (end, rs) := RunKeyed(states[checks[0].key := s], p, checks[1..]);
      (end, [r] + rs)
  }

  function AttemptsOf(checks: seq<ClientCheck>, key: string): seq<Attempt> {
    if checks == [] then []
    else (if checks[0].key == key then [checks[0].attempt] else []) + AttemptsOf(checks[1..], key)
  }

  function ResultsOf(checks: seq<ClientCheck>, results: seq<RateLimitResult>, key: string): seq<RateLimitResult>
    requires |checks| == |results|
  {
    if checks == [] then []
    else (if checks[0].key == key then [results[0]] else []) + ResultsOf(checks[1..], results[1..], key)
  }

  lemma {:induction false} RunKeyedLength(states: map<string, KeyState>, p: Policy, checks: seq<ClientCheck>)
    ensures |RunKeyed(states, p, checks).1| == |checks|
    decreases |checks|
  {
    if checks != [] {
      var (s, _) := Check(StateAt(states, checks[0].key), p, checks[0].attempt);
      RunKeyedLength(states[checks[0].key := s], p, checks[1..]);
    }
  }

  /** Projected to one key, a run over many clients is that key's run alone. */
  lemma {:induction false} KeysAreIndependent(states: map<string, KeyState>, p: Policy, checks: seq<ClientCheck>,
                                              key: string)
    ensures |RunKeyed(states, p, checks).1| == |checks|
    ensures
      var (end, results) := RunKeyed(states, p, checks);
      (StateAt(end, key), ResultsOf(checks, results, key)) == RunChecks(StateAt(states, key), p, AttemptsOf(checks, key))
    decreases |checks|
  {
    RunKeyedLength(states, p, checks);
    if checks != [] {
      var k, a := checks[0].key, checks[0].attempt;
      var (s, r) := Check(StateAt(states, k), p, a);
      KeysAreIndependent(states[k := s], p, checks[1..], key);
      var (end, rs) := RunKeyed(states[k := s], p, checks[1..]);
      assert ([r] + rs)[1..] == rs;
      if k == key {
        assert ([a] + AttemptsOf(checks[1..], key))[1..] == AttemptsOf(checks[1..], key);
      } else {
        assert AttemptsOf(checks, key) == AttemptsOf(checks[1..], key);
        assert ResultsOf(checks, [r] + rs, key) == ResultsOf(checks[1..], rs, key);
      }
    }
  }
}
