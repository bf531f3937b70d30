/** Properties of the retry loop of `check_username`, stated on `Retry.Attempts`. */
module RetryFacts {
  import opened Wrappers
  import opened Records
  import opened Rotation
  import opened Retry
  import Arith

  /** The loop makes at most one request per remaining iteration, and at least one
      if any iteration is left. */
  lemma {:induction false} AttemptsBudget(username: string, retryCount: int, attempt: nat, m: Machine, env: Env)
    requires m.rot.Valid()
    ensures var k := Attempts(username, retryCount, attempt, m, env).after.rot.count - m.rot.count;
      k <= Remaining(retryCount, attempt) && (retryCount > attempt ==> k >= 1)
    decreases retryCount - attempt
  {
    if attempt < retryCount {
      var s := Sent(username, m, env);
      var n := s.rot.count;
      match env.respond(n)
      case TooManyRequests =>
        AttemptsBudget(username, retryCount, attempt + 1, Waited(s, env.clock(n), RateLimitWait), env);
      case RequestError(e) =>
        if attempt != retryCount - 1 {
          AttemptsBudget(username, retryCount, attempt + 1, Waited(s, env.clock(n), Backoff(attempt)), env);
        }
      case Ok(page) =>
    }
  }

  /** Each request is one rotator call: the cursor ends as many places round the
      pool as requests were made. */
  lemma {:induction false} AttemptsCursor(username: string, retryCount: int, attempt: nat, m: Machine, env: Env)
    requires m.rot.Valid()
    ensures var fin := Attempts(username, retryCount, attempt, m, env).after.rot;
      fin.cursor == (m.rot.cursor + (fin.count - m.rot.count)) % PoolSize
    decreases retryCount - attempt
  {
    if attempt < retryCount {
      var s := Sent(username, m, env);
      var n := s.rot.count;
      match env.respond(n)
      case TooManyRequests =>
        var next := Waited(s, env.clock(n), RateLimitWait);
        AttemptsCursor(username, retryCount, attempt + 1, next, env);
        OneMoreStep(m.rot.cursor, Attempts(username, retryCount, attempt + 1, next, env).after.rot.count - n);
      case RequestError(e) =>
        if attempt != retryCount - 1 {
          var next := Waited(s, env.clock(n), Backoff(attempt));
          AttemptsCursor(username, retryCount, attempt + 1, next, env);
          OneMoreStep(m.rot.cursor, Attempts(username, retryCount, attempt + 1, next, env).after.rot.count - n);
        }
      case Ok(page) =>
    }
  }

  /** One step round the pool followed by k more is k + 1 steps. */
  lemma OneMoreStep(c: nat, k: int)
    ensures ((c + 1) % PoolSize + k) % PoolSize == (c + (k + 1)) % PoolSize
  {
    Arith.ModThenAdd(c + 1, k, PoolSize);
  }

  /** The traffic log only grows. */
  lemma {:induction false} AttemptsExtendTraffic(username: string, retryCount: int, attempt: nat, m: Machine, env: Env)
    requires m.rot.Valid()
    ensures var t := Attempts(username, retryCount, attempt, m, env).after.traffic;
      |m.traffic| <= |t| && t[..|m.traffic|] == m.traffic
    decreases retryCount - attempt
  {
    if attempt < retryCount {
      var s := Sent(username, m, env);
      var n := s.rot.count;
      assert s.traffic[..|m.traffic|] == m.traffic;
      match env.respond(n)
      case TooManyRequests =>
        var next := Waited(s, env.clock(n), RateLimitWait);
        AttemptsExtendTraffic(username, retryCount, attempt + 1, next, env);
        var t := Attempts(username, retryCount, attempt + 1, next, env).after.traffic;
        assert t[..|m.traffic|] == t[..|next.traffic|][..|m.traffic|];
      case RequestError(e) =>
        if attempt != retryCount - 1 {
          var next := Waited(s, env.clock(n), Backoff(attempt));
          AttemptsExtendTraffic(username, retryCount, attempt + 1, next, env);
          var t := Attempts(username, retryCount, attempt + 1, next, env).after.traffic;
          assert t[..|m.traffic|] == t[..|next.traffic|][..|m.traffic|];
        }
      case Ok(page) =>
    }
  }

  /** The log gains one GET per request the loop makes. */
  lemma {:induction false} AttemptsLogRequests(username: string, retryCount: int, attempt: nat, m: Machine, env: Env)
    requires m.rot.Valid()
    ensures var c := Attempts(username, retryCount, attempt, m, env);
      Requests(c.after.traffic) == Requests(m.traffic) + (c.after.rot.count - m.rot.count)
    decreases retryCount - attempt
  {
    if attempt < retryCount {
      var s := Sent(username, m, env);
      var n := s.rot.count;
      var ua := NextAgent(m.rot, env.draw).1;
      assert s.traffic == m.traffic + [Request(QueryUrl(username), ua)];
      RequestsAppend(m.traffic, [Request(QueryUrl(username), ua)]);
      RequestsSingle(Request(QueryUrl(username), ua));
      match env.respond(n)
      case TooManyRequests =>
        RequestsAppend(s.traffic, [RateLimitWait]);
        RequestsSingle(RateLimitWait);
        AttemptsLogRequests(username, retryCount, attempt + 1, Waited(s, env.clock(n), RateLimitWait), env);
      case RequestError(e) =>
        if attempt != retryCount - 1 {
          RequestsAppend(s.traffic, [Backoff(attempt)]);
          RequestsSingle(Backoff(attempt));
          AttemptsLogRequests(username, retryCount, attempt + 1, Waited(s, env.clock(n), Backoff(attempt)), env);
        }
      case Ok(page) =>
    }
  }

  /**
   * The loop returns no result exactly when no reply among its requests is a page
   * and the last iteration (if any) got a 429: a failure on the last iteration
   * returns "error", a page returns its verdict.
   */
  lemma {:induction false} NoResultIff(username: string, retryCount: int, attempt: nat, m: Machine, env: Env)
    requires m.rot.Valid()
    ensures Attempts(username, retryCount, attempt, m, env).result.None? <==>
      (forall n :: InReach(m, retryCount, attempt, n) ==> !env.respond(n).Ok?) &&
      (retryCount > attempt ==> env.respond(m.rot.count + Remaining(retryCount, attempt)).TooManyRequests?)
    decreases retryCount - attempt
  {
    if attempt < retryCount {
      var s := Sent(username, m, env);
      var n := s.rot.count;
      assert InReach(m, retryCount, attempt, n);
      match env.respond(n)
      case TooManyRequests =>
        var next := Waited(s, env.clock(n), RateLimitWait);
        NoResultIff(username, retryCount, attempt + 1, next, env);
        assert forall j :: InReach(m, retryCount, attempt, j) && j != n ==> InReach(next, retryCount, attempt + 1, j);
      case RequestError(e) =>
        if attempt != retryCount - 1 {
          var next := Waited(s, env.clock(n), Backoff(attempt));
          NoResultIff(username, retryCount, attempt + 1, next, env);
          assert forall j :: InReach(m, retryCount, attempt, j) && j != n ==> InReach(next, retryCount, attempt + 1, j);
        }
      case Ok(page) =>
    }
  }

  /**
   * When every iteration gets a 429 the loop falls off its end: no result, one
   * request per iteration, and the error time of the last 429 recorded.
   */
  lemma {:induction false} AllRateLimited(username: string, retryCount: int, attempt: nat, m: Machine, env: Env)
    requires m.rot.Valid()
    requires forall n :: InReach(m, retryCount, attempt, n) ==> env.respond(n).TooManyRequests?
    ensures var c := Attempts(username, retryCount, attempt, m, env);
      c.result.None? &&
      c.after.rot.count == m.rot.count + Remaining(retryCount, attempt) &&
      (retryCount > attempt ==> c.after.lastError == Some(env.clock(c.after.rot.count)))
    decreases retryCount - attempt
  {
    if attempt < retryCount {
      var s := Sent(username, m, env);
      var n := s.rot.count;
      assert InReach(m, retryCount, attempt, n);
      var next := Waited(s, env.clock(n), RateLimitWait);
      assert forall j :: InReach(next, retryCount, attempt + 1, j) ==> InReach(m, retryCount, attempt, j);
      AllRateLimited(username, retryCount, attempt + 1, next, env);
    }
  }

  /**
   * When every request fails with a request error, every iteration makes its
   * request and the last one returns the "error" result with that failure's text
   * and clock reading.
   */
  lemma {:induction false} AllFailed(username: string, retryCount: int, attempt: nat, m: Machine, env: Env)
    requires m.rot.Valid()
    requires attempt < retryCount
    requires forall n :: InReach(m, retryCount, attempt, n) ==> env.respond(n).RequestError?
    ensures var c := Attempts(username, retryCount, attempt, m, env);
      var last := m.rot.count + (retryCount - attempt);
      env.respond(last).RequestError? &&
      c.after.rot.count == last &&
      c.result == Some(ErrorResult(username, env.respond(last).detail, env.clock(last))) &&
      c.after.lastError == Some(env.clock(last))
    decreases retryCount - attempt
  {
    var s := Sent(username, m, env);
    var n := s.rot.count;
    assert InReach(m, retryCount, attempt, n);
    assert InReach(m, retryCount, attempt, m.rot.count + (retryCount - attempt));
    if attempt != retryCount - 1 {
      var next := Waited(s, env.clock(n), Backoff(attempt));
      assert forall j :: InReach(next, retryCount, attempt + 1, j) ==> InReach(m, retryCount, attempt, j);
      AllFailed(username, retryCount, attempt + 1, next, env);
    }
  }

  /**
   * An "error" result comes only from a request error on the last iteration
   * (attempt == retry_count - 1), after one request per iteration.
   */
  lemma {:induction false} ErrorOnlyOnLastAttempt(username: string, retryCount: int, attempt: nat, m: Machine, env: Env)
    requires m.rot.Valid()
    ensures var c := Attempts(username, retryCount, attempt, m, env);
      var last := m.rot.count + Remaining(retryCount, attempt);
      c.result.Some? && c.result.value.status == Error ==>
        retryCount > attempt && c.after.rot.count == last &&
        env.respond(last).RequestError? &&
        c.result.value.error == Some(env.respond(last).detail)
    decreases retryCount - attempt
  {
    if attempt < retryCount {
      var s := Sent(username, m, env);
      var n := s.rot.count;
      match env.respond(n)
      case TooManyRequests =>
        ErrorOnlyOnLastAttempt(username, retryCount, attempt + 1, Waited(s, env.clock(n), RateLimitWait), env);
      case RequestError(e) =>
        if attempt != retryCount - 1 {
          ErrorOnlyOnLastAttempt(username, retryCount, attempt + 1, Waited(s, env.clock(n), Backoff(attempt)), env);
        }
      case Ok(page) =>
    }
  }

  /**
   * A non-error result is the verdict on the first page among the replies, with the
   * clock reading of that reply; every earlier reply was a 429 or a request error.
   */
  lemma {:induction false} VerdictFromFirstPage(username: string, retryCount: int, attempt: nat, m: Machine, env: Env)
    requires m.rot.Valid()
    ensures var c := Attempts(username, retryCount, attempt, m, env);
      var n := c.after.rot.count;
      c.result.Some? && c.result.value.status != Error ==>
        m.rot.count < n && env.respond(n).Ok? &&
        c.result == Some(Classified(username, env.respond(n).page, env.clock(n))) &&
        forall j :: m.rot.count < j < n ==> !env.respond(j).Ok?
    decreases retryCount - attempt
  {
    if attempt < retryCount {
      var s := Sent(username, m, env);
      var n := s.rot.count;
      match env.respond(n)
      case TooManyRequests =>
        VerdictFromFirstPage(username, retryCount, attempt + 1, Waited(s, env.clock(n), RateLimitWait), env);
      case RequestError(e) =>
        if attempt != retryCount - 1 {
          VerdictFromFirstPage(username, retryCount, attempt + 1, Waited(s, env.clock(n), Backoff(attempt)), env);
        }
      case Ok(page) =>
    }
  }
}
