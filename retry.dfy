/**
 * The retry loop of `check_username`, as a function of an abstract environment.
 *
 * Each request gets the number the rotator's counter takes when the request's
 * agent is drawn; the environment answers request n with `respond(n)`, and
 * `clock(n)` is the wall-clock reading taken while its reply is handled (used
 * for `last_error_time` and `checked_at`).
 */
module Retry {
  import opened Wrappers
  import opened Records
  import opened Classifier
  import opened Rotation

  const BaseUrl: string := "https://fragment.com/"
  /** The `retry_count` that `process_username` passes. */
  const DefaultRetries: int := 3

  /** The URL of the search page for a username (not URL-encoded, as in the source). */
  function QueryUrl(username: string): string {
    BaseUrl + "?query=" + username
  }

  /**
   * What one GET yields: a page (any status below 400 other than 429), HTTP 429,
   * or a `RequestException` (a transport failure or a status of 400 or more) with
   * its text.
   */
  datatype Response = Ok(page: Page) | TooManyRequests | RequestError(detail: string)

  /** The oracles the checker consults: random draws of the rotator, the replies,
      the clock at each reply, and the clock at each pacing check (by work index). */
  datatype Env = Env(
    draw: nat -> Draw,
    respond: nat -> Response,
    clock: nat -> Time,
    paceClock: nat -> Time)

  /** What the retry loop does on the wire and while it waits. */
  datatype Traffic =
    | Request(url: string, userAgent: string)
    | RateLimitWait
    | Backoff(attempt: nat)

  /** The checker state the retry loop reads and writes. */
  datatype Machine = Machine(rot: Rotator, lastError: Option<Time>, traffic: seq<Traffic>)

  /** The dict `check_username` returns (None when the loop falls off its end), and
      the state afterwards. */
  datatype Checked = Checked(result: Option<CheckResult>, after: Machine)

  function Classified(username: string, page: Page, t: Time): (r: CheckResult)
    ensures r.username == Some(username) && r.error.None? && r.checkedAt == t
    ensures r.status == Classify(page).status && r.status != Error
    ensures r.available <==> r.status == Unavailable
  {
    var v := Classify(page);
    CheckResult(Some(username), v.available, v.status, None, t)
  }

  function ErrorResult(username: string, detail: string, t: Time): (r: CheckResult)
    ensures r.username == Some(username) && r.checkedAt == t
    ensures r.status == Error && !r.available && r.error == Some(detail)
  {
    CheckResult(Some(username), false, Error, Some(detail), t)
  }

  /** The state once an iteration has drawn its agent and sent its GET. */
  function Sent(username: string, m: Machine, env: Env): (s: Machine)
    requires m.rot.Valid()
    ensures s.rot == NextAgent(m.rot, env.draw).0 && s.lastError == m.lastError
    ensures s.traffic == m.traffic + [Request(QueryUrl(username), NextAgent(m.rot, env.draw).1)]
  {
    var (rot, ua) := NextAgent(m.rot, env.draw);
    m.(rot := rot, traffic := m.traffic + [Request(QueryUrl(username), ua)])
  }

  /** The state once a failed iteration has recorded its error time and started to wait. */
  function Waited(s: Machine, t: Time, wait: Traffic): Machine {
    s.(lastError := Some(t), traffic := s.traffic + [wait])
  }

  /**
   * The loop `for attempt in range(retry_count)` from iteration `attempt` on.
   * A 429 records the error time and ends the iteration (it uses up an attempt);
   * a request error records the error time and either returns the "error" result
   * (on the last iteration) or backs off; a page is classified and returned.
   */
  function Attempts(username: string, retryCount: int, attempt: nat, m: Machine, env: Env): (c: Checked)
    requires m.rot.Valid()
    ensures c.after.rot.Valid()
    ensures m.rot.count <= c.after.rot.count
    ensures c.result.Some? ==> c.result.value.username == Some(username)
    ensures c.result.Some? ==> (c.result.value.status == Error <==> c.result.value.error.Some?)
    ensures c.result.Some? && c.result.value.available ==> c.result.value.status == Unavailable
    decreases retryCount - attempt
  {
    if attempt >= retryCount then Checked(None, m)
    else
      var s := Sent(username, m, env);
      var n := s.rot.count;
      match env.respond(n)
      case TooManyRequests =>
        Attempts(username, retryCount, attempt + 1, Waited(s, env.clock(n), RateLimitWait), env)
      case RequestError(e) =>
        if attempt == retryCount - 1 then
          Checked(Some(ErrorResult(username, e, env.clock(n))), s.(lastError := Some(env.clock(n))))
        else
          Attempts(username, retryCount, attempt + 1, Waited(s, env.clock(n), Backoff(attempt)), env)
      case Ok(page) =>
        Checked(Some(Classified(username, page, env.clock(n))), s)
  }

  /** The number of GET requests in a traffic log. */
  function Requests(t: seq<Traffic>): nat {
    if t == [] then 0 else Requests(t[..|t| - 1]) + (if t[|t| - 1].Request? then 1 else 0)
  }

  lemma {:induction false} RequestsAppend(t: seq<Traffic>, u: seq<Traffic>)
    ensures Requests(t + u) == Requests(t) + Requests(u)
    decreases |u|
  {
    if u == [] {
      assert t + u == t;
    } else {
      assert (t + u)[..|t + u| - 1] == t + u[..|u| - 1];
      RequestsAppend(t, u[..|u| - 1]);
    }
  }

  lemma RequestsSingle(e: Traffic)
    ensures Requests([e]) == if e.Request? then 1 else 0
  {
    assert [e][..0] == [];
  }

  /** The number of iterations left from `attempt` on (none when retry_count <= attempt). */
  function Remaining(retryCount: int, attempt: nat): nat {
    if retryCount > attempt then retryCount - attempt else 0
  }

  /** The requests the loop can make from state m: numbers count+1 .. count+Remaining. */
  predicate InReach(m: Machine, retryCount: int, attempt: nat, n: int) {
    m.rot.count < n <= m.rot.count + Remaining(retryCount, attempt)
  }
}
