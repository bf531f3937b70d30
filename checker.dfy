/**
 * The class `FragmentChecker`: its rotator fields, its last-error time, whether a
 * Telegram bot and chat are configured, and the methods that check one name and
 * a list of names. Each method is proved to do what the functions of `Rotation`,
 * `Retry` and `Batch` say; the lemmas beside those functions state the
 * properties.
 *
 * What the methods do outside the object is recorded in ghost logs: the field
 * `traffic` holds the GETs and the waits of the retry loop, and the ghost results
 * of `ProcessUsername` and `ProcessUsernames` hold the alerts, checkpoint writes
 * and pacing sleeps.
 */
module Checker {
  import opened Wrappers
  import opened Records
  import opened Classifier
  import opened Rotation
  import opened Retry
  import opened Batch

  class FragmentChecker {
    /** `user_agents`: the pool, overwritten slot by slot. */
    const userAgents: array<string>
    /** `current_ua_index` */
    var currentUaIndex: nat
    /** `request_count` */
    var requestCount: nat
    /** `last_error_time` */
    var lastErrorTime: Option<Time>
    /** A bot exists (the token is truthy) and the chat id is truthy: alerts are sent. */
    const notifier: bool
    ghost var traffic: seq<Traffic>

    ghost predicate Valid()
      reads this`currentUaIndex
    {
      userAgents.Length == PoolSize && currentUaIndex < PoolSize
    }

    /** The rotator fields as a value. */
    ghost function Agents(): Rotator
      reads this`currentUaIndex, this`requestCount, userAgents
    {
      Rotator(userAgents[..], currentUaIndex, requestCount)
    }

    /** The state the retry loop reads and writes. */
    ghost function State(): Machine
      reads this`currentUaIndex, this`requestCount, this`lastErrorTime, this`traffic, userAgents
    {
      Machine(Agents(), lastErrorTime, traffic)
    }

    /** `__init__`: ten agents drawn from the agent source, counters at zero, no error yet. */
    constructor (token: Option<string>, chatId: Option<string>, agents: seq<string>)
      requires |agents| == PoolSize
      ensures Valid() && Agents() == Initial(agents)
      ensures lastErrorTime == None && traffic == []
      ensures notifier == (Truthy(token) && Truthy(chatId))
      ensures fresh(userAgents)
    {
      userAgents := new string[PoolSize](i => if 0 <= i < |agents| then agents[i] else "");
      currentUaIndex := 0;
      requestCount := 0;
      lastErrorTime := None;
      notifier := Truthy(token) && Truthy(chatId);
      traffic := [];
      new;
      assert userAgents[..] == agents;
    }

    /** `get_next_user_agent`: one rotator step; the random slot and the fresh agent
        of a refresh come from `draw`. */
    method GetNextUserAgent(draw: nat -> Draw) returns (ua: string)
      requires Valid()
      modifies this, userAgents
      ensures Valid()
      ensures (Agents(), ua) == NextAgent(old(Agents()), draw)
      ensures lastErrorTime == old(lastErrorTime) && traffic == old(traffic)
    {
      requestCount := requestCount + 1;
      if RefreshDue(requestCount) {
        var d := draw(requestCount);
        userAgents[d.slot] := d.agent;
      }
      ua := userAgents[currentUaIndex];
      currentUaIndex := (currentUaIndex + 1) % userAgents.Length;
    }

    /**
     * `check_username`: up to `retryCount` iterations of request and reply. A 429
     * records the error time, waits and goes on to the next iteration; a request
     * error records the error time and returns the "error" result on the last
     * iteration, else backs off; a page is classified. None when every iteration
     * ends in a 429.
     */
    method CheckUsername(username: string, retryCount: int, env: Env) returns (result: Option<CheckResult>)
      requires Valid()
      modifies this, userAgents
      ensures Valid()
      ensures Checked(result, State()) == Attempts(username, retryCount, 0, old(State()), env)
    {
      var attempt: nat := 0;
      while attempt < retryCount
        invariant Valid()
        invariant Attempts(username, retryCount, attempt, State(), env) ==
                  Attempts(username, retryCount, 0, old(State()), env)
        decreases retryCount - attempt
      {
        var url := QueryUrl(username);
        var ua := GetNextUserAgent(env.draw);
        traffic := traffic + [Request(url, ua)];
        var n := requestCount;
        match env.respond(n) {
          case TooManyRequests =>
            lastErrorTime := Some(env.clock(n));
            traffic := traffic + [RateLimitWait];
          case RequestError(e) =>
            lastErrorTime := Some(env.clock(n));
            if attempt == retryCount - 1 {
              return Some(ErrorResult(username, e, env.clock(n)));
            }
            traffic := traffic + [Backoff(attempt)];
          case Ok(page) =>
            var verdict := Classify(page);
            return Some(CheckResult(Some(username), verdict.available, verdict.status, None, env.clock(n)));
        }
        attempt := attempt + 1;
      }
      return None;
    }

    /** `process_username`: check with the default three attempts and alert on an
        available name when a bot and a chat are configured. None stands for the
        TypeError that `result["available"]` raises on a missing result. `sent`
        holds the alert, if one is sent. */
    method ProcessUsername(username: string, env: Env) returns (result: Option<CheckResult>, ghost sent: seq<Event>)
      requires Valid()
      modifies this, userAgents
      ensures Valid()
      ensures Checked(result, State()) == Attempts(username, DefaultRetries, 0, old(State()), env)
      ensures sent == if result.Some? && result.value.available && notifier then [Notify(username)] else []
    {
      result := CheckUsername(username, DefaultRetries, env);
      sent := [];
      if result.Some? && result.value.available && notifier {
        sent := [Notify(username)];
      }
    }

    /**
     * One pass of the loop of `process_usernames` once the interrupt test is past:
     * check name i, append its result, write the checkpoint when it is due and
     * pace. `crash` is the exception that ends the run there, if any; otherwise the
     * rest of the run is the loop from iteration i + 1.
     */
    method ProcessAt(ghost job: Job, ghost steps: seq<Checked>, i: nat, work: seq<string>,
                     results: seq<CheckResult>, stateFile: bool, batchSize: int, env: Env,
                     ghost log: seq<Event>, ghost run: Run)
      returns (crash: Option<Crash>, results': seq<CheckResult>, ghost log': seq<Event>)
      requires Valid()
      requires job.work == work && job.stateFile == stateFile && job.batchSize == batchSize
      requires job.notifier == notifier && job.interrupt != Some(i)
      requires |steps| == |work| && i < |work|
      requires steps[i] == Attempts(work[i], DefaultRetries, 0, State(), env)
      requires Loop(job, steps, env, i, State(), results, log) == run
      modifies this, userAgents
      ensures Valid() && State() == steps[i].after
      ensures crash.None? ==> Loop(job, steps, env, i + 1, State(), results', log') == run
      ensures crash.Some? ==> run == Run(Crashed(crash.value), log', State())
    {
      ghost var before := State();
      LoopStops(job, steps, env, i, before, results, log);
      var result, sent := ProcessUsername(work[i], env);
      assert Checked(result, State()) == steps[i];
      if result.None? {
        return Some(NoResult(work[i])), results, log;
      }
      log' := log + sent;
      results' := results + [result.value];
      if stateFile {
        if batchSize == 0 {
          return Some(ZeroBatchSize), results', log';
        }
        if (i + 1) % batchSize == 0 || i == |work| - 1 {
          log' := log' + [Save(results')];
        }
      }
      assert log' == log + sent + SavePart(job, i, results');
      if i < |work| - 1 {
        log' := log' + [Pace];
        if PenaltyDue(lastErrorTime, env.paceClock(i)) {
          log' := log' + [Penalty];
        }
      }
      assert log' == log + sent + SavePart(job, i, results') + PacePart(|work|, i, lastErrorTime, env.paceClock(i));
      LoopNext(job, steps, env, i, before, results, log, results', log');
      crash := None;
    }

    /** One iteration of the loop: the interrupt test as iteration i starts, then
        the pass over name i. */
    method Iteration(ghost job: Job, ghost steps: seq<Checked>, i: nat, work: seq<string>,
                     results: seq<CheckResult>, stateFile: bool, batchSize: int, interrupt: Option<nat>,
                     env: Env, ghost log: seq<Event>, ghost run: Run)
      returns (stop: Option<Outcome>, results': seq<CheckResult>, ghost log': seq<Event>)
      requires Valid()
      requires job.work == work && job.stateFile == stateFile && job.batchSize == batchSize
      requires job.notifier == notifier && job.interrupt == interrupt
      requires |steps| == |work| && i < |work|
      requires steps[i] == Attempts(work[i], DefaultRetries, 0, State(), env)
      requires Loop(job, steps, env, i, State(), results, log) == run
      modifies this, userAgents
      ensures Valid()
      ensures stop.Some? ==> run == Run(stop.value, log', State())
      ensures stop.None? ==> State() == steps[i].after &&
                             Loop(job, steps, env, i + 1, steps[i].after, results', log') == run
    {
      if interrupt == Some(i) {
        LoopStops(job, steps, env, i, State(), results, log);
        log' := log;
        if stateFile {
          log' := log' + [Save(results)];
        }
        return Some(Interrupted(results)), results, log';
      }
      var crash;
      crash, results', log' := ProcessAt(job, steps, i, work, results, stateFile, batchSize, env, log, run);
      if crash.Some? {
        return Some(Crashed(crash.value)), results', log';
      }
      stop := None;
    }

    /**
     * `process_usernames`: load the checkpoint, drop the names already processed,
     * then check the rest in order, writing the checkpoint on its cadence and
     * pacing between names. `interrupt` is Some(k) when a KeyboardInterrupt
     * arrives as iteration k starts; the run then writes the results so far
     * (with a state file) and returns them.
     */
    method ProcessUsernames(usernames: seq<string>, cp: Checkpoint, batchSize: int,
                            interrupt: Option<nat>, env: Env) returns (outcome: Outcome, ghost log: seq<Event>)
      requires Valid()
      modifies this, userAgents
      ensures Valid()
      ensures var run := RunOf(PlanJob(usernames, cp, batchSize, interrupt, notifier), old(State()), env);
        outcome == run.outcome && log == run.events && State() == run.after
    {
      ghost var m0 := State();
      var results: seq<CheckResult> := [];
      var processed: set<string> := {};
      if cp.StateFile? && cp.loaded.Some? {
        processed := Processed(cp.loaded.value);
        results := cp.loaded.value;
      } else {
        assert Processed([]) == {};
      }
      var work := WorkList(usernames, processed);
      ghost var job := Job(results, work, cp.StateFile?, batchSize, interrupt, notifier);
      assert job == PlanJob(usernames, cp, batchSize, interrupt, notifier);
      outcome, log := RunJob(job, CheckAll(work, m0, env), m0, work, results, cp.StateFile?, batchSize, interrupt, env);
    }

    /** The loop of `process_usernames` over a planned work list, proved against the
        run over the checks it goes through, each starting where the previous one
        left the checker. */
    method RunJob(ghost job: Job, ghost steps: seq<Checked>, ghost m0: Machine, work: seq<string>,
                  saved: seq<CheckResult>, stateFile: bool, batchSize: int, interrupt: Option<nat>, env: Env)
      returns (outcome: Outcome, ghost log: seq<Event>)
      requires Valid() && State() == m0 && m0.rot.Valid()
      requires job == Job(saved, work, stateFile, batchSize, interrupt, notifier)
      requires steps == CheckAll(work, m0, env)
      modifies this, userAgents
      ensures Valid()
      ensures var run := Loop(job, steps, env, 0, m0, saved, []);
        outcome == run.outcome && log == run.events && State() == run.after
    {
      ghost var run := Loop(job, steps, env, 0, m0, saved, []);
      var results := saved;
      log := [];
      var i := 0;
      while i < |work|
        invariant Valid()
        invariant 0 <= i <= |work|
        invariant State() == Before(steps, m0, i)
        invariant Loop(job, steps, env, i, Before(steps, m0, i), results, log) == run
      {
        CheckAllAt(work, m0, env, i);
        var stop;
        stop, results, log := Iteration(job, steps, i, work, results, stateFile, batchSize, interrupt, env, log, run);
        if stop.Some? {
          return stop.value, log;
        }
        i := i + 1;
      }
      LoopStops(job, steps, env, i, Before(steps, m0, i), results, log);
      return Finished(results), log;
    }
  }
}
