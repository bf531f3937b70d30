/**
 * `process_usernames`: resolve the work list against the loaded checkpoint, then
 * check each remaining name in order, appending its result, alerting on available
 * names, writing the checkpoint on its cadence and pacing between names.
 *
 * This module states the run as functions of the job, the starting checker state
 * and the environment; `Checker.FragmentChecker.ProcessUsernames` is proved to
 * follow them. File writes and sleeps appear as events, not as I/O or durations.
 */
module Batch {
  import opened Wrappers
  import opened Records
  import opened Retry

  /** The penalty rule looks back sixty seconds (in microseconds). */
  const PenaltyWindow: int := 60_000_000

  /** The `state_file` argument: absent, or a path whose load yielded the saved
      results (None when the file did not exist or could not be loaded). */
  datatype Checkpoint = NoStateFile | StateFile(loaded: Option<seq<CheckResult>>)

  /** The results a run starts from. */
  function SavedResults(cp: Checkpoint): (saved: seq<CheckResult>)
    ensures !(cp.StateFile? && cp.loaded.Some?) ==> saved == []
    ensures cp.StateFile? && cp.loaded.Some? ==> saved == cp.loaded.value
  {
    if cp.StateFile? && cp.loaded.Some? then cp.loaded.value else []
  }

  /** The names already processed: every truthy `username` among the saved results,
      whatever their status. */
  function Processed(saved: seq<CheckResult>): (done: set<string>)
    ensures forall u :: u in done <==>
      u != "" && exists k :: 0 <= k < |saved| && saved[k].username == Some(u)
  {
    set r | r in saved && Truthy(r.username) :: r.username.value
  }

  /** The input names not yet processed, in input order, duplicates kept. */
  function WorkList(usernames: seq<string>, done: set<string>): (w: seq<string>)
    ensures |w| <= |usernames|
    ensures forall u :: u in w <==> u in usernames && u !in done
  {
    if usernames == [] then []
    else (if usernames[0] in done then [] else [usernames[0]]) + WorkList(usernames[1..], done)
  }

  /** With nothing processed, every input name is on the work list. */
  lemma {:induction false} WorkListNothingDone(usernames: seq<string>)
    ensures WorkList(usernames, Processed([])) == usernames
    decreases |usernames|
  {
    assert Processed([]) == {};
    if usernames != [] {
      WorkListNothingDone(usernames[1..]);
      assert usernames == [usernames[0]] + usernames[1..];
    }
  }

  /** Without a state file, or when it did not load, the run starts from no
      results and checks every input name, duplicates included. */
  lemma FreshStart(usernames: seq<string>, cp: Checkpoint, batchSize: int, interrupt: Option<nat>, notifier: bool)
    requires !(cp.StateFile? && cp.loaded.Some?)
    ensures PlanJob(usernames, cp, batchSize, interrupt, notifier).saved == []
    ensures PlanJob(usernames, cp, batchSize, interrupt, notifier).work == usernames
  {
    WorkListNothingDone(usernames);
  }

  /** What the run records besides the retry traffic. */
  datatype Event =
    | Notify(username: string)           // an alert sent for an available name
    | Save(snapshot: seq<CheckResult>)   // the `results` written to the state file
    | Pace                               // the pacing sleep between two names
    | Penalty                            // the extra sleep after a recent error
  {
    function Kind(): EventKind {
      match this
      case Notify(_) => NotifyKind
      case Save(_) => SaveKind
      case Pace => PaceKind
      case Penalty => PenaltyKind
    }
  }

  datatype EventKind = NotifyKind | SaveKind | PaceKind | PenaltyKind

  /** The exceptions that escape `process_usernames` (nothing is returned then). */
  datatype Crash =
    | NoResult(username: string)   // `check_username` returned None; `result["available"]` raises
    | ZeroBatchSize                // `(i + 1) % batch_size` with batch_size 0

  datatype Outcome =
    | Finished(results: seq<CheckResult>)
    | Interrupted(results: seq<CheckResult>)
    | Crashed(crash: Crash)

  /** Everything a run depends on apart from the checker state and the environment.
      `interrupt` is Some(k) when a KeyboardInterrupt arrives once k names are done. */
  datatype Job = Job(
    saved: seq<CheckResult>,
    work: seq<string>,
    stateFile: bool,
    batchSize: int,
    interrupt: Option<nat>,
    notifier: bool)

  /** The job `process_usernames` sets up from its arguments. */
  function PlanJob(usernames: seq<string>, cp: Checkpoint, batchSize: int, interrupt: Option<nat>, notifier: bool): (job: Job)
    ensures job.saved == SavedResults(cp)
    ensures job.work == WorkList(usernames, Processed(SavedResults(cp)))
    ensures job.stateFile == cp.StateFile?
  {
    var saved := SavedResults(cp);
    Job(saved, WorkList(usernames, Processed(saved)), cp.StateFile?, batchSize, interrupt, notifier)
  }

  /** The checkpoint is written after iteration i when this holds (batch_size != 0). */
  predicate SaveDue(i: int, n: int, batchSize: int)
    requires batchSize != 0
    ensures i == n - 1 ==> SaveDue(i, n, batchSize)
    ensures batchSize == 1 ==> SaveDue(i, n, batchSize)
  {
    (i + 1) % batchSize == 0 || i == n - 1
  }

  /** The extra delay is due when the last error is less than sixty seconds old. */
  predicate PenaltyDue(lastError: Option<Time>, now: Time)
    ensures lastError.None? ==> !PenaltyDue(lastError, now)
    ensures lastError.Some? && lastError.value <= now < lastError.value + PenaltyWindow ==> PenaltyDue(lastError, now)
    ensures lastError.Some? && lastError.value + PenaltyWindow <= now ==> !PenaltyDue(lastError, now)
  {
    lastError.Some? && now - lastError.value < PenaltyWindow
  }

  /** Iteration i's alert: sent for an available name when a bot and a chat are set. */
  function AlertPart(job: Job, r: CheckResult, i: nat): seq<Event>
    requires i < |job.work|
  {
    if r.available && job.notifier then [Notify(job.work[i])] else []
  }

  /** Iteration i's checkpoint write (a state file was given and the cadence is due). */
  function SavePart(job: Job, i: nat, snapshot: seq<CheckResult>): seq<Event>
  {
    if job.stateFile && job.batchSize != 0 && SaveDue(i, |job.work|, job.batchSize) then [Save(snapshot)] else []
  }

  /** Iteration i's sleeps out of n: the pacing sleep unless i is the last name, followed by
      the penalty sleep when the last error is recent at that moment. */
  function PacePart(n: int, i: nat, lastError: Option<Time>, now: Time): seq<Event>
  {
    if i < n - 1 then [Pace] + (if PenaltyDue(lastError, now) then [Penalty] else []) else []
  }

  /** The check of every work-list name in turn, each starting where the previous
      one left the checker. */
  function CheckAll(work: seq<string>, m: Machine, env: Env): (steps: seq<Checked>)
    requires m.rot.Valid()
    ensures |steps| == |work| && Labelled(work, steps)
  {
    if work == [] then []
    else
      var c := Attempts(work[0], DefaultRetries, 0, m, env);
      [c] + CheckAll(work[1..], c.after, env)
  }

  /** Each check that has a result has it for its own name. */
  predicate Labelled(work: seq<string>, steps: seq<Checked>)
    requires |steps| == |work|
  {
    forall j :: 0 <= j < |steps| && steps[j].result.Some? ==> steps[j].result.value.username == Some(work[j])
  }

  /** The checker state before the check of name i. */
  function Before(steps: seq<Checked>, m0: Machine, i: nat): Machine
    requires i <= |steps|
  {
    if i == 0 then m0 else steps[i - 1].after
  }

  /** Check i starts from the state check i - 1 left. */
  lemma {:induction false} CheckAllAt(work: seq<string>, m0: Machine, env: Env, i: nat)
    requires m0.rot.Valid() && i < |work|
    ensures Before(CheckAll(work, m0, env), m0, i).rot.Valid()
    ensures CheckAll(work, m0, env)[i] ==
      Attempts(work[i], DefaultRetries, 0, Before(CheckAll(work, m0, env), m0, i), env)
  {
    if i > 0 {
      var c := Attempts(work[0], DefaultRetries, 0, m0, env);
      var rest := CheckAll(work[1..], c.after, env);
      var steps := CheckAll(work, m0, env);
      assert steps == [c] + rest;
      CheckAllAt(work[1..], c.after, env, i - 1);
      assert work[1..][i - 1] == work[i];
      assert steps[i] == rest[i - 1];
      if i == 1 {
        assert Before(steps, m0, i) == c.after;
      } else {
        assert steps[i - 1] == rest[i - 2];
      }
    }
  }

  /** What a run returns, what it records, and the checker state it leaves. */
  datatype Run = Run(outcome: Outcome, events: seq<Event>, after: Machine)

  /**
   * The loop over the work list from iteration i on, given the checks of all the
   * names, the state m before check i, and the results and events so far. An
   * iteration first sees a pending interrupt (and writes the checkpoint if there
   * is a state file), then takes its check; no result crashes on
   * `result["available"]`; otherwise the alert is sent, the result appended, and
   * with a state file and batch size 0 the cadence test divides by zero; an
   * iteration that gets past it writes the checkpoint when due and paces.
   */
  function Loop(job: Job, steps: seq<Checked>, env: Env, i: nat, m: Machine,
                results: seq<CheckResult>, events: seq<Event>): (run: Run)
    requires |steps| == |job.work| && i <= |job.work|
    ensures run.outcome.Crashed? && run.outcome.crash.NoResult? ==>
      exists j :: i <= j < |job.work| && job.work[j] == run.outcome.crash.username
    ensures run.outcome.Crashed? && run.outcome.crash.ZeroBatchSize? ==>
      i < |job.work| && job.stateFile && job.batchSize == 0
    decreases |job.work| - i
  {
    if i == |job.work| then Run(Finished(results), events, m)
    else if job.interrupt == Some(i) then
      Run(Interrupted(results), events + (if job.stateFile then [Save(results)] else []), m)
    else
      var c := steps[i];
      if c.result.None? then Run(Crashed(NoResult(job.work[i])), events, c.after)
      else
        var rs := results + [c.result.value];
        var alerted := events + AlertPart(job, c.result.value, i);
        if job.stateFile && job.batchSize == 0 then Run(Crashed(ZeroBatchSize), alerted, c.after)
        else
          Loop(job, steps, env, i + 1, c.after, rs,
               alerted + SavePart(job, i, rs) + PacePart(|job.work|, i, c.after.lastError, env.paceClock(i)))
  }

  /** An iteration that is not interrupted, gets a result and passes the cadence
      test hands on to the next one. */
  lemma LoopNext(job: Job, steps: seq<Checked>, env: Env, i: nat, m: Machine,
                 results: seq<CheckResult>, events: seq<Event>,
                 results': seq<CheckResult>, events': seq<Event>)
    requires |steps| == |job.work| && i < |job.work|
    requires job.interrupt != Some(i) && steps[i].result.Some?
    requires !(job.stateFile && job.batchSize == 0)
    requires results' == results + [steps[i].result.value]
    requires events' == events + AlertPart(job, steps[i].result.value, i) + SavePart(job, i, results') +
                        PacePart(|job.work|, i, steps[i].after.lastError, env.paceClock(i))
    ensures Loop(job, steps, env, i, m, results, events) ==
            Loop(job, steps, env, i + 1, steps[i].after, results', events')
  {
  }

  /** The ways an iteration ends the run: the loop is over, an interrupt arrives,
      the check has no result, or the cadence test divides by zero. */
  lemma LoopStops(job: Job, steps: seq<Checked>, env: Env, i: nat, m: Machine,
                  results: seq<CheckResult>, events: seq<Event>)
    requires |steps| == |job.work| && i <= |job.work|
    ensures i == |job.work| ==>
      Loop(job, steps, env, i, m, results, events) == Run(Finished(results), events, m)
    ensures i < |job.work| && job.interrupt == Some(i) ==>
      Loop(job, steps, env, i, m, results, events) ==
      Run(Interrupted(results), events + (if job.stateFile then [Save(results)] else []), m)
    ensures i < |job.work| && job.interrupt != Some(i) && steps[i].result.None? ==>
      Loop(job, steps, env, i, m, results, events) ==
      Run(Crashed(NoResult(job.work[i])), events, steps[i].after)
    ensures i < |job.work| && job.interrupt != Some(i) && steps[i].result.Some? &&
            job.stateFile && job.batchSize == 0 ==>
      Loop(job, steps, env, i, m, results, events) ==
      Run(Crashed(ZeroBatchSize), events + AlertPart(job, steps[i].result.value, i), steps[i].after)
  {
  }

  /** The run of `process_usernames` on a job: the loop from the start, over the
      checks of the work list, with the loaded results and nothing recorded yet. */
  function RunOf(job: Job, m0: Machine, env: Env): Run
    requires m0.rot.Valid()
  {
    Loop(job, CheckAll(job.work, m0, env), env, 0, m0, job.saved, [])
  }

  /** A run crashes on a missing result only for a name of its work list, and on
      the cadence test only with a state file, batch size 0 and a name to check. */
  lemma RunCrashes(job: Job, m0: Machine, env: Env)
    requires m0.rot.Valid()
    ensures var run := RunOf(job, m0, env);
      (run.outcome.Crashed? && run.outcome.crash.NoResult? ==> run.outcome.crash.username in job.work) &&
      (run.outcome.Crashed? && run.outcome.crash.ZeroBatchSize? ==>
        |job.work| > 0 && job.stateFile && job.batchSize == 0)
  {
  }

  /** The number of events of one kind. */
  function Count(evs: seq<Event>, k: EventKind): nat {
    if evs == [] then 0 else Count(evs[..|evs| - 1], k) + (if evs[|evs| - 1].Kind() == k then 1 else 0)
  }

  /** The number of results with available=true. */
  function AvailableCount(rs: seq<CheckResult>): nat {
    if rs == [] then 0 else AvailableCount(rs[..|rs| - 1]) + (if rs[|rs| - 1].available then 1 else 0)
  }
}
