/** Properties of a `process_usernames` run, stated on `Batch.RunOf`. */
module BatchFacts {
  import opened Wrappers
  import opened Records
  import opened Retry
  import opened RetryFacts
  import opened Batch
  import Arith

  // ---- the work list ----

  /** Filtering distributes over concatenation, so the work list keeps input order. */
  lemma {:induction false} WorkListAppend(a: seq<string>, b: seq<string>, done: set<string>)
    ensures WorkList(a + b, done) == WorkList(a, done) + WorkList(b, done)
    decreases |a|
  {
    if a == [] {
      assert a + b == b;
    } else {
      assert (a + b)[1..] == a[1..] + b;
      WorkListAppend(a[1..], b, done);
    }
  }

  /** A name still to do occurs in the work list as often as in the input; a name
      already done does not occur. */
  lemma {:induction false} WorkListMultiplicity(usernames: seq<string>, done: set<string>, u: string)
    ensures multiset(WorkList(usernames, done))[u] == if u in done then 0 else multiset(usernames)[u]
    decreases |usernames|
  {
    if usernames != [] {
      var head: seq<string> := if usernames[0] in done then [] else [usernames[0]];
      var w := WorkList(usernames[1..], done);
      assert WorkList(usernames, done) == head + w;
      WorkListMultiplicity(usernames[1..], done, u);
      assert usernames == [usernames[0]] + usernames[1..];
      assert multiset(usernames) == multiset([usernames[0]]) + multiset(usernames[1..]);
      assert multiset(head + w) == multiset(head) + multiset(w);
    }
  }

  // ---- outcomes ----

  /**
   * A finished loop returns the results it started with followed by the result
   * of each remaining check, in work-list order (so every remaining check had a
   * result).
   */
  lemma {:induction false} LoopFinished(job: Job, steps: seq<Checked>, env: Env, i: nat, m: Machine,
      results: seq<CheckResult>, events: seq<Event>)
    requires |steps| == |job.work| && i <= |job.work|
    ensures var r := Loop(job, steps, env, i, m, results, events).outcome;
      r.Finished? ==>
        |r.results| == |results| + (|job.work| - i) && r.results[..|results|] == results &&
        forall j :: i <= j < |job.work| ==>
          steps[j].result.Some? && r.results[|results| + (j - i)] == steps[j].result.value
    decreases |job.work| - i
  {
    if i < |job.work| && job.interrupt != Some(i) {
      var c := steps[i];
      if c.result.Some? && !(job.stateFile && job.batchSize == 0) {
        var rs := results + [c.result.value];
        var evs := events + AlertPart(job, c.result.value, i) + SavePart(job, i, rs) +
                   PacePart(|job.work|, i, c.after.lastError, env.paceClock(i));
        LoopNext(job, steps, env, i, m, results, events, rs, evs);
        LoopFinished(job, steps, env, i + 1, c.after, rs, evs);
        var r := Loop(job, steps, env, i + 1, c.after, rs, evs).outcome;
        if r.Finished? {
          AppendedAt(results, c.result.value, r.results);
          forall j | i < j < |job.work|
            ensures steps[j].result.Some? && r.results[|results| + (j - i)] == steps[j].result.value
          {
            assert |results| + (j - i) == |rs| + (j - (i + 1));
          }
        }
      }
    }
  }

  /** A sequence that extends `rs + [x]` extends `rs`, with `x` right after it. */
  lemma AppendedAt(rs: seq<CheckResult>, x: CheckResult, big: seq<CheckResult>)
    requires |rs| + 1 <= |big| && big[..|rs| + 1] == rs + [x]
    ensures big[..|rs|] == rs && big[|rs|] == x
  {
    assert big[..|rs|] == big[..|rs| + 1][..|rs|];
    assert big[|rs|] == big[..|rs| + 1][|rs|];
  }

  /** A finished run returns the loaded results followed by one result per
      work-list name, in work-list order: entry |saved| + j is the result of the
      check of name j, which starts where the check of name j - 1 left off. */
  lemma FinishedReturnsLoadedThenChecked(job: Job, m0: Machine, env: Env)
    requires m0.rot.Valid()
    ensures var r := RunOf(job, m0, env).outcome;
      var steps := CheckAll(job.work, m0, env);
      r.Finished? ==>
        |r.results| == |job.saved| + |job.work| && r.results[..|job.saved|] == job.saved &&
        forall j :: 0 <= j < |job.work| ==>
          steps[j].result.Some? && r.results[|job.saved| + j] == steps[j].result.value &&
          r.results[|job.saved| + j].username == Some(job.work[j])
  {
    LoopFinished(job, CheckAll(job.work, m0, env), env, 0, m0, job.saved, []);
  }

  /**
   * An interrupted loop stopped at the interrupt's iteration k: it returns the
   * results it started with followed by the results of the checks from i up to
   * k, and with a state file its last event writes exactly those results.
   */
  lemma {:induction false} LoopInterrupted(job: Job, steps: seq<Checked>, env: Env, i: nat, m: Machine,
      results: seq<CheckResult>, events: seq<Event>)
    requires |steps| == |job.work| && i <= |job.work|
    ensures var run := Loop(job, steps, env, i, m, results, events);
      run.outcome.Interrupted? ==>
        job.interrupt.Some? && i <= job.interrupt.value < |job.work| &&
        |run.outcome.results| == |results| + (job.interrupt.value - i) &&
        run.outcome.results[..|results|] == results &&
        (forall j :: i <= j < job.interrupt.value ==>
          steps[j].result.Some? && run.outcome.results[|results| + (j - i)] == steps[j].result.value) &&
        (job.stateFile ==> |run.events| > 0 && run.events[|run.events| - 1] == Save(run.outcome.results))
    decreases |job.work| - i
  {
    if i < |job.work| && job.interrupt != Some(i) {
      var c := steps[i];
      if c.result.Some? && !(job.stateFile && job.batchSize == 0) {
        var rs := results + [c.result.value];
        var alerted := events + AlertPart(job, c.result.value, i);
        var evs := alerted + SavePart(job, i, rs) + PacePart(|job.work|, i, c.after.lastError, env.paceClock(i));
        LoopNext(job, steps, env, i, m, results, events, rs, evs);
        LoopInterrupted(job, steps, env, i + 1, c.after, rs, evs);
        var r := Loop(job, steps, env, i + 1, c.after, rs, evs).outcome;
        if r.Interrupted? {
          AppendedAt(results, c.result.value, r.results);
          forall j | i < j < job.interrupt.value
            ensures steps[j].result.Some? && r.results[|results| + (j - i)] == steps[j].result.value
          {
            assert |results| + (j - i) == |rs| + (j - (i + 1));
          }
        }
      }
    }
  }

  /** An interrupt once k names are done returns the loaded results and the
      results of the checks of the first k work-list names, and with a state file
      writes exactly those |saved| + k results last. */
  lemma InterruptSavesProgress(job: Job, m0: Machine, env: Env)
    requires m0.rot.Valid()
    ensures var run := RunOf(job, m0, env);
      var steps := CheckAll(job.work, m0, env);
      run.outcome.Interrupted? ==>
        job.interrupt.Some? && job.interrupt.value < |job.work| &&
        |run.outcome.results| == |job.saved| + job.interrupt.value &&
        run.outcome.results[..|job.saved|] == job.saved &&
        (forall j :: 0 <= j < job.interrupt.value ==>
          steps[j].result.Some? && run.outcome.results[|job.saved| + j] == steps[j].result.value &&
          run.outcome.results[|job.saved| + j].username == Some(job.work[j])) &&
        (job.stateFile ==> |run.events| > 0 && run.events[|run.events| - 1] == Save(run.outcome.results))
  {
    LoopInterrupted(job, CheckAll(job.work, m0, env), env, 0, m0, job.saved, []);
  }

  /** When the first name's three requests all get a 429, `check_username` returns
      None and the run dies on `result["available"]` before anything is recorded. */
  lemma ThreeRateLimitsCrash(job: Job, m0: Machine, env: Env)
    requires m0.rot.Valid() && |job.work| > 0 && job.interrupt != Some(0)
    requires forall n :: m0.rot.count < n <= m0.rot.count + DefaultRetries ==> env.respond(n).TooManyRequests?
    ensures RunOf(job, m0, env).outcome == Crashed(NoResult(job.work[0]))
    ensures RunOf(job, m0, env).events == []
  {
    assert forall n :: InReach(m0, DefaultRetries, 0, n) ==> env.respond(n).TooManyRequests?;
    AllRateLimited(job.work[0], DefaultRetries, 0, m0, env);
  }

  // ---- counting events ----

  lemma {:induction false} CountAppend(a: seq<Event>, b: seq<Event>, k: EventKind)
    ensures Count(a + b, k) == Count(a, k) + Count(b, k)
    decreases |b|
  {
    if b == [] {
      assert a + b == a;
    } else {
      assert (a + b)[..|a + b| - 1] == a + b[..|b| - 1];
      CountAppend(a, b[..|b| - 1], k);
    }
  }

  lemma CountSingle(e: Event, k: EventKind)
    ensures Count([e], k) == if e.Kind() == k then 1 else 0
  {
    assert [e][..0] == [];
  }

  lemma AvailableCountAppend(rs: seq<CheckResult>, r: CheckResult)
    ensures AvailableCount(rs + [r]) == AvailableCount(rs) + (if r.available then 1 else 0)
  {
    assert (rs + [r])[..|rs|] == rs;
  }

  lemma AlertCount(job: Job, r: CheckResult, i: nat, k: EventKind)
    requires i < |job.work|
    ensures Count(AlertPart(job, r, i), k) == if k == NotifyKind && r.available && job.notifier then 1 else 0
  {
    if r.available && job.notifier {
      CountSingle(Notify(job.work[i]), k);
    }
  }

  lemma SaveCount(job: Job, i: nat, snapshot: seq<CheckResult>, k: EventKind)
    ensures Count(SavePart(job, i, snapshot), k) ==
      if k == SaveKind && job.stateFile && job.batchSize != 0 && SaveDue(i, |job.work|, job.batchSize) then 1 else 0
  {
    CountSingle(Save(snapshot), k);
  }

  lemma PaceCount(job: Job, i: nat, lastError: Option<Time>, now: Time, k: EventKind)
    ensures Count(PacePart(|job.work|, i, lastError, now), k) ==
      (if k == PaceKind && i < |job.work| - 1 then 1 else 0) +
      (if k == PenaltyKind && i < |job.work| - 1 && PenaltyDue(lastError, now) then 1 else 0)
  {
    if i < |job.work| - 1 {
      var penalty: seq<Event> := if PenaltyDue(lastError, now) then [Penalty] else [];
      CountAppend([Pace], penalty, k);
      CountSingle(Pace, k);
      CountSingle(Penalty, k);
    }
  }

  /** The number of iterations from i to n - 1 that write the checkpoint. */
  function DueBetween(i: nat, n: nat, b: int): nat
    requires b != 0
    decreases n - i
  {
    if i >= n then 0 else (if SaveDue(i, n, b) then 1 else 0) + DueBetween(i + 1, n, b)
  }

  /** From iteration i on, the b-th names and the last one write the checkpoint. */
  lemma {:induction false} DueBetweenMultiples(i: nat, n: nat, b: nat)
    requires b > 0 && i < n
    ensures DueBetween(i, n, b) + Arith.Multiples(i, b) == Arith.Multiples(n - 1, b) + 1
    decreases n - i
  {
    if i < n - 1 {
      DueBetweenMultiples(i + 1, n, b);
    }
  }

  /** With batch size b > 0, n iterations write the checkpoint ceil(n / b) times:
      after every b-th name and after the last one. */
  lemma CadenceCount(n: nat, b: nat)
    requires b > 0
    ensures DueBetween(0, n, b) == n / b + (if n % b != 0 then 1 else 0)
  {
    if n > 0 {
      DueBetweenMultiples(0, n, b);
      Arith.MultiplesCount(n - 1, b);
      Arith.DivStep(n, b);
    }
  }

  /** Twenty-five names with batch size 10 write the checkpoint three times. */
  lemma TwentyFiveNamesThreeSaves()
    ensures DueBetween(0, 25, 10) == 3
  {
    CadenceCount(25, 10);
  }

  /** The loop's events split as those it started with plus one iteration's worth. */
  lemma IterationSplit(job: Job, i: nat, events: seq<Event>, r: CheckResult, rs: seq<CheckResult>,
                       lastError: Option<Time>, now: Time, k: EventKind)
    requires i < |job.work|
    ensures Count(events + AlertPart(job, r, i) + SavePart(job, i, rs) + PacePart(|job.work|, i, lastError, now), k) ==
      Count(events, k) + Count(AlertPart(job, r, i), k) + Count(SavePart(job, i, rs), k) +
      Count(PacePart(|job.work|, i, lastError, now), k)
  {
    var alert, save, pace := AlertPart(job, r, i), SavePart(job, i, rs), PacePart(|job.work|, i, lastError, now);
    CountAppend(events + alert + save, pace, k);
    CountAppend(events + alert, save, k);
    CountAppend(events, alert, k);
  }

  /** A finished loop writes the checkpoint on each due iteration from i on; without
      a state file no loop writes it at all. */
  lemma {:induction false} LoopSaves(job: Job, steps: seq<Checked>, env: Env, i: nat, m: Machine,
      results: seq<CheckResult>, events: seq<Event>)
    requires |steps| == |job.work| && i <= |job.work|
    ensures var run := Loop(job, steps, env, i, m, results, events);
      (run.outcome.Finished? && job.stateFile && job.batchSize != 0 ==>
        Count(run.events, SaveKind) == Count(events, SaveKind) + DueBetween(i, |job.work|, job.batchSize)) &&
      (!job.stateFile ==> Count(run.events, SaveKind) == Count(events, SaveKind))
    decreases |job.work| - i
  {
    if i < |job.work| {
      var c := steps[i];
      if job.interrupt == Some(i) {
        assert events + [] == events;
      } else if c.result.Some? {
        var r := c.result.value;
        var rs := results + [r];
        CountAppend(events, AlertPart(job, r, i), SaveKind);
        AlertCount(job, r, i, SaveKind);
        if !(job.stateFile && job.batchSize == 0) {
          var evs := events + AlertPart(job, r, i) + SavePart(job, i, rs) + PacePart(|job.work|, i, c.after.lastError, env.paceClock(i));
          LoopNext(job, steps, env, i, m, results, events, rs, evs);
          LoopSaves(job, steps, env, i + 1, c.after, rs, evs);
          IterationSplit(job, i, events, r, rs, c.after.lastError, env.paceClock(i), SaveKind);
          SaveCount(job, i, rs, SaveKind);
          PaceCount(job, i, c.after.lastError, env.paceClock(i), SaveKind);
        }
      }
    }
  }

  /** A finished loop paces after each name from i on but the last. */
  lemma {:induction false} LoopPaces(job: Job, steps: seq<Checked>, env: Env, i: nat, m: Machine,
      results: seq<CheckResult>, events: seq<Event>)
    requires |steps| == |job.work| && i <= |job.work|
    ensures var run := Loop(job, steps, env, i, m, results, events);
      run.outcome.Finished? ==>
        Count(run.events, PaceKind) == Count(events, PaceKind) + (if i < |job.work| then |job.work| - 1 - i else 0)
    decreases |job.work| - i
  {
    if i < |job.work| && job.interrupt != Some(i) {
      var c := steps[i];
      if c.result.Some? && !(job.stateFile && job.batchSize == 0) {
        var r := c.result.value;
        var rs := results + [r];
        var evs := events + AlertPart(job, r, i) + SavePart(job, i, rs) + PacePart(|job.work|, i, c.after.lastError, env.paceClock(i));
        LoopNext(job, steps, env, i, m, results, events, rs, evs);
        LoopPaces(job, steps, env, i + 1, c.after, rs, evs);
        IterationSplit(job, i, events, r, rs, c.after.lastError, env.paceClock(i), PaceKind);
        AlertCount(job, r, i, PaceKind);
        SaveCount(job, i, rs, PaceKind);
        PaceCount(job, i, c.after.lastError, env.paceClock(i), PaceKind);
      }
    }
  }

  /** No loop sleeps a penalty more often than it paces: the penalty sleep only
      follows a pacing sleep. */
  lemma {:induction false} LoopPenalties(job: Job, steps: seq<Checked>, env: Env, i: nat, m: Machine,
      results: seq<CheckResult>, events: seq<Event>)
    requires |steps| == |job.work| && i <= |job.work|
    ensures var run := Loop(job, steps, env, i, m, results, events);
      Count(run.events, PenaltyKind) - Count(events, PenaltyKind) <= Count(run.events, PaceKind) - Count(events, PaceKind)
    decreases |job.work| - i
  {
    if i < |job.work| {
      var c := steps[i];
      if job.interrupt == Some(i) {
        var tail: seq<Event> := if job.stateFile then [Save(results)] else [];
        CountAppend(events, tail, PaceKind);
        CountAppend(events, tail, PenaltyKind);
        CountSingle(Save(results), PaceKind);
        CountSingle(Save(results), PenaltyKind);
      } else if c.result.Some? {
        var r := c.result.value;
        var rs := results + [r];
        if job.stateFile && job.batchSize == 0 {
          CountAppend(events, AlertPart(job, r, i), PaceKind);
          CountAppend(events, AlertPart(job, r, i), PenaltyKind);
          AlertCount(job, r, i, PaceKind);
          AlertCount(job, r, i, PenaltyKind);
        } else {
          var evs := events + AlertPart(job, r, i) + SavePart(job, i, rs) + PacePart(|job.work|, i, c.after.lastError, env.paceClock(i));
          LoopPenalties(job, steps, env, i + 1, c.after, rs, evs);
          IterationSplit(job, i, events, r, rs, c.after.lastError, env.paceClock(i), PaceKind);
          IterationSplit(job, i, events, r, rs, c.after.lastError, env.paceClock(i), PenaltyKind);
          AlertCount(job, r, i, PaceKind);
          AlertCount(job, r, i, PenaltyKind);
          SaveCount(job, i, rs, PaceKind);
          SaveCount(job, i, rs, PenaltyKind);
          PaceCount(job, i, c.after.lastError, env.paceClock(i), PaceKind);
          PaceCount(job, i, c.after.lastError, env.paceClock(i), PenaltyKind);
        }
      }
    }
  }

  lemma {:induction false} AvailableCountConcat(a: seq<CheckResult>, b: seq<CheckResult>)
    ensures AvailableCount(a + b) == AvailableCount(a) + AvailableCount(b)
    decreases |b|
  {
    if b == [] {
      assert a + b == a;
    } else {
      var b' := b[..|b| - 1];
      assert a + b == (a + b') + [b[|b| - 1]];
      assert b == b' + [b[|b| - 1]];
      AvailableCountConcat(a, b');
      AvailableCountAppend(a + b', b[|b| - 1]);
      AvailableCountAppend(b', b[|b| - 1]);
    }
  }

  /** A finished loop sends one alert per new available result when a notifier is
      configured, and none otherwise. */
  lemma {:induction false} LoopNotifies(job: Job, steps: seq<Checked>, env: Env, i: nat, m: Machine,
      results: seq<CheckResult>, events: seq<Event>)
    requires |steps| == |job.work| && i <= |job.work|
    ensures var run := Loop(job, steps, env, i, m, results, events);
      run.outcome.Finished? ==>
        Count(run.events, NotifyKind) + (if job.notifier then AvailableCount(results) else 0) ==
        Count(events, NotifyKind) + (if job.notifier then AvailableCount(run.outcome.results) else 0)
    decreases |job.work| - i
  {
    if i < |job.work| && job.interrupt != Some(i) {
      var c := steps[i];
      if c.result.Some? && !(job.stateFile && job.batchSize == 0) {
        var r := c.result.value;
        var rs := results + [r];
        var evs := events + AlertPart(job, r, i) + SavePart(job, i, rs) + PacePart(|job.work|, i, c.after.lastError, env.paceClock(i));
        LoopNext(job, steps, env, i, m, results, events, rs, evs);
        LoopNotifies(job, steps, env, i + 1, c.after, rs, evs);
        IterationSplit(job, i, events, r, rs, c.after.lastError, env.paceClock(i), NotifyKind);
        AlertCount(job, r, i, NotifyKind);
        SaveCount(job, i, rs, NotifyKind);
        PaceCount(job, i, c.after.lastError, env.paceClock(i), NotifyKind);
        AvailableCountAppend(results, r);
      }
    }
  }

  /**
   * The events of a finished run: with a notifier, one alert per available new
   * result (none without); with a state file and batch size b > 0, ceil(n / b)
   * checkpoint writes (none without a state file); n - 1 pacing sleeps for n > 0
   * names, and no more penalty sleeps than pacing sleeps.
   */
  lemma FinishedEvents(job: Job, m0: Machine, env: Env)
    requires m0.rot.Valid()
    ensures var run := RunOf(job, m0, env);
      var n := |job.work|;
      run.outcome.Finished? ==>
        |run.outcome.results| >= |job.saved| &&
        Count(run.events, NotifyKind) ==
          (if job.notifier then AvailableCount(run.outcome.results[|job.saved|..]) else 0) &&
        (job.batchSize > 0 && job.stateFile ==>
          Count(run.events, SaveKind) == n / job.batchSize + (if n % job.batchSize != 0 then 1 else 0)) &&
        (!job.stateFile ==> Count(run.events, SaveKind) == 0) &&
        Count(run.events, PaceKind) == (if n > 0 then n - 1 else 0) &&
        Count(run.events, PenaltyKind) <= Count(run.events, PaceKind)
  {
    var run := RunOf(job, m0, env);
    LoopNotifies(job, CheckAll(job.work, m0, env), env, 0, m0, job.saved, []);
    LoopSaves(job, CheckAll(job.work, m0, env), env, 0, m0, job.saved, []);
    LoopPaces(job, CheckAll(job.work, m0, env), env, 0, m0, job.saved, []);
    LoopPenalties(job, CheckAll(job.work, m0, env), env, 0, m0, job.saved, []);
    if run.outcome.Finished? {
      LoopFinished(job, CheckAll(job.work, m0, env), env, 0, m0, job.saved, []);
      var rs := run.outcome.results;
      assert rs == job.saved + rs[|job.saved|..];
      AvailableCountConcat(job.saved, rs[|job.saved|..]);
      if job.batchSize > 0 && job.stateFile {
        CadenceCount(|job.work|, job.batchSize);
      }
    }
  }

  // ---- checkpoint contents ----

  /**
   * Every checkpoint a loop writes holds a prefix of what it returns (given that
   * every earlier write did), and a finished loop with names left to check writes
   * exactly its results last.
   */
  lemma {:induction false} LoopSnapshots(job: Job, steps: seq<Checked>, env: Env, i: nat, m: Machine,
      results: seq<CheckResult>, events: seq<Event>)
    requires |steps| == |job.work| && i <= |job.work|
    requires forall e :: e in events && e.Save? ==> e.snapshot <= results
    ensures var run := Loop(job, steps, env, i, m, results, events);
      (run.outcome.Finished? || run.outcome.Interrupted?) ==>
        results <= run.outcome.results &&
        (forall e :: e in run.events && e.Save? ==> e.snapshot <= run.outcome.results) &&
        (run.outcome.Finished? && job.stateFile && i < |job.work| ==>
          |run.events| > 0 && run.events[|run.events| - 1] == Save(run.outcome.results))
    decreases |job.work| - i
  {
    if i < |job.work| && job.interrupt != Some(i) {
      var c := steps[i];
      if c.result.Some? && !(job.stateFile && job.batchSize == 0) {
        var r := c.result.value;
        var rs := results + [r];
        var evs := events + AlertPart(job, r, i) + SavePart(job, i, rs) + PacePart(|job.work|, i, c.after.lastError, env.paceClock(i));
        assert forall e :: e in evs && e.Save? ==> e.snapshot <= rs;
        LoopSnapshots(job, steps, env, i + 1, c.after, rs, evs);
        var run := Loop(job, steps, env, i + 1, c.after, rs, evs);
        if run.outcome.Finished? && job.stateFile && i + 1 == |job.work| {
          assert evs[|evs| - 1] == Save(rs);
        }
      }
    }
  }

  /** The state file a finished or interrupted run leaves holds a prefix of what the
      run returns, and a finished run with names to check leaves exactly its results. */
  lemma CheckpointHoldsResults(job: Job, m0: Machine, env: Env)
    requires m0.rot.Valid()
    ensures var run := RunOf(job, m0, env);
      (run.outcome.Finished? || run.outcome.Interrupted?) ==>
        (forall e :: e in run.events && e.Save? ==> e.snapshot <= run.outcome.results) &&
        (run.outcome.Finished? && job.stateFile && |job.work| > 0 ==>
          |run.events| > 0 && run.events[|run.events| - 1] == Save(run.outcome.results))
  {
    LoopSnapshots(job, CheckAll(job.work, m0, env), env, 0, m0, job.saved, []);
  }

  // ---- resuming ----

  /** The work list is empty when every input name is done. */
  lemma {:induction false} AllDoneNothingToDo(usernames: seq<string>, done: set<string>)
    requires forall j :: 0 <= j < |usernames| ==> usernames[j] in done
    ensures WorkList(usernames, done) == []
    decreases |usernames|
  {
    if usernames != [] {
      AllDoneNothingToDo(usernames[1..], done);
    }
  }

  /** Results that extend the saved ones with one result per work-list name mark
      every non-empty input name as processed. */
  lemma ResultsCoverInput(usernames: seq<string>, saved: seq<CheckResult>, work: seq<string>, rs: seq<CheckResult>)
    requires forall j :: 0 <= j < |usernames| ==> usernames[j] != ""
    requires work == WorkList(usernames, Processed(saved))
    requires |rs| == |saved| + |work| && rs[..|saved|] == saved
    requires forall j :: 0 <= j < |work| ==> rs[|saved| + j].username == Some(work[j])
    ensures forall j :: 0 <= j < |usernames| ==> usernames[j] in Processed(rs)
  {
    forall j | 0 <= j < |usernames| ensures usernames[j] in Processed(rs) {
      var u := usernames[j];
      if u in Processed(saved) {
        var k :| 0 <= k < |saved| && saved[k].username == Some(u);
        assert rs[k] == rs[..|saved|][k];
      } else {
        assert u in work;
        var i :| 0 <= i < |work| && work[i] == u;
        assert rs[|saved| + i].username == Some(u);
      }
    }
  }

  /**
   * Resuming from what a finished run returns checks nothing again, provided no
   * input name is empty (an empty `username` is falsy and never counts as processed).
   */
  lemma ResumeChecksNothing(usernames: seq<string>, cp: Checkpoint, b: int, interrupt: Option<nat>,
                            notifier: bool, m0: Machine, env: Env)
    requires m0.rot.Valid()
    requires forall j :: 0 <= j < |usernames| ==> usernames[j] != ""
    ensures var run := RunOf(PlanJob(usernames, cp, b, interrupt, notifier), m0, env);
      run.outcome.Finished? ==> WorkList(usernames, Processed(run.outcome.results)) == []
  {
    var job := PlanJob(usernames, cp, b, interrupt, notifier);
    var r := RunOf(job, m0, env).outcome;
    FinishedReturnsLoadedThenChecked(job, m0, env);
    if r.Finished? {
      ResumeAfter(usernames, job.saved, job.work, r.results);
    }
  }

  /** Results that extend the saved ones with one result per work-list name leave
      nothing to check on the next resume (no input name being empty). */
  lemma ResumeAfter(usernames: seq<string>, saved: seq<CheckResult>, work: seq<string>, rs: seq<CheckResult>)
    requires forall j :: 0 <= j < |usernames| ==> usernames[j] != ""
    requires work == WorkList(usernames, Processed(saved))
    requires |rs| == |saved| + |work| && rs[..|saved|] == saved
    requires forall j :: 0 <= j < |work| ==> rs[|saved| + j].username == Some(work[j])
    ensures WorkList(usernames, Processed(rs)) == []
  {
    ResultsCoverInput(usernames, saved, work, rs);
    AllDoneNothingToDo(usernames, Processed(rs));
  }

  /** An empty name is re-checked on every resume, whatever the saved results. */
  lemma EmptyNameIsRechecked(saved: seq<CheckResult>)
    ensures WorkList([""], Processed(saved)) == [""]
  {
    assert "" !in Processed(saved);
  }
}
