# Fragment username checker — a Dafny model

The system checks whether Telegram usernames are free on fragment.com. For
each name it fetches the site's search page with a rotating User-Agent header
and retries on rate limits and request errors. It reads the verdict from the
status element of the page and sends a Telegram alert for a free name. Over a
list of names it keeps a resumable checkpoint file and sleeps between names.

The model covers the class `FragmentChecker` and the input assembly of `main`:

- `Rotation`: the user-agent pool of ten slots, the round-robin cursor, the
  request counter, and the refresh of one random slot on every twentieth request.
- `Classifier`: the status lookup. It finds the first element whose class
  mentions one of the three markers as a substring, then tests exact class
  membership in the order unavail, avail, taken. The "unavail" marker yields
  `available = true`.
- `Retry`: the retry loop of `check_username`, as a function of an environment
  that answers request number n.
- `Batch`: `process_usernames`. It covers the work list, the results (loaded
  first, then new ones), the alerts, the checkpoint cadence, the pacing and
  penalty sleeps, the interrupt save, and the exceptions that end a run.
- `Checker`: the class itself. Its fields are the rotator fields, the last-error
  time and whether alerts can be sent. The methods `GetNextUserAgent`,
  `CheckUsername`, `ProcessUsername` and `ProcessUsernames` are imperative and
  proved equal to the functions above.
- `Cli`: how `main` builds the name list from `-u` and `-f`, and when it exits
  instead.
- `RetryFacts` and `BatchFacts`: the lemmas about these functions.
- `Records`, `Wrappers` and `Arith`: shared types and arithmetic helpers.

How the environment is modelled:

- Randomness, the HTTP replies and the clock are oracles held in `Retry.Env`.
  - `draw(n)` gives the slot and the fresh agent for request n.
  - `respond(n)` gives reply n.
  - `clock(n)` gives the time at which reply n is handled.
  - `paceClock(i)` gives the time of the penalty test after name i.
- GETs, rate-limit waits and backoffs go to the ghost field `traffic`.
- Alerts, checkpoint writes and sleeps form a ghost event log.

Where the code differs from what one might expect, the model follows the code:

- A 429 uses up one of the three iterations. When all three get a 429,
  `check_username` returns None, and `process_usernames` then dies on
  `result["available"]` (`BatchFacts.ThreeRateLimitsCrash`). There is no
  outer handler for that.
- Duplicate input names are all checked.
- A saved result whose username is empty never counts as processed, so an
  empty name is checked again on every resume.
- With a state file and `batch_size` 0, the cadence test divides by zero. This
  happens after the first result has been appended and its alert sent.
- The interrupt writes the checkpoint only when a state file is given.

## Model

| member | source | states |
|---|---|---|
| Records.StatusNamesDistinct | fragment_checker.py:74-87 | the five status strings are pairwise distinct, so the `status` field identifies the verdict |
| Rotation.Initial | fragment_checker.py:29-31 | a new rotator holds the ten drawn agents with cursor and counter at zero |
| Rotation.NextAgent | fragment_checker.py:37-47 | one call keeps ten slots, raises the counter by one and moves the cursor one place round the pool; it returns the agent at the old cursor, read after the refresh; on a multiple of twenty the drawn slot holds the fresh agent, otherwise the pool is unchanged |
| Rotation.NextAgentChanges | fragment_checker.py:40-42 | a call changes no slot except the drawn one, and that one only on a refresh-due call |
| Rotation.Rotate | fragment_checker.py:37-47 | k calls keep the pool valid and raise the counter by k |
| Rotation.RotateCounters | fragment_checker.py:38-45 | after k calls the counter has grown by k and the cursor has moved k places modulo ten |
| Rotation.RotateChanges | fragment_checker.py:40-42 | over k calls, a slot that differs from its start was drawn on a refresh-due call |
| Rotation.RefreshSlotsCount | fragment_checker.py:40 | calls count+1 .. count+k include (count+k)/20 - count/20 refreshes |
| Rotation.OneSlotPerTwentyCalls | fragment_checker.py:38-42 | in any run of at most twenty consecutive calls, at most one slot changes |
| Rotation.FromNewRotator | fragment_checker.py:29-47 | from a new rotator, k calls make k/20 refreshes and leave the cursor at k mod 10 |
| Classifier.ContainsAt | fragment_checker.py:68-70 | the substring test used by the find holds exactly when the marker occurs at some position |
| Classifier.FirstMarked | fragment_checker.py:68-70 | the find returns the first element carrying a class that mentions a marker, or nothing when no element does |
| Classifier.FirstMarkedUnique | fragment_checker.py:68-70 | only one position can be the first marked one |
| Classifier.Decide | fragment_checker.py:79-87 | on the found element, available holds exactly when it has the unavail class; "unknown" comes exactly when it has none of the three exact classes; never "error" |
| Classifier.Classify | fragment_checker.py:72-87 | available is true exactly when the status is "unavailable", and a page never yields "error" |
| Classifier.ClassifyIff | fragment_checker.py:79-87 | each of the four verdicts holds exactly when its exact-membership condition holds on the first marked element, in priority order; "unknown" also holds when no element is marked |
| Classifier.MarkerMentionsItself | fragment_checker.py:68-70 | a class equal to a marker passes the substring filter |
| Classifier.ExactMarkerIsFound | fragment_checker.py:68-80 | an element with an exact marker class is the one found when no earlier element is marked |
| Classifier.FirstMarkedElementDecides | fragment_checker.py:68-87 | a first element whose class only contains a marker as a substring decides "unknown", even when a later element carries the unavail marker |
| Classifier.UnavailMeansAvailable | fragment_checker.py:80-82 | the unavail marker on the first marked element gives available=true with status "unavailable" |
| Retry.Sent | fragment_checker.py:52-55 | an iteration draws its agent with one rotator step and logs one GET of the query URL carrying that agent |
| Retry.Classified | fragment_checker.py:72-89 | a page result carries the checked name, the reply time and no error text; its status is the page's verdict, never "error", and available holds exactly when the status is "unavailable" |
| Retry.ErrorResult | fragment_checker.py:95-96 | the final-iteration error result carries the checked name, the time, status "error", available false and the exception text |
| Retry.Attempts | fragment_checker.py:49-100 | the retry loop keeps the rotator valid and never lowers its counter; a result carries the checked name; status "error" comes exactly with an error text; available implies "unavailable" |
| Retry.RequestsAppend | fragment_checker.py:55 | the GET count of a log is additive over concatenation |
| Retry.RequestsSingle | fragment_checker.py:55 | a single log entry counts as one GET exactly when it is a request |
| RetryFacts.AttemptsBudget | fragment_checker.py:50-55 | the loop makes at most one request per remaining iteration, and at least one whenever an iteration remains |
| RetryFacts.AttemptsCursor | fragment_checker.py:53 | the cursor ends as many places round the pool as requests were made |
| RetryFacts.OneMoreStep | fragment_checker.py:45 | one step round the pool followed by k more is k + 1 steps |
| RetryFacts.AttemptsExtendTraffic | fragment_checker.py:49-100 | the traffic log only grows; earlier entries are kept |
| RetryFacts.AttemptsLogRequests | fragment_checker.py:53-55 | the log gains one GET per rotator call |
| RetryFacts.NoResultIff | fragment_checker.py:50-62 | no result is returned exactly when no reply was a page and the last iteration got a 429 |
| RetryFacts.AllRateLimited | fragment_checker.py:57-62 | when every reply is a 429, the result is None, one request is made per iteration, and the time of the last 429 is recorded |
| RetryFacts.AllFailed | fragment_checker.py:89-100 | when every request fails, the last iteration returns "error" with that failure's text and time, and records that time |
| RetryFacts.ErrorOnlyOnLastAttempt | fragment_checker.py:92-95 | an "error" result comes only from a request error on the final iteration, after one request per iteration |
| RetryFacts.VerdictFromFirstPage | fragment_checker.py:64-87 | a non-error result is the verdict on the first page reply, with that reply's time; every earlier reply was a 429 or an error |
| Batch.Processed | fragment_checker.py:139-140 | a name counts as processed exactly when it is non-empty and some saved result carries it |
| Batch.SavedResults | fragment_checker.py:131-141 | the run starts from the loaded results when a state file is given and loaded, and from none otherwise |
| Batch.WorkList | fragment_checker.py:147 | a name is on the work list exactly when it is an input name not yet processed; the list is no longer than the input |
| Batch.PlanJob | fragment_checker.py:131-147 | the run starts from the loaded results (none without a loaded state file) and the filtered work list |
| Batch.WorkListNothingDone | fragment_checker.py:132-147 | with nothing processed, the work list is the input list itself |
| Batch.FreshStart | fragment_checker.py:131-147 | without a state file, or when loading fails, the run starts with no results and checks every input name, duplicates included, in order |
| Batch.SaveDue | fragment_checker.py:155 | the cadence test is due after the last name, and after every name when the batch size is 1 |
| Batch.PenaltyDue | fragment_checker.py:168 | the penalty is never due without a recorded error; it is due when the error is under sixty seconds old and not due once sixty seconds have passed |
| Batch.AlertPart | fragment_checker.py:117-122 | definition only: the alert of iteration i; `BatchFacts.AlertCount` states when it holds one alert |
| Batch.SavePart | fragment_checker.py:155-158 | definition only: the checkpoint write of iteration i; `BatchFacts.SaveCount` states when it holds one write |
| Batch.PacePart | fragment_checker.py:163-171 | definition only: the sleeps after iteration i; `BatchFacts.PaceCount` states how many of each kind |
| Batch.CheckAll | fragment_checker.py:151-152 | one check per work-list name, each result carrying its own name |
| Batch.CheckAllAt | fragment_checker.py:151-152 | check i starts from the checker state that check i - 1 left |
| Batch.Loop | fragment_checker.py:150-178 | a run crashes on a missing result only for a work-list name at or after the current position; it divides by zero only with a state file and batch size 0 |
| Batch.LoopNext | fragment_checker.py:152-171 | an iteration that is not interrupted, gets a result and passes the cadence test appends that result, the alert, the due checkpoint write and the sleeps, and then hands on |
| Batch.LoopStops | fragment_checker.py:150-178 | the four ways an iteration ends the run: finished, interrupted (saving with a state file), no result, and division by zero after the alert |
| Batch.RunOf | fragment_checker.py:150-180 | definition only: the loop from the first work-list name over the checks of `Batch.CheckAll`; `Batch.RunCrashes` and the `BatchFacts` lemmas state its properties |
| Batch.RunCrashes | fragment_checker.py:150-178 | a run crashes on a missing result only for a name on its work list, and on the cadence test only with a state file, batch size 0 and a name to check |
| BatchFacts.WorkListAppend | fragment_checker.py:147 | filtering distributes over concatenation, so input order is kept |
| BatchFacts.WorkListMultiplicity | fragment_checker.py:147 | each unprocessed name keeps its multiplicity, so duplicates are kept; processed names are gone |
| BatchFacts.LoopFinished | fragment_checker.py:151-153 | a finished loop returns its starting results followed by one result per remaining name, in order, and the entry for name j is exactly the result that check j produced |
| BatchFacts.AppendedAt | fragment_checker.py:153 | a sequence whose prefix is rs followed by x holds rs and then x at position |rs| |
| BatchFacts.FinishedReturnsLoadedThenChecked | fragment_checker.py:141-153 | a finished run returns the loaded results, then one result per work-list name in work-list order: entry |loaded| + j is the result that the check of name j produced, and it carries that name |
| BatchFacts.LoopInterrupted | fragment_checker.py:173-180 | an interrupted loop returns its starting results followed by the result of each check done before the interrupt, and, with a state file, writes exactly those last |
| BatchFacts.InterruptSavesProgress | fragment_checker.py:173-180 | an interrupt once k names are done returns the loaded results and then, for each j < k, the result that the check of name j produced, carrying that name; with a state file it saves exactly those last |
| BatchFacts.ThreeRateLimitsCrash | fragment_checker.py:57-62 | three 429s on the first name crash the run on the missing result before anything is recorded |
| BatchFacts.CountAppend | fragment_checker.py:150-178 | event counts are additive over concatenation |
| BatchFacts.CountSingle | fragment_checker.py:150-178 | a single event counts once, under its own kind |
| BatchFacts.AvailableCountAppend | fragment_checker.py:117 | appending a result adds one to the count of available results, the ones that trigger an alert, exactly when it is available |
| BatchFacts.AlertCount | fragment_checker.py:117-122 | an iteration sends one alert exactly when its name is available and a bot and chat are set |
| BatchFacts.SaveCount | fragment_checker.py:155-158 | an iteration writes one checkpoint exactly when a state file is given and the cadence is due |
| BatchFacts.PaceCount | fragment_checker.py:163-171 | every iteration but the last sleeps once, with a penalty sleep when the last error is under sixty seconds old |
| BatchFacts.DueBetweenMultiples | fragment_checker.py:155 | the due iterations from i on are the multiples of b passed plus the final one |
| BatchFacts.CadenceCount | fragment_checker.py:155 | n names with batch size b > 0 give ceil(n / b) checkpoint writes |
| BatchFacts.TwentyFiveNamesThreeSaves | fragment_checker.py:155 | twenty-five names with batch size ten give three writes |
| BatchFacts.IterationSplit | fragment_checker.py:152-171 | one iteration's events count as the sum of their parts |
| BatchFacts.LoopSaves | fragment_checker.py:155-158 | a finished loop writes one checkpoint per due iteration; without a state file it writes none |
| BatchFacts.LoopPaces | fragment_checker.py:163-166 | a finished loop sleeps once between each two consecutive names |
| BatchFacts.LoopPenalties | fragment_checker.py:168-171 | a loop never has more penalty sleeps than pacing sleeps |
| BatchFacts.AvailableCountConcat | fragment_checker.py:117 | the available count is additive over concatenation |
| BatchFacts.LoopNotifies | fragment_checker.py:117-122 | with a notifier, a finished loop sends one alert per available new result; without one, it sends none |
| BatchFacts.FinishedEvents | fragment_checker.py:117-171 | a finished run of n names has one alert per available new result (with a notifier), ceil(n / b) writes with a state file and b > 0, none without a state file, n - 1 pacing sleeps, and no more penalties than sleeps |
| BatchFacts.LoopSnapshots | fragment_checker.py:155-178 | every checkpoint written is a prefix of what the loop returns; a finished loop with names left writes its full results last |
| BatchFacts.CheckpointHoldsResults | fragment_checker.py:155-178 | every checkpoint a finished or interrupted run writes is a prefix of what it returns; a finished run with names to check writes exactly its results last |
| BatchFacts.AllDoneNothingToDo | fragment_checker.py:147 | when every input name is processed, the work list is empty |
| BatchFacts.ResultsCoverInput | fragment_checker.py:140-153 | the loaded results extended by one result per work-list name mark every non-empty input name as processed |
| BatchFacts.ResumeChecksNothing | fragment_checker.py:135-153 | resuming from the results of a finished run checks nothing again, provided no input name is empty |
| BatchFacts.ResumeAfter | fragment_checker.py:140-147 | the loaded results extended by one result per work-list name leave nothing to check on the next run, provided no input name is empty |
| BatchFacts.EmptyNameIsRechecked | fragment_checker.py:140-147 | an empty name is never processed, whatever was saved |
| Checker.FragmentChecker.constructor | fragment_checker.py:23-35 | a new checker holds the ten agents with counters at zero and no error time; it alerts exactly when both token and chat id are truthy |
| Checker.FragmentChecker.GetNextUserAgent | fragment_checker.py:37-47 | the fields and the returned agent follow `Rotation.NextAgent`; the error time is unchanged |
| Checker.FragmentChecker.CheckUsername | fragment_checker.py:49-100 | the loop's result and its final fields (rotator, error time, traffic) are those of `Retry.Attempts` |
| Checker.FragmentChecker.ProcessUsername | fragment_checker.py:114-126 | the check uses three attempts; one alert is sent exactly for an available result when a bot and chat are set |
| Checker.FragmentChecker.ProcessAt | fragment_checker.py:151-171 | one loop pass leaves the fields that check i gives; either the run has ended with the returned exception or it goes on as the loop from i + 1 |
| Checker.FragmentChecker.Iteration | fragment_checker.py:150-178 | one loop iteration: an interrupt as it starts ends the run with the results so far, saved with a state file; otherwise the pass over name i either ends the run or goes on as the loop from i + 1 |
| Checker.FragmentChecker.ProcessUsernames | fragment_checker.py:128-180 | the outcome, the event log and the final fields are those of `Batch.RunOf` on the planned job |
| Checker.FragmentChecker.RunJob | fragment_checker.py:150-180 | the loop over the work list: its outcome, event log and final fields are those of `Batch.Loop` from the first name over the checks of `Batch.CheckAll` |
| Cli.Lead | fragment_checker.py:215 | counts the white-space prefix |
| Cli.Trail | fragment_checker.py:215 | counts the white-space suffix |
| Cli.IsSpace | fragment_checker.py:215 | a white-space character is never a letter, a digit or an underscore |
| Cli.Strip | fragment_checker.py:215 | the stripped line is the part of the line that starts right after the leading white space |
| Cli.StripRest | fragment_checker.py:215 | only white space follows the stripped part |
| Cli.StripEnds | fragment_checker.py:215 | a line strips to the empty string exactly when it is all white space; otherwise the result starts and ends with other characters |
| Cli.StripIdempotent | fragment_checker.py:215 | stripping twice is stripping once |
| Cli.NonBlankStripped | fragment_checker.py:215 | the file's names are non-empty and already stripped, and there are no more of them than lines |
| Cli.NonBlankAppend | fragment_checker.py:215 | the kept names of two blocks of lines are those of the first block followed by those of the second |
| Cli.NonBlankLine | fragment_checker.py:215 | one line yields its stripped form when that is not empty, and nothing otherwise |
| Cli.NonBlankHead | fragment_checker.py:215 | a name is kept exactly when it is the non-empty stripped first line or is kept from the lines after it |
| Cli.NonBlankMembers | fragment_checker.py:215 | a name comes from the file exactly when it is non-empty and some line strips to it |
| Cli.Usernames | fragment_checker.py:199-223 | the exit status is 1 or 2; a name list is non-empty and starts with a truthy `-u` name |
| Cli.UsernamesExit | fragment_checker.py:199-223 | exit 2 exactly when neither `-u` nor `-f` is truthy; exit 1 exactly when the file is unreadable or, with no `-u` name, every line is blank |
| Cli.UsernamesNames | fragment_checker.py:207-216 | the `-u` name comes first, unstripped; the names after it are exactly the stripped non-blank lines of the file, in file order |

## Left out

- HTTP and HTML parsing: a reply is a page (a list of elements, each a list of class strings), a 429, or a `RequestException` with its text. Status codes from 400 to 599 count as the last kind, as `raise_for_status` raises for those only. The parser's alternative match on the space-joined class list adds nothing, because no marker contains a space.
- `Retry-After` parsing, the sleep durations (`2 ** attempt + uniform(0, 1)`, the `delay_range` draw, the `uniform(2, 5)` penalty) and `min_delay`/`max_delay`: floating-point time only, so sleeps are events with no length. A `Retry-After` header that is not an integer (a `ValueError` that escapes) is not modelled.
- `datetime.now()`: a clock oracle with one reading per reply. The source reads the clock separately for `last_error_time` and `checked_at`. The ISO-8601 rendering is not modelled.
- `fake_useragent` and `random.randint`: the `draw` oracle.
- Telegram sending (`send_telegram_message`, `close`): an alert is a `Notify` event. Send failures are swallowed by the source and change nothing the model tracks.
- JSON loading and saving: a checkpoint is given as the loaded result list, or None when the file is missing or could not be loaded. A write is a `Save` event with its snapshot. A failed write during the cadence is logged and ignored by the source. The `last_updated` stamp is not modelled.
- `KeyboardInterrupt` is modelled only as it arrives at the start of an iteration, and not in the middle of a request or a sleep.
- Logging, argparse option parsing beyond the `-u`/`-f` tests, and the summary that `main` logs after the run.
- `Cli.IsSpace` lists the characters for which Python's `str.isspace` holds. The file is given as its sequence of lines; decoding is not modelled.
- Checker.FragmentChecker.ProcessAt: the source writes the loop body inline. The model splits it into `RunJob` (the loop), `Iteration` (the interrupt test) and `ProcessAt` (the pass over one name) so each proof stays small.
- Checker.FragmentChecker.ProcessUsernames: the alerts, checkpoint writes and sleeps are returned as a ghost log, not performed.
- A negative `batch_size` follows Python's modulo in the cadence test only through Dafny's `%`. The two agree on whether `(i + 1) % b == 0`. No count lemma is proved for b < 0.
