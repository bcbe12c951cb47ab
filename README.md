# Open Telco evaluation dashboard — a Dafny model of its bookkeeping

The repository ships telecom benchmarks for the `inspect` evaluator and a small Flask dashboard
(`ui/app.py`) that launches evaluation runs and reports on them. This project models that
dashboard's bookkeeping, with the web server, the subprocesses and the threads taken away:

- resolving task names;
- building the evaluator's command line;
- applying the progress lines an evaluation prints to its job record, and keeping the job's
  200-line log tail;
- the worker's loop over output lines and its terminal transition;
- registering a run with one job per named model;
- cancelling a run;
- the aggregate status a poll reports, with the per-job duration, progress-ratio and ETA
  figures.

It also models two helpers:

- the `.env` loader and the `HF_TOKEN` guard of `src/telecom_bench/scripts/utils.py`;
- the majority-at-k metric of `src/open_telco/telelogs/utils.py`.

Layout: one module per component.

| file | module | what it holds |
|---|---|---|
| `wrappers.dfy` | `Wrappers` | `Option` and `Result` |
| `text.dfy` | `Text` | Python's `strip`/`rstrip`, `str(int)`, `split("/")[-1]` and `join` |
| `pyvalue.dfy` | `PyValue` | JSON scalars with Python truthiness, `str` and `isinstance(_, int)` |
| `tasks.dfy` | `Tasks` | task resolution |
| `command.dfy` | `Command` | the command line |
| `durations.dfy` | `Durations` | durations, ratio and ETA |
| `progress.dfy` | `Progress` | progress payloads as values and the bounded tail |
| `jobs.dfy` | `Jobs` | the job record, as class `Job` |
| `overall.dfy` | `Overall` | aggregate status |
| `registry.dfy` | `Registry` | the registry, as a class over `map<RunId, Run>` |
| `dotenv.dfy` | `DotEnv` | `.env` loading; the environment is class `Environment` |
| `majority.dfy` | `Majority` | the metric |

Objects the source mutates in place are classes with `modifies` clauses:

- the job records, which are updated under the registry lock;
- the registry;
- `os.environ`.

Each lock-guarded critical section is one method, taken as an atomic step. The worker's loop
over output lines is `Jobs.Job.Supervise` over a trace of events. A trace interleaves the output
lines with the cancel handler's requests, so every order in which lines and a request can arrive
is covered.

Inputs stand for what the model does not compute:

- the clock (`now`, `at`);
- random identifiers (`runId`, `jobIds`);
- the evaluator executable (`inspect`);
- decoded JSON (`Option<Payload>`);
- the subprocess outcome (`Ending`);
- file contents (`seq<string>`).

The code behaves in three ways a reader may not expect, and the model follows it in each:

- The cancel handler flags terminal jobs too. See Findings.
- `results.completed_samples` and `progress.completed` overwrite the completed count, so they
  can lower it (`Progress.AssignedCanDecrease`). Only the `sample` and event forms never lower it.
- The exception path of the worker marks the job `failed` even when cancellation was requested.

## Model

| member | source | states |
|---|---|---|
| Tasks.Resolve | ui/app.py:103-107 | succeeds exactly for canonical names and the three aliases; the result is always a key of the task table; a canonical name resolves to itself, an alias to its target; any other name fails with `Unsupported task: <name>` |
| Tasks.ResolveIdempotent | ui/app.py:103-107 | resolving a resolved name gives the same result |
| Tasks.ResolveValue | ui/app.py:103-107 | the value under a request's `task` key resolves exactly when it is a canonical name or an alias, as a string, and then to a key of the task table; every other value, `null`, a number or a boolean included, fails with `Unsupported task: ` followed by its `str` |
| Tasks.AliasTargets | ui/app.py:24-28 | `telecom_bench`, `teleqna_bench` and `telelogs_bench` resolve to `telemath`, `teleqna` and `telelogs` |
| PyValue.AsInt | ui/app.py:198-205 | `isinstance(v, int)` holds for ints and for booleans, which are Python ints; an int reads as itself |
| PyValue.Truthy | ui/app.py:249-263 | Python truthiness of a JSON scalar, the test behind `if limit:` and its siblings: `None`, `False`, `0`, `0.0` and `""` are false, everything else true (a definition; `Command.OptionalArgsMeaning` states its use) |
| PyValue.Render | ui/app.py:253-267 | `str` of an int reads back as that int; `str` of a string is the string |
| Text.RStrip | ui/app.py:218 | the result is a prefix of the input and does not end in whitespace |
| Text.RStripMeaning | ui/app.py:218 | the result is the longest prefix not ending in whitespace, everything cut off being whitespace |
| Text.LStripMeaning | src/telecom_bench/scripts/utils.py:18 | the result is the longest suffix not starting with whitespace, everything cut off being whitespace |
| Text.Strip | src/telecom_bench/scripts/utils.py:18 | never longer than the input, and neither end of the result is whitespace |
| Text.StripMeaning | src/telecom_bench/scripts/utils.py:18 | the result has no whitespace at either end and is the slice of the input between its leading and its trailing whitespace |
| Text.StripChars | src/telecom_bench/scripts/utils.py:18 | every character of the result comes from the input |
| Text.LastSegment | ui/app.py:403 | the result holds no `/`, is a suffix of the input, and is either all of it or preceded by `/` |
| Command.BaseArgs | ui/app.py:231-244 | the fixed prefix of every command has 13 entries |
| Command.Build | ui/app.py:228-267 | fails exactly when task resolution fails, with its message; on success the command starts with the fixed prefix for the resolved task's file and model |
| Command.OptionalArgs | ui/app.py:249-267 | the optional tail is flag-value pairs, at most five of them |
| Command.OptionalArgsMeaning | ui/app.py:249-267 | the tail carries exactly the flags whose conditions hold, in the order difficulty, limit, max-connections, max-tokens, temperature, each followed by its value: difficulty only when truthy, for `telemath`, and not `full`; limit, connections and tokens only when truthy; temperature unless `None` or `""` |
| Command.BuildMeaning | ui/app.py:228-267 | a successful command read back: the prefix, then flag-value pairs, exactly the expected flags in the fixed order, each with its expected value |
| Command.ZeroTemperatureExample | ui/app.py:253-267 | a zero temperature is passed, a zero limit and the `full` difficulty are not; the whole command for one concrete request |
| Durations.WholeSeconds | ui/app.py:76 | negative inputs give 0; otherwise the integer part |
| Durations.DurationParts | ui/app.py:77-89 | read back, the parts give the input below two hours, and the input without its seconds from two hours on |
| Durations.DurationPartsShape | ui/app.py:77-89 | hours and minutes appear only when non-zero, in that order, and minutes and seconds stay under 60; the seconds appear alone exactly under a minute; every part is non-zero except a lone `0s` |
| Durations.FormatDuration | ui/app.py:73-89 | `None` exactly for `None`; otherwise a non-empty string |
| Durations.FormatUnderAMinute | ui/app.py:84-86 | under a minute the text is exactly the whole seconds followed by `s` |
| Durations.FormatOneHourFiveSeconds | ui/app.py:87-89 | 3605 seconds render as `1h 5s` |
| Durations.FormatTwoHoursDropsSeconds | ui/app.py:87-89 | 7265 seconds render as `2h 1m` |
| Durations.FormatNegative | ui/app.py:76 | a negative duration renders as `0s` |
| Durations.ProgressRatio | ui/app.py:92-100 | `None` exactly when the total is missing or 0; otherwise in [0, 1], and the exact ratio when the count lies between 0 and the total |
| Durations.EstimateRemaining | ui/app.py:110-131 | defined exactly when the count is non-zero, the total is set and non-zero, the start is set and time has elapsed; 0 when nothing remains; otherwise the estimate times the completed count equals the remaining count times the elapsed time |
| Durations.EstimateExamples | ui/app.py:110-131 | 5 of 20 samples in 50 seconds leave 150 seconds; no completed samples leave no estimate |
| Progress.MaxOf | ui/app.py:197-211 | taking each offered count only when larger yields a value at least the start and every offer, and equal to one of them |
| Progress.Completed | ui/app.py:173-211 | the completed count after a payload is never below the count it assigns (the current one when it assigns none), and is either that count or one of the counts it offers |
| Progress.LastPresentNone | ui/app.py:176-196 | with no total present the current one is kept |
| Progress.LastPresentAt | ui/app.py:176-196 | a present total that no later present total follows is the one kept |
| Progress.Total | ui/app.py:174-196 | a total the payload changes is present afterwards, so `null` never clears it; a payload without `results`, `progress` and `sample` leaves it unchanged |
| Progress.TotalMeaning | ui/app.py:174-196 | `sample.total` wins over `progress.total`, which wins over `results.total_samples`; with none, the total is unchanged |
| Progress.CompletedMonotone | ui/app.py:192-211 | a payload that assigns no count can only raise the completed count |
| Progress.AssignedCanDecrease | ui/app.py:179-181 | `results.completed_samples` of 3 brings a count of 10 down to 3 |
| Progress.BoolIndexCounts | ui/app.py:201-205 | a boolean `true` index counts as 1 and offers 2 |
| Progress.Keep | ui/app.py:59 | at most 200 entries are kept, and a short list is kept whole |
| Progress.Push | ui/app.py:218 | appending to a tail under capacity adds the line; appending to a full tail evicts the oldest line |
| Progress.Step | ui/app.py:214-225 | one progress line keeps the tail within capacity |
| Progress.NonObjectLineKeepsCounts | ui/app.py:219-224 | a line that is not a JSON object changes neither count and only appends its right-stripped text |
| Progress.PushAllKeepsLatest | ui/app.py:217-218 | after any appends the tail holds exactly the last 200 entries of everything seen |
| Progress.StepAllTail | ui/app.py:214-218 | after any sequence of lines the tail holds the last 200 of them, right-stripped |
| Progress.StepAllConcat | ui/app.py:214-225 | processing lines in two parts is processing them together |
| Progress.CompletedNonDecreasing | ui/app.py:192-211 | lines without assignments never lower the completed count across any prefix of a trace |
| Progress.IndexLinesComplete | ui/app.py:201-205 | zero-based indices reported in order raise the count to the number of samples and leave the total alone |
| Jobs.TerminalStatus | ui/app.py:357-368 | always terminal; `cancelled` exactly when cancellation was requested; `complete` exactly when not and the code is 0; `failed` exactly when not and the code is non-zero |
| Jobs.ExitMessageInjective | ui/app.py:363-368 | the failure message determines the exit code |
| Jobs.Handled | ui/app.py:314-324 | the loop never hands on more lines than the trace holds |
| Jobs.CancelReached | ui/app.py:314-324 | a cancellation takes effect in the loop only when the trace holds a cancellation request |
| Jobs.FirstCancel | ui/app.py:314-324 | the position of the first cancellation request, or the length when there is none |
| Jobs.HandledBeforeFirstCancel | ui/app.py:314-324 | the worker handles exactly the output lines before the first cancellation request, and none once the flag is already raised |
| Jobs.Job.constructor | ui/app.py:405-420 | a fresh job: queued, nothing completed, no total, no error, no timestamps, no process, not cancelled, no exit code, empty tail |
| Jobs.Job.Start | ui/app.py:283-284 | the job is running from `now`; nothing else changes |
| Jobs.Job.AttachProcess | ui/app.py:304-308 | the job holds a process; nothing else changes |
| Jobs.Job.ApplyResults | ui/app.py:173-211 | the new count and total are `Completed` and `Total` of the old ones; nothing else changes |
| Jobs.Job.HandleProgress | ui/app.py:214-225 | counts, tail and last update become `Step` of the old ones, and the tail stays within 200; status, error, timestamps and flags are unchanged |
| Jobs.Job.RequestCancel | ui/app.py:528-530 | flag raised and status `cancelling`; nothing else changes |
| Jobs.Job.Supervise | ui/app.py:314-324 | the counts and tail are those of the handled lines; the flag is raised and the status is `cancelling` exactly when a request arrives before the loop stops; nothing else changes |
| Jobs.Job.Finish | ui/app.py:346-368 | status per `TerminalStatus`; the failure message `Exited with code N` only on failure; process cleared; exit code and finish time set |
| Jobs.Job.FailWith | ui/app.py:329-344 | status `failed` with the exception's message, process cleared, finish time set, exit code untouched |
| Jobs.Job.Work | ui/app.py:273-368 | a whole worker always ends terminal with both timestamps set and no process; on exit the status follows the flag and the code; on an exception it is `failed` with that message and no exit code; no line is handled after a cancellation request |
| Jobs.AssignFromResults | ui/app.py:174-190 | `progress` overwrites what `results` assigns, for both the count and the total; a field that is absent assigns nothing |
| Jobs.OfferFromSample | ui/app.py:192-205 | `sample.total` assigns the total; `sample.completed` and then `sample.index + 1` raise the count, each only when larger |
| Jobs.OfferFromEvent | ui/app.py:207-211 | beside a completion event, the top-level `completed` raises the count when larger; otherwise nothing changes |
| Jobs.CompletedInStages | ui/app.py:173-211 | the assigned count raised first by the sample offers and then by the event offer is the closed form `Completed` |
| Jobs.TotalInStages | ui/app.py:173-196 | the last stage that carries a total decides it: `sample` over `progress` over `results`, else the current total |
| Jobs.MaxOfConcat | ui/app.py:192-211 | offering two lists of counts one after the other is offering them together |
| Overall.Count | ui/app.py:478-483 | a bucket never has more jobs than the run |
| Overall.TallyOf | ui/app.py:478-479 | the total is the number of jobs |
| Overall.CountTerminal | ui/app.py:494 | the three terminal buckets cover every job exactly when all jobs are terminal |
| Overall.OverallStatus | ui/app.py:489-499 | the chain yields `empty` exactly when the tally counts no jobs |
| Overall.OverallOf | ui/app.py:476-499 | the status of a run is `empty` exactly when it has no jobs |
| Overall.OverallMeaning | ui/app.py:489-499 | `empty` iff no jobs; `queued`, `complete` or `cancelled` iff every job has that status; `failed` iff some job failed and all are terminal; `running` iff some job is unfinished and not all are queued, or all are terminal with none failed and both complete and cancelled jobs present |
| Overall.OverallExamples | ui/app.py:489-499 | {complete, failed} is `failed`, {complete, cancelled} is `running`, a lone `cancelling` job is `running`, all cancelled is `cancelled` |
| Overall.CancelStatusesAsWritten | ui/app.py:528-530 | as written, every job shows `cancelling` after a cancel |
| Overall.CancelStatuses | ui/app.py:528-530 | as intended, terminal jobs keep their status and the others show `cancelling` |
| Overall.CancelFinishedRunAsWritten | ui/app.py:528-530 | as written, cancelling any non-empty run, even a finished one, makes it report `running` |
| Overall.CancelKeepsFinishedRun | ui/app.py:528-530 | as intended, cancelling a finished run changes no status, and a run with an unfinished job reports `running` |
| Registry.Validate | ui/app.py:372-377 | succeeds exactly when the value under the `task` key (`telemath` only when the key is missing) resolves and the model list is non-empty; the task error, naming the value's `str`, wins; the empty list fails with `At least one model must be provided` |
| Registry.ValidateExamples | ui/app.py:372-373 | a missing `task` key gives `telemath` and an alias its target; a `null` task fails with `Unsupported task: None`, a task of `5` with `Unsupported task: 5` |
| Registry.DisplayName | ui/app.py:403 | a non-empty label wins; otherwise the last `/` segment of the model name |
| Registry.AcceptedUpTo | ui/app.py:398-401 | the named entries among the first `n`, in increasing order |
| Registry.Accepted | ui/app.py:398-401 | only named entries get a job, in request order |
| Registry.AcceptedComplete | ui/app.py:399-401 | every named entry gets a job |
| Registry.Statuses | ui/app.py:476-483 | the statuses of a run's jobs, position by position |
| Registry.BuiltStep | ui/app.py:398-434 | adding a fresh job and its command for the next named entry keeps the registration invariant |
| Registry.Registry.constructor | ui/app.py:57 | the registry starts empty |
| Registry.Registry.Register | ui/app.py:371-436 | fails exactly as validation does, leaving the registry unchanged; on success the run is stored under its id with the resolved task, time and options, and job `k` is a fresh queued record for the `k`-th named entry, with that entry's id, model, display name and provider; its command is the one built for that model; job ids are distinct |
| Registry.Registry.MakeJobs | ui/app.py:398-434 | the loop builds one fresh job and one command per named entry, in order |
| Registry.Registry.AddEntry | ui/app.py:398-434 | an unnamed entry adds nothing; a named one adds its job and command |
| Registry.Registry.NewJob | ui/app.py:402-427 | the fresh record and the command for one named entry |
| Registry.Registry.CancelAsWritten | ui/app.py:523-530 | an unknown run is reported; otherwise every job, terminal or not, is flagged and `cancelling`, and nothing else on any job changes |
| Registry.Registry.Cancel | ui/app.py:523-530 | corrected: an unknown run is reported; unfinished jobs are flagged and `cancelling`, terminal jobs are left as they are, and nothing else changes |
| Registry.Registry.Poll | ui/app.py:472-499 | `None` exactly for an unknown run; otherwise the aggregate status of the job statuses: `empty` iff the run has no jobs, `complete` iff all are complete |
| DotEnv.ParseLineMeaning | src/telecom_bench/scripts/utils.py:18-19 | a line is ignored exactly when it strips to nothing, starts with `#` or holds no `=` |
| DotEnv.ParseLineSplit | src/telecom_bench/scripts/utils.py:18-20 | a stripped line `p=q` with no `=` in `p` gives the stripped `p` and `q`, so the split is at the first `=` and later `=` stay in the value |
| DotEnv.ParseLine | src/telecom_bench/scripts/utils.py:18-20 | a parsed key never holds `=` |
| DotEnv.ParseCleanLine | src/telecom_bench/scripts/utils.py:18-21 | `key=value` with clean halves reads back as that pair, whatever `=` or quotes the value holds |
| DotEnv.Load | src/telecom_bench/scripts/utils.py:17-21 | loading never sets the empty name |
| DotEnv.LoadKeepsExisting | src/telecom_bench/scripts/utils.py:21 | loading never changes a variable already set, and it succeeds exactly when the empty name is already set or no line has an empty key |
| DotEnv.LoadFirstWins | src/telecom_bench/scripts/utils.py:17-21 | after a successful load an unset variable is set exactly when some line names it, to the value of the first such line |
| DotEnv.FirstExisting | src/telecom_bench/scripts/utils.py:9-15 | nothing exactly when no candidate exists; otherwise the first that does |
| DotEnv.RequireToken | src/telecom_bench/scripts/utils.py:30-36 | fails exactly when `HF_TOKEN` is unset or empty, with a message naming the dataset; otherwise yields the token |
| DotEnv.Environment.constructor | src/telecom_bench/scripts/utils.py:21 | the environment starts as given |
| DotEnv.Environment.LoadLines | src/telecom_bench/scripts/utils.py:17-21 | the new environment and outcome are those of `Load` on the old environment |
| DotEnv.Environment.LoadEnv | src/telecom_bench/scripts/utils.py:7-22 | with no existing candidate nothing changes; otherwise only the first existing file is loaded |
| Majority.Answers | src/open_telco/telelogs/utils.py:20 | the voting answers are exactly the truthy answers of the group; empty exactly when nobody votes |
| Majority.Count | src/open_telco/telelogs/utils.py:24 | positive exactly for answers that occur |
| Majority.Scan | src/open_telco/telelogs/utils.py:24 | scanning from a leader of a prefix ends with a leader of all answers: a highest count, first seen among ties |
| Majority.LeadsReplaced | src/open_telco/telelogs/utils.py:24 | an answer with a strictly higher count than the leader so far is new and takes the lead |
| Majority.LeadsKept | src/open_telco/telelogs/utils.py:24 | an answer with no higher count leaves the leader in place |
| Majority.MajorityOf | src/open_telco/telelogs/utils.py:24 | the result is an answer with the highest count, and the first seen among those |
| Majority.MajorityExamples | src/open_telco/telelogs/utils.py:24 | a tie between `b` and `a` goes to `b`, seen first; a strict majority wins wherever it first appears |
| Majority.Ids | src/open_telco/telelogs/utils.py:14-16 | the group keys are distinct and cover every score's sample id |
| Majority.IdsFromScores | src/open_telco/telelogs/utils.py:14-16 | every group key is some score's sample id |
| Majority.GroupOfAbsent | src/open_telco/telelogs/utils.py:14-16 | a sample without scores has an empty group |
| Majority.GroupScores | src/open_telco/telelogs/utils.py:14-16 | the first loop yields the sample ids in order of first appearance, and each id's list is exactly its scores in input order |
| Majority.GroupStep | src/open_telco/telelogs/utils.py:15-16 | appending one score to its sample's list keeps the grouping exact for the longer prefix |
| Majority.GroupsPartition | src/open_telco/telelogs/utils.py:14-16 | the groups together hold every score exactly once |
| Majority.ScoreGroup | src/open_telco/telelogs/utils.py:20-27 | a group adds one exactly when it has a voting answer and a score of value 1 carries the majority answer |
| Majority.GroupCorrect | src/open_telco/telelogs/utils.py:20-27 | whether a group adds one: it has a voting answer and some score of value 1 carries the majority answer (a definition; `Majority.ScoreGroup` ties it to the loop) |
| Majority.CountCorrect | src/open_telco/telelogs/utils.py:18-27 | the second loop counts exactly the correct groups among the sample ids |
| Majority.CorrectAmong | src/open_telco/telelogs/utils.py:18-27 | each group adds at most one |
| Majority.MajAtK | src/open_telco/telelogs/utils.py:10-29 | the denominator is the number of distinct sample ids, zero exactly for no scores; the numerator counts the groups with a voting answer where some score of value 1 carries the majority answer; 0 <= correct <= groups |
| Majority.MajValue | src/open_telco/telelogs/utils.py:11-12 | 0 for no groups; otherwise correct divided by groups, in [0, 1] |

## Left out

- HTTP routes, JSON responses and status codes are left out: they are transport. This covers the
  legacy `/run` and `/stream` endpoints, the log listing and `create_run`'s error reply.
- Creating and running processes is left out: `Popen`, `wait`, `poll`, `terminate` and `kill`.
  The subprocess outcome is an input (`Jobs.Ending`). The cancel handler's process termination
  is therefore absent.
- Threads and `REGISTRY_LOCK` are left out. Each critical section is an atomic method; the worker
  thread is the command list `Register` returns. The job's `thread` field is not modelled.
- The probing for the `inspect` executable at import time is process I/O. The executable is a
  parameter.
- The clock (`_now`), `_iso_timestamp` and `_snapshot_job`'s rounding of the percentage are left
  out. The `updated_at` maximum of a status reply is left out too. Times are `real` inputs.
- `json.loads` is a library call. A line's decoded payload arrives with it as `Option<Payload>`.
  `None` stands for a line that is not JSON or not an object.
- Progress.Completed: counts and totals are integers or absent. The source stores any
  non-`null` value of `results.completed_samples`, `progress.completed` and the three total
  fields unchecked, and that is not modelled. A stored completed count that is a string, list or
  object makes the worker's next `>` test raise (ui/app.py:199, 204, 210). That happens inside
  the worker's `try` (ui/app.py:275-329), so the job ends `failed` with the exception's text. A
  total is never compared or read by the worker (ui/app.py:176-196). A truthy total that is not
  a number, or a count that is not a number once a total is set, first fails in the status poll:
  `completed / total` (ui/app.py:95) raises in `_snapshot_job` (ui/app.py:137), called from
  `run_status` (ui/app.py:477), so each later poll of that run fails while the job runs on. A
  float or a boolean count compares as a number, and a float or boolean total divides as one;
  neither is modelled. An event name that is not a string, or one that is unhashable, is not
  modelled.
- Registry.Registry.Register: stores the run once, after all its jobs are made. The source stores
  the empty run first and adds jobs one by one. The intermediate states are visible only to a
  concurrent poll.
- The worker's `if not run` and `if not job` branches and `_register_run`'s
  `retrieved_run is None` branch are left out. Nothing ever removes a run or a job, so they cannot
  be taken. `cancel_run`'s `if not run` branch is different: an unknown run id takes it, and it is
  modelled as `Cancel`'s `found == false`.
- Logging is left out: the `[DEBUG]` prints of `_build_command` (ui/app.py:246-247, 269), the
  `[ERROR]` prints of the worker and its dump of the log tail on a non-zero exit
  (ui/app.py:362-367). They write to standard output and change no state.
- Random identifiers (`uuid4().hex`) are inputs, required pairwise distinct.
- The benchmark task definitions, the other `load_env` wrapper and the evaluation-set script are
  left out: they are declarative configuration of the evaluator.
- Registry.Registry.Register: a model entry is an object whose `model`, `label` and `provider`
  are strings or absent. Four paths of `_register_run` fall outside that and are not modelled.
  - An entry that is not an object (`"models": ["gpt-4o"]`) raises `AttributeError` at
    `model_info.get` (ui/app.py:399).
  - A truthy model that is not a string and has no label (`{"model": 5}`) raises at
    `model_name.split` (ui/app.py:403).
  - A truthy model that is not a string but has a truthy label (`{"model": 5, "label": "x"}`)
    gets its job stored in the run (ui/app.py:425). `_build_command` then puts the model into the
    command, and `' '.join(cmd)` raises `TypeError` (ui/app.py:269) before the worker is created
    (ui/app.py:427-433). The job stays `queued` for ever with no worker, so the run's status
    never becomes terminal.
  - A falsy model that is not a string (`0`, `false`, `[]`) is skipped like a missing one, and a
    truthy label that is not a string becomes the display name as it is.

  The three raising paths raise after the run was stored (ui/app.py:396), and `create_run`
  catches only `ValueError` (ui/app.py:442-445). So the request fails while the run stays
  registered with the jobs of the earlier entries, whose workers were started.
- Tasks.ResolveValue: a list or an object under `task` makes the alias lookup raise `TypeError`
  (unhashable), which `create_run` does not catch. Request values are scalars here, so that is
  not modelled.
- DotEnv.Environment.LoadEnv: the candidates are a list of possibly missing files in order. The
  source passes the two fixed paths `parents[1]/.env` and `parents[2]/.env`.
- DotEnv.Load: `os.environ` also raises on a name or a value holding a NUL character, and that
  case is not modelled: such a line is set like any other. An empty key is modelled as
  `setdefault` treats it: when the empty name is already set the line changes nothing, and
  otherwise assigning it raises, which ends loading.
- Majority.MajAtK: returns the pair (correct, groups) instead of the float. `Majority.MajValue`
  relates the two. Sample ids are integers or strings, so Python's equal hashing of `1`, `True`
  and `1.0` as dictionary keys does not arise.
- A score's value is a JSON scalar or `null`. Lists and dictionaries as score values are not
  modelled.

## Findings

| source | as written | input that shows it | evidently intended | confidence | as-written member | corrected member |
|---|---|---|---|---|---|---|
| ui/app.py:528-530 | `cancel_run` raises the flag and sets `cancelling` on every job of the run, finished ones included; no worker is left to give a finished job a terminal status again | cancel a run whose jobs have all completed: every job stays `cancelling` and the run reports `running` for ever after | only jobs that have not finished are cancelled, and a finished run keeps its status | medium, not executed | Registry.Registry.CancelAsWritten, Overall.CancelFinishedRunAsWritten | Registry.Registry.Cancel, Overall.CancelKeepsFinishedRun |
