/** The run registry of ui/app.py: registration of a run with one job per named model, the cancel
    handler, and the status poll. Run and job identifiers (random hex in the source) and the clock
    are inputs; the worker threads a registration starts are the commands it returns. */
module Registry {
  import opened Wrappers
  import Tasks
  import Command
  import Jobs
  import Overall
  import Text
  import PyValue

  /** One entry of the request's model list. */
  datatype ModelRequest = ModelRequest(model: Option<string>, displayLabel: Option<string>, provider: Option<string>)

  /** A run-creation request. `task` is the value under the request's `task` key, `None` when the
      key is missing; a JSON `null` there is present, as `PyValue.Null`. */
  datatype RunRequest = RunRequest(task: Option<PyValue.Value>, models: seq<ModelRequest>, options: Command.Options)

  datatype Run = Run(runId: string, task: string, createdAt: real, options: Command.Options, jobs: seq<Jobs.Job>)

  const DefaultTask := "telemath"
  const NoModels := "At least one model must be provided"

  /** `payload.get("task", "telemath")`: the default stands in only for a missing key. */
  function RequestedTask(req: RunRequest): PyValue.Value {
    req.task.GetOr(PyValue.Str(DefaultTask))
  }

  /** The checks `_register_run` makes before it registers anything: the task must resolve (that
      error wins when both checks fail), then the model list must be non-empty. */
  function Validate(req: RunRequest): (r: Result<string, string>)
    ensures r.Success? <==> Tasks.ResolveValue(RequestedTask(req)).Success? && |req.models| > 0
    ensures r.Success? ==> r.value == Tasks.ResolveValue(RequestedTask(req)).value && r.value in Tasks.TaskFiles
    ensures Tasks.ResolveValue(RequestedTask(req)).Failure? ==>
      r == Failure(Tasks.UnsupportedTask(PyValue.Render(RequestedTask(req))))
    ensures Tasks.ResolveValue(RequestedTask(req)).Success? && |req.models| == 0 ==> r == Failure(NoModels)
  {
    var resolved := Tasks.ResolveValue(RequestedTask(req));
    if resolved.Failure? then Failure(resolved.error)
    else if |req.models| == 0 then Failure(NoModels)
    else Success(resolved.value)
  }

  /** Only a missing `task` key falls back to `telemath`: a JSON `null` or a number under the key is
      rendered into the error, and an alias resolves to its canonical task. */
  lemma ValidateExamples(models: seq<ModelRequest>, o: Command.Options)
    requires |models| > 0
    ensures Validate(RunRequest(None, models, o)) == Success("telemath")
    ensures Validate(RunRequest(Some(PyValue.Str("teleqna_bench")), models, o)) == Success("teleqna")
    ensures Validate(RunRequest(Some(PyValue.Null), models, o)) == Failure("Unsupported task: None")
    ensures Validate(RunRequest(Some(PyValue.Int(5)), models, o)) == Failure("Unsupported task: 5")
  {
    assert Tasks.UnsupportedTask("None") == "Unsupported task: None";
    assert Text.IntToString(5) == "5";
    assert Tasks.UnsupportedTask("5") == "Unsupported task: 5";
  }

  /** A model entry without a (non-empty) model name is skipped. */
  predicate Named(m: ModelRequest) {
    m.model.Some? && m.model.value != ""
  }

  /** A non-empty label, or else the last `/`-separated segment of the model name. */
  function DisplayName(m: ModelRequest): (r: string)
    requires Named(m)
    ensures m.displayLabel.Some? && m.displayLabel.value != "" ==> r == m.displayLabel.value
    ensures !(m.displayLabel.Some? && m.displayLabel.value != "") ==>
      && '/' !in r && |r| <= |m.model.value| && m.model.value[|m.model.value| - |r|..] == r
      && (r == m.model.value || m.model.value[|m.model.value| - |r| - 1] == '/')
  {
    if m.displayLabel.Some? && m.displayLabel.value != "" then m.displayLabel.value else Text.LastSegment(m.model.value)
  }

  /** The positions below `n` of the named entries, in order. */
  function AcceptedUpTo(models: seq<ModelRequest>, n: nat): (r: seq<nat>)
    requires n <= |models|
    ensures |r| <= n
    ensures forall k :: 0 <= k < |r| ==> r[k] < n && Named(models[r[k]])
    ensures forall k, l :: 0 <= k < l < |r| ==> r[k] < r[l]
  {
    if n == 0 then [] else AcceptedUpTo(models, n - 1) + (if Named(models[n - 1]) then [n - 1] else [])
  }

  /** The positions of the named entries, in order: one job is created for each. */
  function Accepted(models: seq<ModelRequest>): (r: seq<nat>)
    ensures forall k :: 0 <= k < |r| ==> r[k] < |models| && Named(models[r[k]])
    ensures forall k, l :: 0 <= k < l < |r| ==> r[k] < r[l]
  {
    AcceptedUpTo(models, |models|)
  }

  /** No named entry is skipped: every one of them gets a job. */
  lemma {:induction false} AcceptedComplete(models: seq<ModelRequest>, n: nat, i: nat)
    requires i < n <= |models| && Named(models[i])
    ensures i in AcceptedUpTo(models, n)
  {
    if i < n - 1 {
      AcceptedComplete(models, n - 1, i);
    }
  }

  /** `job` is the fresh record registration makes for entry `m` under identifier `id`. */
  ghost predicate JobFor(job: Jobs.Job, m: ModelRequest, id: string)
    reads job
  {
    && Named(m) && job.jobId == id && job.model == m.model.value && job.displayName == DisplayName(m)
    && job.provider == m.provider && job.IsNew() && job.Valid()
  }

  /** The statuses of a run's jobs, in registration order. */
  function Statuses(jobs: seq<Jobs.Job>): (r: seq<Jobs.Status>)
    reads jobs
    ensures |r| == |jobs| && forall i :: 0 <= i < |jobs| ==> r[i] == jobs[i].status
  {
    if jobs == [] then [] else [jobs[0].status] + Statuses(jobs[1..])
  }

  /** Job `job` and command line `command` are what registration makes for entry `m` under
      identifier `id`. */
  ghost predicate Entry(job: Jobs.Job, command: seq<string>, m: ModelRequest, id: string,
                        task: string, options: Command.Options, inspect: string)
    reads job
  {
    && JobFor(job, m, id)
    && Command.Build(inspect, task, m.model.value, options) == Success(command)
  }

  /** Job `k` and command `k` are what registration makes for entry `idx[k]` under that entry's
      identifier. */
  ghost predicate Entries(jobs: seq<Jobs.Job>, commands: seq<seq<string>>, idx: seq<nat>, req: RunRequest,
                          jobIds: seq<string>, task: string, inspect: string)
    reads jobs
  {
    && |jobs| == |idx| == |commands|
    && forall k :: 0 <= k < |idx| ==>
         && idx[k] < |req.models| && idx[k] < |jobIds|
         && Entry(jobs[k], commands[k], req.models[idx[k]], jobIds[idx[k]], task, req.options, inspect)
  }

  ghost predicate DistinctIds(jobs: seq<Jobs.Job>)
    reads jobs
  {
    forall k, l :: 0 <= k < l < |jobs| ==> jobs[k].jobId != jobs[l].jobId
  }

  /** The jobs and commands registration has made from the first `n` entries: one fresh record and
      one command line for each named entry, in order (`AcceptedUpTo`), with pairwise distinct job
      identifiers. */
  ghost predicate Built(jobs: seq<Jobs.Job>, commands: seq<seq<string>>, n: nat, req: RunRequest,
                        jobIds: seq<string>, task: string, inspect: string)
    requires n <= |req.models|
    reads jobs
  {
    Entries(jobs, commands, AcceptedUpTo(req.models, n), req, jobIds, task, inspect) && DistinctIds(jobs)
  }

  /** Before the loop, nothing has been built. */
  lemma BuiltEmpty(req: RunRequest, jobIds: seq<string>, task: string, inspect: string)
    ensures Built([], [], 0, req, jobIds, task, inspect)
  {
    assert AcceptedUpTo(req.models, 0) == [];
  }

  /** Adding the job and command for the next named entry keeps the registration invariant. */
  lemma BuiltStep(jobs: seq<Jobs.Job>, commands: seq<seq<string>>, req: RunRequest,
                  jobIds: seq<string>, task: string, inspect: string, job: Jobs.Job, command: seq<string>, i: nat)
    requires i < |req.models| == |jobIds| && Named(req.models[i])
    requires forall a, b :: 0 <= a < b < |jobIds| ==> jobIds[a] != jobIds[b]
    requires Built(jobs, commands, i, req, jobIds, task, inspect)
    requires Entry(job, command, req.models[i], jobIds[i], task, req.options, inspect)
    ensures Built(jobs + [job], commands + [command], i + 1, req, jobIds, task, inspect)
  {
    var idx := AcceptedUpTo(req.models, i);
    assert AcceptedUpTo(req.models, i + 1) == idx + [i];
    EntriesSnoc(jobs, commands, idx, req, jobIds, task, inspect, job, command, i);
    DistinctSnoc(jobs, commands, idx, req, jobIds, task, inspect, job, i);
  }

  lemma EntriesSnoc(jobs: seq<Jobs.Job>, commands: seq<seq<string>>, idx: seq<nat>, req: RunRequest,
                    jobIds: seq<string>, task: string, inspect: string, job: Jobs.Job, command: seq<string>, i: nat)
    requires i < |req.models| == |jobIds|
    requires Entries(jobs, commands, idx, req, jobIds, task, inspect)
    requires Entry(job, command, req.models[i], jobIds[i], task, req.options, inspect)
    ensures Entries(jobs + [job], commands + [command], idx + [i], req, jobIds, task, inspect)
  {
    var jobs', commands', idx' := jobs + [job], commands + [command], idx + [i];
    forall k | 0 <= k < |idx'|
      ensures idx'[k] < |req.models| && idx'[k] < |jobIds|
      ensures Entry(jobs'[k], commands'[k], req.models[idx'[k]], jobIds[idx'[k]], task, req.options, inspect)
    {
      if k < |idx| {
        assert jobs'[k] == jobs[k] && commands'[k] == commands[k] && idx'[k] == idx[k];
      }
    }
  }

  lemma DistinctSnoc(jobs: seq<Jobs.Job>, commands: seq<seq<string>>, idx: seq<nat>, req: RunRequest,
                     jobIds: seq<string>, task: string, inspect: string, job: Jobs.Job, i: nat)
    requires i < |req.models| == |jobIds|
    requires forall a, b :: 0 <= a < b < |jobIds| ==> jobIds[a] != jobIds[b]
    requires Entries(jobs, commands, idx, req, jobIds, task, inspect) && DistinctIds(jobs)
    requires forall k :: 0 <= k < |idx| ==> idx[k] < i
    requires job.jobId == jobIds[i]
    ensures DistinctIds(jobs + [job])
  {
    var jobs' := jobs + [job];
    forall k, l | 0 <= k < l < |jobs'|
      ensures jobs'[k].jobId != jobs'[l].jobId
    {
      if l == |jobs| {
        assert Entry(jobs[k], commands[k], req.models[idx[k]], jobIds[idx[k]], task, req.options, inspect);
        assert jobs'[k] == jobs[k] && jobs[k].jobId == jobIds[idx[k]] && idx[k] < i;
      } else {
        assert jobs'[k] == jobs[k] && jobs'[l] == jobs[l];
      }
    }
  }

  class Registry {
    var runs: map<string, Run>

    constructor ()
      ensures runs == map[]
    {
      runs := map[];
    }

    /** The jobs of run `runId`, or none for an unknown run. */
    function JobsOf(runId: string): set<Jobs.Job>
      reads this
    {
      if runId in runs then set j | j in runs[runId].jobs else {}
    }

    /** `_register_run`: validate, store the run, then add one fresh queued job per named model and
        build its command line. A rejected request changes nothing. `jobIds[i]` is the identifier
        drawn for entry `i`. */
    method Register(runId: string, req: RunRequest, now: real, jobIds: seq<string>, inspect: string)
      returns (r: Result<Run, string>, commands: seq<seq<string>>)
      requires |jobIds| == |req.models|
      requires forall i, j :: 0 <= i < j < |jobIds| ==> jobIds[i] != jobIds[j]
      modifies this
      ensures r.Failure? <==> Validate(req).Failure?
      ensures r.Failure? ==> r.error == Validate(req).error && runs == old(runs) && commands == []
      ensures r.Success? ==> runs == old(runs)[runId := r.value]
      ensures r.Success? ==>
        && r.value.runId == runId && r.value.task == Validate(req).value && r.value.createdAt == now
        && r.value.options == req.options
        && Built(r.value.jobs, commands, |req.models|, req, jobIds, r.value.task, inspect)
        && forall j :: j in r.value.jobs ==> fresh(j)
    {
      var resolved := Tasks.ResolveValue(RequestedTask(req));
      if resolved.Failure? {
        return Failure(resolved.error), [];
      }
      if |req.models| == 0 {
        return Failure(NoModels), [];
      }
      var task := resolved.value;
      var run := Run(runId, task, now, req.options, []);
      var jobs;
      jobs, commands := MakeJobs(req, jobIds, task, inspect);
      r := Success(run.(jobs := jobs));
      runs := runs[runId := r.value];
    }

    /** The loop of `_register_run` over the model list: each named entry gets a fresh job and a
        command line; unnamed entries are skipped. */
    static method MakeJobs(req: RunRequest, jobIds: seq<string>, task: string, inspect: string)
      returns (jobs: seq<Jobs.Job>, commands: seq<seq<string>>)
      requires |jobIds| == |req.models|
      requires forall i, j :: 0 <= i < j < |jobIds| ==> jobIds[i] != jobIds[j]
      requires task in Tasks.TaskFiles
      ensures Built(jobs, commands, |req.models|, req, jobIds, task, inspect)
      ensures AllFresh(jobs)
    {
      jobs, commands := [], [];
      BuiltEmpty(req, jobIds, task, inspect);
      for i := 0 to |req.models|
        invariant AllFresh(jobs)
        invariant Built(jobs, commands, i, req, jobIds, task, inspect)
      {
        jobs, commands := AddEntry(jobs, commands, req, jobIds, task, inspect, i);
      }
    }

    /** One turn of the loop: an unnamed entry is skipped, a named one adds its job and command. */
    static method AddEntry(jobs: seq<Jobs.Job>, commands: seq<seq<string>>, req: RunRequest,
                           jobIds: seq<string>, task: string, inspect: string, i: nat)
      returns (jobs': seq<Jobs.Job>, commands': seq<seq<string>>)
      requires i < |req.models| == |jobIds| && task in Tasks.TaskFiles
      requires Built(jobs, commands, i, req, jobIds, task, inspect)
      requires forall a, b :: 0 <= a < b < |jobIds| ==> jobIds[a] != jobIds[b]
      ensures Built(jobs', commands', i + 1, req, jobIds, task, inspect)
      ensures forall j :: j in jobs' ==> j in jobs || fresh(j)
    {
      var m := req.models[i];
      if Named(m) {
        var job, command := NewJob(m, jobIds[i], task, req.options, inspect);
        BuiltStep(jobs, commands, req, jobIds, task, inspect, job, command, i);
        jobs', commands' := jobs + [job], commands + [command];
      } else {
        jobs', commands' := jobs, commands;
        assert AcceptedUpTo(req.models, i + 1) == AcceptedUpTo(req.models, i) + [];
      }
    }

    /** The record and command line registration makes for one named entry. */
    static method NewJob(m: ModelRequest, id: string, task: string, options: Command.Options, inspect: string)
      returns (job: Jobs.Job, command: seq<string>)
      requires Named(m) && task in Tasks.TaskFiles
      ensures fresh(job)
      ensures Entry(job, command, m, id, task, options, inspect)
    {
      job := new Jobs.Job(id, m.model.value, DisplayName(m), m.provider);
      var built := Command.Build(inspect, task, m.model.value, options);
      command := built.value;
    }

    /** `cancel_run` as written: every job of the run, terminal or not, gets the cancellation flag
        and the `cancelling` status; nothing else changes. Unknown runs are reported. */
    method CancelAsWritten(runId: string) returns (found: bool)
      modifies JobsOf(runId)
      ensures found <==> runId in runs
      ensures found ==> forall j :: j in runs[runId].jobs ==> j.cancelRequested && j.status == Jobs.Cancelling
      ensures found ==> Statuses(runs[runId].jobs) == Overall.CancelStatusesAsWritten(old(Statuses(runs[runId].jobs)))
      ensures forall j :: j in JobsOf(runId) ==> Unchanged(j)
    {
      if runId !in runs {
        return false;
      }
      var jobs := runs[runId].jobs;
      var i := 0;
      while i < |jobs|
        invariant 0 <= i <= |jobs|
        invariant forall j :: j in jobs[..i] ==> j.cancelRequested && j.status == Jobs.Cancelling
        invariant forall j :: j in jobs ==> Unchanged(j)
      {
        jobs[i].RequestCancel();
        assert jobs[..i + 1] == jobs[..i] + [jobs[i]];
        i := i + 1;
      }
      assert jobs[..i] == jobs;
      return true;
    }

    /** Cancellation as evidently intended: terminal jobs are left alone, every other job gets the
        flag and the `cancelling` status. */
    method Cancel(runId: string) returns (found: bool)
      modifies JobsOf(runId)
      ensures found <==> runId in runs
      ensures found ==> forall j :: j in runs[runId].jobs ==> CancelEffect(j)
      ensures found ==> Statuses(runs[runId].jobs) == Overall.CancelStatuses(old(Statuses(runs[runId].jobs)))
      ensures forall j :: j in JobsOf(runId) ==> Unchanged(j)
    {
      if runId !in runs {
        return false;
      }
      var jobs := runs[runId].jobs;
      var i := 0;
      while i < |jobs|
        invariant 0 <= i <= |jobs|
        invariant forall j :: j in jobs[..i] ==> CancelEffect(j)
        invariant forall j :: j in jobs && j !in jobs[..i] ==> j.status == old(j.status) && j.cancelRequested == old(j.cancelRequested)
        invariant forall j :: j in jobs ==> Unchanged(j)
      {
        if !Jobs.IsTerminal(jobs[i].status) {
          jobs[i].RequestCancel();
        }
        assert jobs[..i + 1] == jobs[..i] + [jobs[i]];
        i := i + 1;
      }
      assert jobs[..i] == jobs;
      CancelStatusesFollow(jobs);
      return true;
    }

    /** The aggregate status of a poll, or none for an unknown run (the 404 answer). */
    function Poll(runId: string): (r: Option<Overall.RunStatus>)
      reads this, JobsOf(runId)
      ensures r.None? <==> runId !in runs
      ensures r.Some? ==> r.value == Overall.OverallOf(Statuses(runs[runId].jobs))
      ensures r.Some? ==> (r.value == Overall.Empty <==> runs[runId].jobs == [])
      ensures r.Some? ==> (r.value == Overall.Complete <==>
        runs[runId].jobs != [] && forall j :: j in runs[runId].jobs ==> j.status == Jobs.Complete)
    {
      if runId !in runs then None
      else
        var jobs := runs[runId].jobs;
        var ss := Statuses(jobs);
        Overall.OverallMeaning(ss);
        assert forall j :: j in jobs ==> exists i :: 0 <= i < |jobs| && jobs[i] == j;
        Some(Overall.OverallOf(ss))
    }
  }

  /** Every job of `jobs` was allocated since the previous state. */
  twostate predicate AllFresh(new jobs: seq<Jobs.Job>) {
    forall j :: j in jobs ==> fresh(j)
  }

  /** What cancellation as intended does to a job: a job that was terminal keeps its status and
      flag; any other job gets the flag and the `cancelling` status. */
  twostate predicate CancelEffect(j: Jobs.Job)
    reads j
  {
    if old(Jobs.IsTerminal(j.status)) then j.status == old(j.status) && j.cancelRequested == old(j.cancelRequested)
    else j.cancelRequested && j.status == Jobs.Cancelling
  }

  /** The per-job effect read across the run: the statuses become `CancelStatuses` of the old ones. */
  twostate lemma CancelStatusesFollow(jobs: seq<Jobs.Job>)
    requires forall j :: j in jobs ==> CancelEffect(j)
    ensures Statuses(jobs) == Overall.CancelStatuses(old(Statuses(jobs)))
  {
    var now, before := Statuses(jobs), old(Statuses(jobs));
    forall i | 0 <= i < |jobs|
      ensures now[i] == Overall.CancelStatuses(before)[i]
    {
      assert CancelEffect(jobs[i]);
    }
  }

  /** What a cancellation leaves alone on a job: everything but its status and flag. */
  twostate predicate Unchanged(j: Jobs.Job)
    reads j
  {
    && j.samplesCompleted == old(j.samplesCompleted) && j.totalSamples == old(j.totalSamples)
    && j.error == old(j.error) && j.startedAt == old(j.startedAt) && j.finishedAt == old(j.finishedAt)
    && j.hasProcess == old(j.hasProcess) && j.returncode == old(j.returncode)
    && j.logTail == old(j.logTail) && j.lastUpdate == old(j.lastUpdate)
  }
}
