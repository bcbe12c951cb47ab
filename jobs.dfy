/** One evaluation job of the dashboard (ui/app.py): the record its worker thread and the cancel
    handler update in place, and the worker's life from start to terminal status. Each method is one
    critical section under the registry lock, taken as an atomic step; the subprocess itself is
    outside the model, so its output, its exit code and any exception it raises are inputs. */
module Jobs {
  import opened Wrappers
  import opened PyValue
  import opened Progress
  import Text

  datatype Status = Queued | Running | Cancelling | Complete | Failed | Cancelled

  predicate IsTerminal(s: Status) {
    s == Complete || s == Failed || s == Cancelled
  }

  function ExitMessage(code: int): string {
    "Exited with code " + Text.IntToString(code)
  }

  /** The exit message determines the exit code. */
  lemma ExitMessageInjective(a: int, b: int)
    requires ExitMessage(a) == ExitMessage(b)
    ensures a == b
  {
    var p := "Exited with code ";
    assert Text.IntToString(a) == ExitMessage(a)[|p|..];
    assert Text.IntToString(b) == ExitMessage(b)[|p|..];
    Text.IntToStringInjective(a, b);
  }

  /** The terminal status once the subprocess has exited: a cancellation request wins over any exit
      code; otherwise exit code 0 is success and any other code is failure. */
  function TerminalStatus(cancelRequested: bool, code: int): (r: Status)
    ensures IsTerminal(r)
    ensures r == Cancelled <==> cancelRequested
    ensures r == Complete <==> !cancelRequested && code == 0
    ensures r == Failed <==> !cancelRequested && code != 0
  {
    if cancelRequested then Cancelled else if code == 0 then Complete else Failed
  }

  /** What the worker meets while reading output: a line of output, or (interleaved between its
      critical sections) the cancel handler's request. */
  datatype Event = Output(line: Line) | CancelRequest

  /** The lines the worker's loop hands to the progress parser, given whether cancellation was
      already requested: it checks the flag before each line and stops at the first line it meets
      with the flag raised. */
  function Handled(events: seq<Event>, flagged: bool): (r: seq<Line>)
    ensures |r| <= |events|
    decreases |events|
  {
    if events == [] then []
    else match events[0]
      case CancelRequest => Handled(events[1..], true)
      case Output(l) => if flagged then [] else [l] + Handled(events[1..], flagged)
  }

  /** Whether a cancellation request takes effect before the loop stops. */
  function CancelReached(events: seq<Event>, flagged: bool): (r: bool)
    ensures r ==> CancelRequest in events
    decreases |events|
  {
    if events == [] then false
    else match events[0]
      case CancelRequest => true
      case Output(_) => if flagged then false else CancelReached(events[1..], flagged)
  }

  function Outputs(events: seq<Event>): seq<Line>
    decreases |events|
  {
    if events == [] then []
    else match events[0]
      case CancelRequest => Outputs(events[1..])
      case Output(l) => [l] + Outputs(events[1..])
  }

  /** The position of the first cancellation request, or the length when there is none. */
  function FirstCancel(events: seq<Event>): (r: nat)
    ensures r <= |events|
    ensures r < |events| ==> events[r] == CancelRequest
    ensures forall i :: 0 <= i < r ==> events[i] != CancelRequest
  {
    if events == [] then 0
    else if events[0] == CancelRequest then 0
    else 1 + FirstCancel(events[1..])
  }

  lemma {:induction false} HandledAfterFlag(events: seq<Event>)
    ensures Handled(events, true) == []
    decreases |events|
  {
    if events != [] && events[0] == CancelRequest {
      HandledAfterFlag(events[1..]);
    }
  }

  /** No line after a cancellation request is processed: the worker handles exactly the output
      lines that precede the first request, and none at all once the flag is already raised. */
  lemma {:induction false} HandledBeforeFirstCancel(events: seq<Event>)
    ensures Handled(events, false) == Outputs(events[..FirstCancel(events)])
    ensures Handled(events, true) == []
    decreases |events|
  {
    HandledAfterFlag(events);
    if events != [] {
      if events[0] == CancelRequest {
        HandledAfterFlag(events[1..]);
        assert events[..0] == [];
      } else {
        HandledBeforeFirstCancel(events[1..]);
        var k := FirstCancel(events);
        assert events[..k][1..] == events[1..][..k - 1];
      }
    }
  }

  /** How the subprocess part of a worker ends: the process exits with a code, or an exception is
      raised while spawning it or while reading its output. */
  datatype Ending = Exited(code: int) | SpawnFailed(message: string) | ReadFailed(message: string)

  class Job {
    const jobId: string
    const model: string
    const displayName: string
    const provider: Option<string>
    var status: Status
    var samplesCompleted: int
    var totalSamples: Option<int>
    var error: Option<string>
    var startedAt: Option<real>
    var finishedAt: Option<real>
    /** Whether the job holds a subprocess handle. */
    var hasProcess: bool
    var cancelRequested: bool
    var returncode: Option<int>
    var logTail: seq<string>
    var lastUpdate: Option<real>

    ghost predicate Valid()
      reads this
    {
      |logTail| <= MaxLogLines
    }

    /** The record registration creates: queued, nothing done, no total, no process, no request. */
    predicate IsNew()
      reads this
    {
      && status == Queued && samplesCompleted == 0 && totalSamples == None && error == None
      && startedAt == None && finishedAt == None && !hasProcess && !cancelRequested
      && returncode == None && logTail == [] && lastUpdate == None
    }

    /** The fields that progress lines change. */
    function Counts(): (c: Counters)
      reads this
      ensures Valid() ==> TailBounded(c)
    {
      Counters(samplesCompleted, totalSamples, logTail, lastUpdate)
    }

    /** A job as registration creates it. */
    constructor (jobId: string, model: string, displayName: string, provider: Option<string>)
      ensures Valid()
      ensures this.jobId == jobId && this.model == model && this.displayName == displayName && this.provider == provider
      ensures IsNew()
    {
      this.jobId, this.model, this.displayName, this.provider := jobId, model, displayName, provider;
      status, samplesCompleted, totalSamples, error := Queued, 0, None, None;
      startedAt, finishedAt, hasProcess, cancelRequested := None, None, false, false;
      returncode, logTail, lastUpdate := None, [], None;
    }

    /** The worker's first critical section: the job is marked running (over a `cancelling` status
        too) and its start time recorded. */
    method Start(now: real)
      modifies this
      ensures status == Running && startedAt == Some(now)
      ensures samplesCompleted == old(samplesCompleted) && totalSamples == old(totalSamples)
      ensures error == old(error) && finishedAt == old(finishedAt) && hasProcess == old(hasProcess)
      ensures cancelRequested == old(cancelRequested) && returncode == old(returncode)
      ensures logTail == old(logTail) && lastUpdate == old(lastUpdate)
    {
      status := Running;
      startedAt := Some(now);
    }

    /** The subprocess has been spawned and its handle stored. */
    method AttachProcess()
      modifies this
      ensures hasProcess
      ensures status == old(status) && samplesCompleted == old(samplesCompleted) && totalSamples == old(totalSamples)
      ensures error == old(error) && startedAt == old(startedAt) && finishedAt == old(finishedAt)
      ensures cancelRequested == old(cancelRequested) && returncode == old(returncode)
      ensures logTail == old(logTail) && lastUpdate == old(lastUpdate)
    {
      hasProcess := true;
    }

    /** `_apply_results`: the payload's fields are applied in the source's order. The result is the
        closed form `Completed`: what the payload assigns, raised by what it offers. Only the two
        counts change. */
    method ApplyResults(p: Payload)
      modifies this
      ensures samplesCompleted == Completed(old(samplesCompleted), p)
      ensures totalSamples == Total(old(totalSamples), p)
      ensures status == old(status) && error == old(error) && startedAt == old(startedAt)
      ensures finishedAt == old(finishedAt) && hasProcess == old(hasProcess)
      ensures cancelRequested == old(cancelRequested) && returncode == old(returncode)
      ensures logTail == old(logTail) && lastUpdate == old(lastUpdate)
    {
      var completedCount, total := AssignFromResults(p, samplesCompleted, totalSamples);
      completedCount, total := OfferFromSample(p, completedCount, total);
      var raised := OfferFromEvent(p, completedCount);
      CompletedInStages(p, samplesCompleted);
      TotalInStages(p, totalSamples);
      samplesCompleted, totalSamples := raised, total;
    }

    /** `_handle_progress`: record the time, keep the right-stripped line in the bounded tail, and
        apply the payload when the line decoded to a JSON object. */
    method HandleProgress(l: Line)
      requires Valid()
      modifies this
      ensures Valid()
      ensures Counts() == Step(old(Counts()), l)
      ensures status == old(status) && error == old(error) && startedAt == old(startedAt)
      ensures finishedAt == old(finishedAt) && hasProcess == old(hasProcess)
      ensures cancelRequested == old(cancelRequested) && returncode == old(returncode)
    {
      lastUpdate := Some(l.at);
      logTail := Push(logTail, Text.RStrip(l.raw));
      if l.payload.Some? {
        ApplyResults(l.payload.value);
      }
    }

    /** The cancel handler's action on one job: raise the flag and show `cancelling`. */
    method RequestCancel()
      modifies this
      ensures cancelRequested && status == Cancelling
      ensures samplesCompleted == old(samplesCompleted) && totalSamples == old(totalSamples)
      ensures error == old(error) && startedAt == old(startedAt) && finishedAt == old(finishedAt)
      ensures hasProcess == old(hasProcess) && returncode == old(returncode)
      ensures logTail == old(logTail) && lastUpdate == old(lastUpdate)
    {
      cancelRequested := true;
      status := Cancelling;
    }

    /** The worker's line loop: before handling each line it checks the cancellation flag and stops
        at the first line it meets with the flag raised. The counters end as if exactly the
        `Handled` lines had been parsed, in order. */
    method Supervise(events: seq<Event>)
      requires Valid()
      modifies this
      ensures Valid()
      ensures Counts() == StepAll(old(Counts()), Handled(events, old(cancelRequested)))
      ensures cancelRequested == (old(cancelRequested) || CancelReached(events, old(cancelRequested)))
      ensures status == if CancelReached(events, old(cancelRequested)) then Cancelling else old(status)
      ensures error == old(error) && startedAt == old(startedAt) && finishedAt == old(finishedAt)
      ensures hasProcess == old(hasProcess) && returncode == old(returncode)
    {
      var i := 0;
      while i < |events|
        invariant 0 <= i <= |events|
        invariant Valid()
        invariant StepAll(Counts(), Handled(events[i..], cancelRequested))
               == StepAll(old(Counts()), Handled(events, old(cancelRequested)))
        invariant (cancelRequested || CancelReached(events[i..], cancelRequested))
               == (old(cancelRequested) || CancelReached(events, old(cancelRequested)))
        invariant (if CancelReached(events[i..], cancelRequested) then Cancelling else status)
               == (if CancelReached(events, old(cancelRequested)) then Cancelling else old(status))
        invariant error == old(error) && startedAt == old(startedAt) && finishedAt == old(finishedAt)
        invariant hasProcess == old(hasProcess) && returncode == old(returncode)
        decreases |events| - i
      {
        assert events[i..][1..] == events[i + 1..];
        match events[i] {
          case CancelRequest =>
            RequestCancel();
          case Output(l) =>
            if cancelRequested {
              break;
            }
            HandleProgress(l);
        }
        i := i + 1;
      }
    }

    /** The terminal critical section after the subprocess exited with `code`: the handle is
        dropped, the exit code and finish time recorded, and the status decided by
        `TerminalStatus`; only a failure sets the error message. */
    method Finish(code: int, now: real)
      modifies this
      ensures status == TerminalStatus(old(cancelRequested), code)
      ensures error == if status == Failed then Some(ExitMessage(code)) else old(error)
      ensures !hasProcess && returncode == Some(code) && finishedAt == Some(now)
      ensures samplesCompleted == old(samplesCompleted) && totalSamples == old(totalSamples)
      ensures startedAt == old(startedAt) && cancelRequested == old(cancelRequested)
      ensures logTail == old(logTail) && lastUpdate == old(lastUpdate)
    {
      hasProcess := false;
      returncode := Some(code);
      finishedAt := Some(now);
      if cancelRequested {
        status := Cancelled;
        return;
      }
      if code == 0 {
        status := Complete;
        return;
      }
      status := Failed;
      error := Some(ExitMessage(code));
    }

    /** The exception path: the job fails with the exception's message, whatever the cancellation
        flag says, and no exit code is recorded. */
    method FailWith(message: string, now: real)
      modifies this
      ensures status == Failed && error == Some(message)
      ensures !hasProcess && finishedAt == Some(now) && returncode == old(returncode)
      ensures samplesCompleted == old(samplesCompleted) && totalSamples == old(totalSamples)
      ensures startedAt == old(startedAt) && cancelRequested == old(cancelRequested)
      ensures logTail == old(logTail) && lastUpdate == old(lastUpdate)
    {
      status := Failed;
      error := Some(message);
      finishedAt := Some(now);
      hasProcess := false;
    }

    /** `_run_inspect_job` for a job that stays registered: start, spawn, supervise the output, and
        reach a terminal status. A spawn failure handles no output; a clean exit is judged by the
        cancellation flag as it stands after the loop. */
    method Work(events: seq<Event>, ending: Ending, startTime: real, endTime: real)
      requires Valid()
      modifies this
      ensures Valid()
      ensures IsTerminal(status)
      ensures startedAt == Some(startTime) && finishedAt == Some(endTime) && !hasProcess
      ensures Counts() == if ending.SpawnFailed? then old(Counts())
                          else StepAll(old(Counts()), Handled(events, old(cancelRequested)))
      ensures cancelRequested == (old(cancelRequested) || (!ending.SpawnFailed? && CancelReached(events, old(cancelRequested))))
      ensures ending.Exited? ==> status == TerminalStatus(cancelRequested, ending.code) && returncode == Some(ending.code)
      ensures ending.Exited? ==> error == if status == Failed then Some(ExitMessage(ending.code)) else old(error)
      ensures !ending.Exited? ==> status == Failed && error == Some(ending.message) && returncode == old(returncode)
    {
      Start(startTime);
      if ending.SpawnFailed? {
        FailWith(ending.message, endTime);
        return;
      }
      AttachProcess();
      Supervise(events);
      if ending.ReadFailed? {
        FailWith(ending.message, endTime);
        return;
      }
      Finish(ending.code, endTime);
    }
  }

  /** The first stage of `_apply_results`: `results` and then `progress` assign the counts they carry. */
  method AssignFromResults(p: Payload, completed: int, total: Option<int>) returns (c: int, t: Option<int>)
    ensures c == Assigned(p).GetOr(completed)
    ensures t == if p.progress.Some? && p.progress.value.total.Some? then p.progress.value.total
                 else if p.results.Some? && p.results.value.totalSamples.Some? then p.results.value.totalSamples
                 else total
  {
    c, t := completed, total;
    if p.results.Some? {
      var results := p.results.value;
      if results.totalSamples.Some? {
        t := results.totalSamples;
      }
      if results.completedSamples.Some? {
        c := results.completedSamples.value;
      }
    }
    if p.progress.Some? {
      var progress := p.progress.value;
      if progress.total.Some? {
        t := progress.total;
      }
      if progress.completed.Some? {
        c := progress.completed.value;
      }
    }
  }

  /** The second stage: `sample` assigns its total, and its `completed` and `index + 1` raise the
      count in that order. */
  method OfferFromSample(p: Payload, completed: int, total: Option<int>) returns (c: int, t: Option<int>)
    ensures c == MaxOf(completed, SampleOffers(p))
    ensures t == if p.sample.Some? && p.sample.value.total.Some? then p.sample.value.total else total
  {
    c, t := completed, total;
    ghost var a: seq<int> := [];
    ghost var b: seq<int> := [];
    if p.sample.Some? {
      var sample := p.sample.value;
      if sample.total.Some? {
        t := sample.total;
      }
      var done := AsInt(sample.completed);
      if done.Some? {
        a := [done.value];
        if done.value > c {
          c := done.value;
        }
      }
      var index := AsInt(sample.index);
      if index.Some? {
        b := [index.value + 1];
        var candidate := index.value + 1;
        if candidate > c {
          c := candidate;
        }
      }
    }
    assert SampleOffers(p) == a + b;
    MaxOfConcat(completed, a, b);
  }

  /** The last stage: beside a completion event, the top-level `completed` raises the count. */
  method OfferFromEvent(p: Payload, completed: int) returns (c: int)
    ensures c == MaxOf(completed, EventOffers(p))
  {
    c := completed;
    if p.event.Some? && p.event.value in CompletionEvents {
      var done := AsInt(p.completed);
      if done.Some? {
        if done.value > c {
          c := done.value;
        }
      }
    }
  }

  /** The three stages of `_apply_results` compose to the closed form of the completed count. */
  lemma CompletedInStages(p: Payload, current: int)
    ensures Completed(current, p) == MaxOf(MaxOf(Assigned(p).GetOr(current), SampleOffers(p)), EventOffers(p))
  {
    MaxOfConcat(Assigned(p).GetOr(current), SampleOffers(p), EventOffers(p));
  }

  /** The totals the stages assign compose to the closed form of the total. */
  lemma TotalInStages(p: Payload, current: Option<int>)
    ensures Total(current, p) ==
      if p.sample.Some? && p.sample.value.total.Some? then p.sample.value.total
      else if p.progress.Some? && p.progress.value.total.Some? then p.progress.value.total
      else if p.results.Some? && p.results.value.totalSamples.Some? then p.results.value.totalSamples
      else current
  {
    LastPresentThree(
      if p.results.Some? then p.results.value.totalSamples else None,
      if p.progress.Some? then p.progress.value.total else None,
      if p.sample.Some? then p.sample.value.total else None, current);
  }

  lemma {:induction false} MaxOfConcat(base: int, a: seq<int>, b: seq<int>)
    ensures MaxOf(base, a + b) == MaxOf(MaxOf(base, a), b)
    decreases |a|
  {
    if a == [] {
      assert a + b == b;
    } else {
      assert (a + b)[1..] == a[1..] + b;
      MaxOfConcat(if a[0] > base then a[0] else base, a[1..], b);
    }
  }
}
