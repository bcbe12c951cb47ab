/** The aggregate status a status poll reports for a run (ui/app.py `run_status`): per-status counts
    of the run's jobs, then a chain of conditions in which a later one that holds overrides the
    earlier ones. A `cancelling` job is counted in no bucket. */
module Overall {
  import Jobs

  /** The `overall` counts of a status response. */
  datatype Tally = Tally(total: nat, complete: nat, failed: nat, cancelled: nat, running: nat, queued: nat)

  datatype RunStatus = Empty | Running | Cancelled | Failed | Complete | Queued

  /** The number of jobs with status `s`. */
  function Count(ss: seq<Jobs.Status>, s: Jobs.Status): (r: nat)
    ensures r <= |ss|
  {
    if ss == [] then 0 else (if ss[0] == s then 1 else 0) + Count(ss[1..], s)
  }

  function TallyOf(ss: seq<Jobs.Status>): (t: Tally)
    ensures t.total == |ss|
  {
    Tally(|ss|, Count(ss, Jobs.Complete), Count(ss, Jobs.Failed), Count(ss, Jobs.Cancelled),
          Count(ss, Jobs.Running), Count(ss, Jobs.Queued))
  }

  /** The chain of `run_status`, read from its last condition back: `queued` overrides `complete`,
      which overrides `failed`, which overrides `cancelled`, which overrides `empty`; `running` is
      the default. */
  function OverallStatus(t: Tally): (r: RunStatus)
    ensures r == Empty <==> t.total == 0
  {
    if t.running == 0 && t.queued == t.total && t.total != 0 then Queued
    else if t.complete == t.total && t.total != 0 then Complete
    else if t.failed != 0 && t.failed + t.complete + t.cancelled == t.total then Failed
    else if t.cancelled == t.total && t.total != 0 then Cancelled
    else if t.total == 0 then Empty
    else Running
  }

  /** `run_status` of a run whose jobs have statuses `ss`. */
  function OverallOf(ss: seq<Jobs.Status>): (r: RunStatus)
    ensures r == Empty <==> ss == []
  {
    OverallStatus(TallyOf(ss))
  }

  lemma {:induction false} CountAll(ss: seq<Jobs.Status>, s: Jobs.Status)
    ensures Count(ss, s) == |ss| <==> forall i :: 0 <= i < |ss| ==> ss[i] == s
  {
    if ss != [] {
      CountAll(ss[1..], s);
      assert forall i :: 1 <= i < |ss| ==> ss[i] == ss[1..][i - 1];
    }
  }

  lemma {:induction false} CountSome(ss: seq<Jobs.Status>, s: Jobs.Status)
    ensures Count(ss, s) > 0 <==> exists i :: 0 <= i < |ss| && ss[i] == s
  {
    if ss != [] {
      CountSome(ss[1..], s);
      if Count(ss[1..], s) > 0 {
        var i :| 0 <= i < |ss[1..]| && ss[1..][i] == s;
        assert ss[i + 1] == s;
      }
      assert forall i :: 1 <= i < |ss| ==> ss[i] == ss[1..][i - 1];
    }
  }

  /** The three terminal buckets together cover every job exactly when every job is terminal. */
  lemma {:induction false} CountTerminal(ss: seq<Jobs.Status>)
    ensures Count(ss, Jobs.Complete) + Count(ss, Jobs.Failed) + Count(ss, Jobs.Cancelled) <= |ss|
    ensures Count(ss, Jobs.Complete) + Count(ss, Jobs.Failed) + Count(ss, Jobs.Cancelled) == |ss|
            <==> forall i :: 0 <= i < |ss| ==> Jobs.IsTerminal(ss[i])
  {
    if ss != [] {
      CountTerminal(ss[1..]);
      assert forall i :: 1 <= i < |ss| ==> ss[i] == ss[1..][i - 1];
    }
  }

  /** What each aggregate status means for the run's jobs: the six cases are told apart by the
      jobs' statuses alone, and `running` covers exactly the runs with a job still in progress and
      not all queued, or with both complete and cancelled jobs and no failure. */
  lemma OverallMeaning(ss: seq<Jobs.Status>)
    ensures OverallOf(ss) == Empty <==> ss == []
    ensures OverallOf(ss) == Queued <==> ss != [] && forall i :: 0 <= i < |ss| ==> ss[i] == Jobs.Queued
    ensures OverallOf(ss) == Complete <==> ss != [] && forall i :: 0 <= i < |ss| ==> ss[i] == Jobs.Complete
    ensures OverallOf(ss) == Cancelled <==> ss != [] && forall i :: 0 <= i < |ss| ==> ss[i] == Jobs.Cancelled
    ensures OverallOf(ss) == Failed <==>
      (exists i :: 0 <= i < |ss| && ss[i] == Jobs.Failed) && forall i :: 0 <= i < |ss| ==> Jobs.IsTerminal(ss[i])
    ensures OverallOf(ss) == Running <==>
      || ((exists i :: 0 <= i < |ss| && !Jobs.IsTerminal(ss[i])) && exists i :: 0 <= i < |ss| && ss[i] != Jobs.Queued)
      || (&& (forall i :: 0 <= i < |ss| ==> Jobs.IsTerminal(ss[i]) && ss[i] != Jobs.Failed)
          && (exists i :: 0 <= i < |ss| && ss[i] == Jobs.Complete)
          && (exists i :: 0 <= i < |ss| && ss[i] == Jobs.Cancelled))
  {
    CountAll(ss, Jobs.Queued);
    CountAll(ss, Jobs.Complete);
    CountAll(ss, Jobs.Cancelled);
    CountSome(ss, Jobs.Failed);
    CountSome(ss, Jobs.Complete);
    CountSome(ss, Jobs.Cancelled);
    CountSome(ss, Jobs.Running);
    CountTerminal(ss);
    if ss != [] {
      assert ss[0] in ss;
    }
  }

  /** A complete and a failed job make a failed run; a complete and a cancelled job leave the run
      `running`; a lone `cancelling` job is counted nowhere and the run shows `running`. */
  lemma OverallExamples()
    ensures OverallOf([Jobs.Complete, Jobs.Failed]) == Failed
    ensures OverallOf([Jobs.Complete, Jobs.Cancelled]) == Running
    ensures OverallOf([Jobs.Cancelling]) == Running
    ensures OverallOf([Jobs.Cancelled, Jobs.Cancelled]) == Cancelled
  {
    OverallMeaning([Jobs.Complete, Jobs.Failed]);
    OverallMeaning([Jobs.Complete, Jobs.Cancelled]);
    OverallMeaning([Jobs.Cancelling]);
    OverallMeaning([Jobs.Cancelled, Jobs.Cancelled]);
  }

  /** The statuses `cancel_run` leaves, as written: every job shows `cancelling`, terminal or not. */
  function CancelStatusesAsWritten(ss: seq<Jobs.Status>): (r: seq<Jobs.Status>)
    ensures |r| == |ss| && forall i :: 0 <= i < |r| ==> r[i] == Jobs.Cancelling
  {
    seq(|ss|, _ => Jobs.Cancelling)
  }

  /** The statuses a cancellation should leave: terminal jobs keep their status. */
  function CancelStatuses(ss: seq<Jobs.Status>): (r: seq<Jobs.Status>)
    ensures |r| == |ss|
    ensures forall i :: 0 <= i < |r| ==> r[i] == if Jobs.IsTerminal(ss[i]) then ss[i] else Jobs.Cancelling
  {
    seq(|ss|, i requires 0 <= i < |ss| => if Jobs.IsTerminal(ss[i]) then ss[i] else Jobs.Cancelling)
  }

  /** As written, cancelling a run whose jobs have all finished turns its aggregate status back to
      `running`: no worker is left to move those jobs out of `cancelling` again. */
  lemma CancelFinishedRunAsWritten(ss: seq<Jobs.Status>)
    requires ss != []
    ensures OverallOf(CancelStatusesAsWritten(ss)) == Running
  {
    var r := CancelStatusesAsWritten(ss);
    assert !Jobs.IsTerminal(r[0]) && r[0] != Jobs.Queued;
    OverallMeaning(r);
  }

  /** Cancelling a run whose jobs have all finished changes nothing; cancelling any run shows the
      jobs still in progress as `cancelling` and, once at least one is, no terminal aggregate status. */
  lemma CancelKeepsFinishedRun(ss: seq<Jobs.Status>)
    ensures (forall i :: 0 <= i < |ss| ==> Jobs.IsTerminal(ss[i])) ==> CancelStatuses(ss) == ss
    ensures (exists i :: 0 <= i < |ss| && !Jobs.IsTerminal(ss[i])) ==> OverallOf(CancelStatuses(ss)) == Running
  {
    var r := CancelStatuses(ss);
    if exists i :: 0 <= i < |ss| && !Jobs.IsTerminal(ss[i]) {
      var i :| 0 <= i < |ss| && !Jobs.IsTerminal(ss[i]);
      assert r[i] == Jobs.Cancelling;
      OverallMeaning(r);
    }
  }
}
