/** The read-only projections the status poll computes for each job (ui/app.py):
    the human-readable duration, the progress ratio and the estimated time remaining.
    Times are seconds as `real`; the clock reading `now` is an input. */
module Durations {
  import opened Wrappers
  import Text

  datatype Unit = Hours | Minutes | Seconds

  /** One component of a rendered duration, such as `2h`. */
  datatype Part = Part(amount: nat, unit: Unit)

  function UnitSeconds(u: Unit): nat {
    match u
    case Hours => 3600
    case Minutes => 60
    case Seconds => 1
  }

  function UnitRank(u: Unit): nat {
    match u
    case Hours => 0
    case Minutes => 1
    case Seconds => 2
  }

  function UnitSuffix(u: Unit): string {
    match u
    case Hours => "h"
    case Minutes => "m"
    case Seconds => "s"
  }

  /** The number of seconds a list of parts denotes. */
  function Denoted(parts: seq<Part>): nat {
    if parts == [] then 0 else parts[0].amount * UnitSeconds(parts[0].unit) + Denoted(parts[1..])
  }

  /** `int(max(0, seconds))`: negative inputs count as zero and fractions are truncated. */
  function WholeSeconds(seconds: real): (r: nat)
    ensures seconds <= 0.0 ==> r == 0
    ensures seconds >= 0.0 ==> r as real <= seconds < r as real + 1.0
  {
    if seconds <= 0.0 then 0 else seconds.Floor
  }

  /** The components `_format_duration` emits for a whole number of seconds: hours and minutes only
      when non-zero, seconds alone when there is nothing else, and seconds after hours or minutes
      only when non-zero and under two hours. Read back, they give the input, except that from two
      hours on the seconds are dropped. */
  function DurationParts(total: nat): (r: seq<Part>)
    ensures |r| > 0
    ensures Denoted(r) == if total < 7200 then total else total - total % 60
  {
    var hours, remainder := total / 3600, total % 3600;
    var minutes, secs := remainder / 60, remainder % 60;
    var parts := (if hours != 0 then [Part(hours, Hours)] else [])
      + (if minutes != 0 then [Part(minutes, Minutes)] else []);
    DivModParts(total, hours, remainder, minutes, secs);
    DenotedConcat(if hours != 0 then [Part(hours, Hours)] else [],
                  if minutes != 0 then [Part(minutes, Minutes)] else []);
    if parts == [] then [Part(secs, Seconds)]
    else if secs != 0 && hours < 2 then DenotedConcat(parts, [Part(secs, Seconds)]); parts + [Part(secs, Seconds)]
    else parts
  }

  /** The two `divmod` steps of `_format_duration`, read back. */
  lemma DivModParts(total: nat, hours: nat, remainder: nat, minutes: nat, secs: nat)
    requires hours == total / 3600 && remainder == total % 3600
    requires minutes == remainder / 60 && secs == remainder % 60
    ensures total == hours * 3600 + minutes * 60 + secs
    ensures minutes < 60 && secs < 60
    ensures hours == 0 && minutes == 0 <==> total < 60
    ensures hours < 2 <==> total < 7200
    ensures total % 60 == secs
  {
    assert remainder == minutes * 60 + secs;
    assert total == hours * 3600 + remainder;
    assert total == (hours * 60 + minutes) * 60 + secs;
  }

  /** The shape of the parts: the seconds stand alone exactly under a minute; every part is
      non-zero except a lone `0s`; minutes and seconds stay under 60; units never repeat and come
      in the order hours, minutes, seconds. */
  lemma DurationPartsShape(total: nat)
    ensures var r := DurationParts(total);
      && (r == [Part(total, Seconds)] <==> total < 60)
      && (forall i :: 0 <= i < |r| ==> r[i].amount > 0 || r == [Part(0, Seconds)])
      && (forall i :: 0 <= i < |r| && r[i].unit != Hours ==> r[i].amount < 60)
      && (forall i, j :: 0 <= i < j < |r| ==> UnitRank(r[i].unit) < UnitRank(r[j].unit))
  {
    var hours, remainder := total / 3600, total % 3600;
    var minutes, secs := remainder / 60, remainder % 60;
    DivModParts(total, hours, remainder, minutes, secs);
  }

  lemma {:induction false} DenotedConcat(a: seq<Part>, b: seq<Part>)
    ensures Denoted(a + b) == Denoted(a) + Denoted(b)
  {
    if a == [] {
      assert a + b == b;
    } else {
      assert (a + b)[1..] == a[1..] + b;
      DenotedConcat(a[1..], b);
    }
  }

  function RenderParts(parts: seq<Part>): (r: seq<string>)
    ensures |r| == |parts|
  {
    if parts == [] then []
    else [Text.NatToString(parts[0].amount) + UnitSuffix(parts[0].unit)] + RenderParts(parts[1..])
  }

  /** `_format_duration`: `None` stays `None`; otherwise the parts joined by single spaces. */
  function FormatDuration(seconds: Option<real>): (r: Option<string>)
    ensures r.None? <==> seconds.None?
    ensures r.Some? ==> |r.value| > 0
  {
    match seconds
    case None => None
    case Some(s) =>
      var parts := DurationParts(WholeSeconds(s));
      var rendered := RenderParts(parts);
      var r := Text.Join(rendered, " ");
      JoinNonEmpty(rendered);
      Some(r)
  }

  lemma {:induction false} JoinNonEmpty(parts: seq<string>)
    requires |parts| > 0 && |parts[0]| > 0
    ensures |Text.Join(parts, " ")| > 0
  {
  }

  /** Under a minute the result is exactly the seconds followed by `s` (so zero gives `0s`). */
  lemma FormatUnderAMinute(seconds: real)
    requires seconds < 60.0
    ensures FormatDuration(Some(seconds)) == Some(Text.NatToString(WholeSeconds(seconds)) + "s")
  {
    var t := WholeSeconds(seconds);
    assert t < 60;
    assert DurationParts(t) == [Part(t, Seconds)];
  }

  /** An hour and five seconds renders as `1h 5s`: seconds are kept under two hours. */
  lemma FormatOneHourFiveSeconds()
    ensures FormatDuration(Some(3605.0)) == Some("1h 5s")
  {
    assert WholeSeconds(3605.0) == 3605;
    assert DurationParts(3605) == [Part(1, Hours), Part(5, Seconds)];
    assert Text.NatToString(1) == "1" && Text.NatToString(5) == "5";
    RenderTwo(Part(1, Hours), Part(5, Seconds));
    assert "1" + "h" + " " + "5" + "s" == "1h 5s";
  }

  /** Two hours, one minute and five seconds renders as `2h 1m`: from two hours on, seconds are dropped. */
  lemma FormatTwoHoursDropsSeconds()
    ensures FormatDuration(Some(7265.0)) == Some("2h 1m")
  {
    assert WholeSeconds(7265.0) == 7265;
    assert DurationParts(7265) == [Part(2, Hours), Part(1, Minutes)];
    assert Text.NatToString(2) == "2" && Text.NatToString(1) == "1";
    RenderTwo(Part(2, Hours), Part(1, Minutes));
    assert "2" + "h" + " " + "1" + "m" == "2h 1m";
  }

  /** A negative duration renders as `0s`. */
  lemma FormatNegative()
    ensures FormatDuration(Some(-3.5)) == Some("0s")
  {
    assert Text.NatToString(0) == "0";
    FormatUnderAMinute(-3.5);
    assert WholeSeconds(-3.5) == 0;
    assert "0" + "s" == "0s";
  }

  lemma RenderTwo(a: Part, b: Part)
    ensures Text.Join(RenderParts([a, b]), " ")
      == Text.NatToString(a.amount) + UnitSuffix(a.unit) + " " + Text.NatToString(b.amount) + UnitSuffix(b.unit)
  {
    assert [a, b][1..] == [b];
    assert [b][1..] == [];
    var ra, rb := Text.NatToString(a.amount) + UnitSuffix(a.unit), Text.NatToString(b.amount) + UnitSuffix(b.unit);
    assert RenderParts([b]) == [rb] + RenderParts([]);
    assert RenderParts([b]) == [rb];
    assert RenderParts([a, b]) == [ra] + RenderParts([b]);
    var r := RenderParts([a, b]);
    assert r == [ra, rb];
    assert r[1..] == [rb];
    assert Text.Join(r, " ") == ra + " " + Text.Join([rb], " ");
  }

  /** `_progress_ratio`: undefined while the total is unknown or zero, otherwise the completed
      fraction clamped to [0, 1]. */
  function ProgressRatio(completed: int, total: Option<int>): (r: Option<real>)
    ensures r.None? <==> total.None? || total.value == 0
    ensures r.Some? ==> 0.0 <= r.value <= 1.0
    ensures r.Some? && 0 <= completed <= total.value ==> r.value == completed as real / total.value as real
  {
    match total
    case None => None
    case Some(t) =>
      if t == 0 then None
      else
        var ratio := completed as real / t as real;
        if ratio < 0.0 then Some(0.0) else if ratio > 1.0 then Some(1.0) else Some(ratio)
  }

  /** A non-empty timestamp: the source tests timestamps for truthiness, so 0.0 counts as unset. */
  predicate IsSet(t: Option<real>) {
    t.Some? && t.value != 0.0
  }

  /** Seconds from the start to the finish, or to `now` while the job has not finished. */
  function Elapsed(startedAt: real, finishedAt: Option<real>, now: real): real {
    (if IsSet(finishedAt) then finishedAt.value else now) - startedAt
  }

  /** `_estimate_remaining`: defined only once some samples are done, the total is known, the job
      has started and time has passed; zero when nothing remains; otherwise the remaining samples
      at the average time per completed sample. */
  function EstimateRemaining(completed: int, total: Option<int>, startedAt: Option<real>,
                             finishedAt: Option<real>, now: real): (r: Option<real>)
    ensures r.Some? <==>
      && completed != 0 && total.Some? && total.value != 0 && IsSet(startedAt)
      && Elapsed(startedAt.value, finishedAt, now) > 0.0
    ensures r.Some? && total.value <= completed ==> r.value == 0.0
    ensures r.Some? && total.value > completed ==>
      r.value * completed as real == (total.value - completed) as real * Elapsed(startedAt.value, finishedAt, now)
    ensures r.Some? && completed > 0 ==> r.value >= 0.0
  {
    if completed == 0 || total.None? || total.value == 0 || !IsSet(startedAt) then None
    else
      var elapsed := Elapsed(startedAt.value, finishedAt, now);
      if elapsed <= 0.0 then None
      else
        var remaining := total.value - completed;
        if remaining <= 0 then Some(0.0)
        else
          var average := elapsed / completed as real;
          assert average * completed as real == elapsed;
          Some(remaining as real * average)
  }

  /** Five of twenty samples done in fifty seconds leaves an estimate of 150 seconds; nothing done
      leaves no estimate. */
  lemma EstimateExamples(now: real)
    ensures EstimateRemaining(5, Some(20), Some(100.0), Some(150.0), now) == Some(150.0)
    ensures EstimateRemaining(0, Some(20), Some(100.0), Some(150.0), now) == None
  {
  }
}
