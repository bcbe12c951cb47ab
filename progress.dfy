/** Progress parsing of the dashboard (`_apply_results` and `_handle_progress` in ui/app.py):
    what one output line of the evaluator does to a job's counters and to its tail of log lines.
    Decoding JSON is outside the model: a line arrives together with its decoded payload,
    `None` when the line is not JSON or not a JSON object. */
module Progress {
  import opened Wrappers
  import opened PyValue
  import Text

  /** `payload["results"]` when it is an object; absent keys and nulls are `None`. */
  datatype ResultsRecord = ResultsRecord(totalSamples: Option<int>, completedSamples: Option<int>)

  /** `payload["progress"]` when it is an object. */
  datatype ProgressRecord = ProgressRecord(total: Option<int>, completed: Option<int>)

  /** `payload["sample"]` when it is an object; `completed` and `index` count only when they are ints. */
  datatype SampleRecord = SampleRecord(total: Option<int>, completed: Value, index: Value)

  /** A decoded progress line. `event` is the event name when it is a string. */
  datatype Payload = Payload(
    results: Option<ResultsRecord>,
    progress: Option<ProgressRecord>,
    sample: Option<SampleRecord>,
    event: Option<string>,
    completed: Value)

  const CompletionEvents: set<string> := {"sample_complete", "sample_success", "sample"}

  /** The completed count a payload assigns outright, if any: `progress.completed` is applied after,
      and so wins over, `results.completed_samples`. */
  function Assigned(p: Payload): Option<int> {
    if p.progress.Some? && p.progress.value.completed.Some? then p.progress.value.completed
    else if p.results.Some? && p.results.value.completedSamples.Some? then p.results.value.completedSamples
    else None
  }

  /** The completed counts a payload offers that are taken only when larger than the current count:
      `sample.completed`, `sample.index + 1`, and `completed` beside a completion event. */
  function Offers(p: Payload): seq<int> {
    SampleOffers(p) + EventOffers(p)
  }

  /** The offers of the `sample` object, in order. */
  function SampleOffers(p: Payload): seq<int> {
    (if p.sample.Some? && AsInt(p.sample.value.completed).Some? then [AsInt(p.sample.value.completed).value] else [])
    + (if p.sample.Some? && AsInt(p.sample.value.index).Some? then [AsInt(p.sample.value.index).value + 1] else [])
  }

  /** The offer of the top-level `completed` beside a completion event. */
  function EventOffers(p: Payload): seq<int> {
    if p.event.Some? && p.event.value in CompletionEvents && AsInt(p.completed).Some? then [AsInt(p.completed).value] else []
  }

  /** `base` raised, one value at a time, by every value of `xs` that exceeds it. */
  function MaxOf(base: int, xs: seq<int>): (r: int)
    ensures r >= base && forall i :: 0 <= i < |xs| ==> r >= xs[i]
    ensures r == base || r in xs
    decreases |xs|
  {
    if xs == [] then base else MaxOf(if xs[0] > base then xs[0] else base, xs[1..])
  }

  /** The completed count after a payload, as a closed form: the largest of the count the payload
      assigns (or the current one) and everything the payload offers. */
  function Completed(current: int, p: Payload): (r: int)
    ensures r >= Assigned(p).GetOr(current)
    ensures r == Assigned(p).GetOr(current) || r in Offers(p)
  {
    MaxOf(Assigned(p).GetOr(current), Offers(p))
  }

  /** The last present value of `xs`, or `default` when none is. */
  function LastPresent(xs: seq<Option<int>>, default: Option<int>): Option<int> {
    if xs == [] then default
    else if xs[|xs| - 1].Some? then xs[|xs| - 1]
    else LastPresent(xs[..|xs| - 1], default)
  }

  /** With no value present, `LastPresent` keeps the default. */
  lemma {:induction false} LastPresentNone(xs: seq<Option<int>>, default: Option<int>)
    requires forall i :: 0 <= i < |xs| ==> xs[i].None?
    ensures LastPresent(xs, default) == default
    decreases |xs|
  {
    if xs != [] {
      var ys := xs[..|xs| - 1];
      assert forall i :: 0 <= i < |ys| ==> ys[i] == xs[i];
      LastPresentNone(ys, default);
    }
  }

  /** A present value that no later present value follows is the one `LastPresent` picks. */
  lemma {:induction false} LastPresentAt(xs: seq<Option<int>>, default: Option<int>, i: nat)
    requires i < |xs| && xs[i].Some?
    requires forall j :: i < j < |xs| ==> xs[j].None?
    ensures LastPresent(xs, default) == xs[i]
    decreases |xs|
  {
    if i < |xs| - 1 {
      var ys := xs[..|xs| - 1];
      assert xs[|xs| - 1].None?;
      assert forall j :: 0 <= j < |ys| ==> ys[j] == xs[j];
      LastPresentAt(ys, default, i);
    }
  }

  /** The total a payload leaves: the last of `results.total_samples`, `progress.total` and
      `sample.total` present, or the current total when none is. */
  function Total(current: Option<int>, p: Payload): (r: Option<int>)
    ensures r != current ==> r.Some?
    ensures p.results.None? && p.progress.None? && p.sample.None? ==> r == current
  {
    var x := if p.results.Some? then p.results.value.totalSamples else None;
    var y := if p.progress.Some? then p.progress.value.total else None;
    var z := if p.sample.Some? then p.sample.value.total else None;
    LastPresentThree(x, y, z, current);
    LastPresent([x, y, z], current)
  }

  lemma LastPresentThree(x: Option<int>, y: Option<int>, z: Option<int>, default: Option<int>)
    ensures LastPresent([x, y, z], default)
      == if z.Some? then z else if y.Some? then y else if x.Some? then x else default
  {
    assert [x, y, z][..2] == [x, y];
    assert [x, y][..1] == [x];
    assert [x][..0] == [];
    assert LastPresent([], default) == default;
    assert LastPresent([x], default) == if x.Some? then x else default;
    assert LastPresent([x, y], default) == if y.Some? then y else LastPresent([x], default);
  }

  /** Every total a payload carries overwrites the one before, so the last of `results`,
      `progress` and `sample` that carries one wins; without any, the total is unchanged. */
  lemma TotalMeaning(current: Option<int>, p: Payload)
    ensures p.sample.Some? && p.sample.value.total.Some? ==> Total(current, p) == p.sample.value.total
    ensures !(p.sample.Some? && p.sample.value.total.Some?) && p.progress.Some? && p.progress.value.total.Some?
      ==> Total(current, p) == p.progress.value.total
    ensures !(p.sample.Some? && p.sample.value.total.Some?) && !(p.progress.Some? && p.progress.value.total.Some?)
      ==> Total(current, p) == if p.results.Some? && p.results.value.totalSamples.Some? then p.results.value.totalSamples else current
  {
    LastPresentThree(
      if p.results.Some? then p.results.value.totalSamples else None,
      if p.progress.Some? then p.progress.value.total else None,
      if p.sample.Some? then p.sample.value.total else None, current);
  }

  /** A payload that assigns no completed count can only raise the count. */
  lemma CompletedMonotone(current: int, p: Payload)
    requires Assigned(p).None?
    ensures Completed(current, p) >= current
  {
  }

  /** An assigned count is taken even when it is lower: `results.completed_samples` of 3 brings a
      count of 10 down to 3. */
  lemma AssignedCanDecrease()
    ensures Completed(10, Payload(Some(ResultsRecord(None, Some(3))), None, None, None, Null)) == 3
  {
  }

  /** `True` counts as the integer 1 for `sample.index`, so it offers 2. */
  lemma BoolIndexCounts()
    ensures Completed(0, Payload(None, None, Some(SampleRecord(None, Null, Bool(true))), None, Null)) == 2
  {
  }

  // ---------------------------------------------------------------------------------------------
  // The tail of log lines: a deque of at most MaxLogLines entries.

  const MaxLogLines: nat := 200

  /** The last `MaxLogLines` entries of `s` (all of them when there are fewer). */
  function Keep(s: seq<string>): (r: seq<string>)
    ensures |r| <= MaxLogLines
    ensures |s| <= MaxLogLines ==> r == s
  {
    if |s| <= MaxLogLines then s else s[|s| - MaxLogLines..]
  }

  /** `deque.append` on a deque with `maxlen=MaxLogLines`: when full, the oldest entry is evicted. */
  function Push(tail: seq<string>, line: string): (r: seq<string>)
    requires |tail| <= MaxLogLines
    ensures |tail| < MaxLogLines ==> r == tail + [line]
    ensures |tail| == MaxLogLines ==> r == tail[1..] + [line]
  {
    Keep(tail + [line])
  }

  /** A line as the job's worker receives it: raw text, its decoded payload, and the clock reading. */
  datatype Line = Line(raw: string, payload: Option<Payload>, at: real)

  /** The part of a job that progress lines change. */
  datatype Counters = Counters(completed: int, total: Option<int>, tail: seq<string>, lastUpdate: Option<real>)

  predicate TailBounded(c: Counters) { |c.tail| <= MaxLogLines }

  /** `_handle_progress` on values: record the time, keep the right-stripped line, apply the payload. */
  function Step(c: Counters, l: Line): (r: Counters)
    requires TailBounded(c)
    ensures TailBounded(r)
  {
    Counters(
      if l.payload.Some? then Completed(c.completed, l.payload.value) else c.completed,
      if l.payload.Some? then Total(c.total, l.payload.value) else c.total,
      Push(c.tail, Text.RStrip(l.raw)),
      Some(l.at))
  }

  function StepAll(c: Counters, ls: seq<Line>): (r: Counters)
    requires TailBounded(c)
    ensures TailBounded(r)
    decreases |ls|
  {
    if ls == [] then c else StepAll(Step(c, ls[0]), ls[1..])
  }

  function Stripped(ls: seq<Line>): (r: seq<string>)
    ensures |r| == |ls|
    ensures forall i :: 0 <= i < |ls| ==> r[i] == Text.RStrip(ls[i].raw)
  {
    if ls == [] then [] else [Text.RStrip(ls[0].raw)] + Stripped(ls[1..])
  }

  /** A line that is not a JSON object changes neither count. */
  lemma NonObjectLineKeepsCounts(c: Counters, raw: string, at: real)
    requires TailBounded(c)
    ensures Step(c, Line(raw, None, at)).completed == c.completed
    ensures Step(c, Line(raw, None, at)).total == c.total
    ensures Step(c, Line(raw, None, at)).tail == Push(c.tail, Text.RStrip(raw))
  {
  }

  lemma {:induction false} KeepKeep(a: seq<string>, b: seq<string>)
    ensures Keep(Keep(a) + b) == Keep(a + b)
  {
    if |a| > MaxLogLines {
      var k := a[|a| - MaxLogLines..];
      var n := |a + b|;
      if |k + b| > MaxLogLines {
        assert (k + b)[|k + b| - MaxLogLines..] == (a + b)[n - MaxLogLines..];
      }
    }
  }

  /** Appending `xs` one at a time to a bounded deque. */
  function PushAll(tail: seq<string>, xs: seq<string>): (r: seq<string>)
    requires |tail| <= MaxLogLines
    ensures |r| <= MaxLogLines
    decreases |xs|
  {
    if xs == [] then tail else PushAll(Push(tail, xs[0]), xs[1..])
  }

  /** Whatever is appended, the deque holds the last `MaxLogLines` entries of everything it has
      seen: older entries are evicted first and nothing else is lost. */
  lemma {:induction false} PushAllKeepsLatest(tail: seq<string>, xs: seq<string>)
    requires |tail| <= MaxLogLines
    ensures PushAll(tail, xs) == Keep(tail + xs)
    decreases |xs|
  {
    if xs == [] {
      assert tail + xs == tail;
    } else {
      PushAllKeepsLatest(Push(tail, xs[0]), xs[1..]);
      KeepKeep(tail + [xs[0]], xs[1..]);
      assert tail + [xs[0]] + xs[1..] == tail + xs;
    }
  }

  lemma {:induction false} StepAllTailIsPushAll(c: Counters, ls: seq<Line>)
    requires TailBounded(c)
    ensures StepAll(c, ls).tail == PushAll(c.tail, Stripped(ls))
    decreases |ls|
  {
    if ls != [] {
      StepTail(c, ls[0]);
      StrippedCons(ls);
      StepAllTailIsPushAll(Step(c, ls[0]), ls[1..]);
      assert ([Text.RStrip(ls[0].raw)] + Stripped(ls[1..]))[1..] == Stripped(ls[1..]);
    }
  }

  /** After any sequence of lines the job's tail holds the last `MaxLogLines` of them, right-stripped. */
  lemma StepAllTail(c: Counters, ls: seq<Line>)
    requires TailBounded(c)
    ensures StepAll(c, ls).tail == Keep(c.tail + Stripped(ls))
  {
    StepAllTailIsPushAll(c, ls);
    PushAllKeepsLatest(c.tail, Stripped(ls));
  }

  lemma StepTail(c: Counters, l: Line)
    requires TailBounded(c)
    ensures Step(c, l).tail == Push(c.tail, Text.RStrip(l.raw))
  {
  }

  lemma StrippedCons(ls: seq<Line>)
    requires ls != []
    ensures Stripped(ls) == [Text.RStrip(ls[0].raw)] + Stripped(ls[1..])
  {
  }

  /** Stepping through `a` and then `b` is stepping through `a + b`. */
  lemma {:induction false} StepAllConcat(c: Counters, a: seq<Line>, b: seq<Line>)
    requires TailBounded(c)
    ensures StepAll(c, a + b) == StepAll(StepAll(c, a), b)
    decreases |a|
  {
    if a == [] {
      assert a + b == b;
    } else {
      assert (a + b)[1..] == a[1..] + b;
      StepAllConcat(Step(c, a[0]), a[1..], b);
    }
  }

  predicate NoAssignment(ls: seq<Line>) {
    forall i :: 0 <= i < |ls| && ls[i].payload.Some? ==> Assigned(ls[i].payload.value).None?
  }

  lemma {:induction false} StepAllRaises(c: Counters, ls: seq<Line>)
    requires TailBounded(c) && NoAssignment(ls)
    ensures StepAll(c, ls).completed >= c.completed
    decreases |ls|
  {
    if ls != [] {
      assert forall i :: 0 <= i < |ls[1..]| ==> ls[1..][i] == ls[i + 1];
      StepAllRaises(Step(c, ls[0]), ls[1..]);
    }
  }

  /** Lines that assign no count — the `sample` and event forms only — never lower the completed
      count, however they are ordered or repeated: the count after a prefix is at most the count
      after any longer prefix. */
  lemma CompletedNonDecreasing(c: Counters, ls: seq<Line>, i: nat, j: nat)
    requires TailBounded(c) && NoAssignment(ls)
    requires i <= j <= |ls|
    ensures StepAll(c, ls[..i]).completed <= StepAll(c, ls[..j]).completed
  {
    assert ls[..j] == ls[..i] + ls[i..j];
    StepAllConcat(c, ls[..i], ls[i..j]);
    assert forall k :: 0 <= k < |ls[i..j]| ==> ls[i..j][k] == ls[i + k];
    StepAllRaises(StepAll(c, ls[..i]), ls[i..j]);
  }

  /** The line `{"sample": {"index": k}}`. */
  function IndexLine(k: int, at: real): Line {
    Line("", Some(Payload(None, None, Some(SampleRecord(None, Null, Int(k))), None, Null)), at)
  }

  /** Lines for the sample indices `from`, ..., `n - 1`, in order. */
  function IndexLines(from: nat, n: nat, at: real): seq<Line>
    decreases n - from
  {
    if from >= n then [] else [IndexLine(from, at)] + IndexLines(from + 1, n, at)
  }

  /** Zero-based sample indices reported in order bring the count from `from` to `n`. */
  lemma {:induction false} IndexLinesComplete(c: Counters, from: nat, n: nat, at: real)
    requires TailBounded(c) && c.completed == from && from <= n
    ensures StepAll(c, IndexLines(from, n, at)).completed == n
    ensures StepAll(c, IndexLines(from, n, at)).total == c.total
    decreases n - from
  {
    if from < n {
      var c' := Step(c, IndexLine(from, at));
      IndexLineStep(c, from, at);
      var ls := IndexLines(from, n, at);
      assert ls[1..] == IndexLines(from + 1, n, at);
      assert StepAll(c, ls) == StepAll(c', ls[1..]);
      IndexLinesComplete(c', from + 1, n, at);
    }
  }

  /** The line for index `k` raises a count of `k` to `k + 1` and keeps the total. */
  lemma IndexLineStep(c: Counters, k: int, at: real)
    requires TailBounded(c) && c.completed == k
    ensures Step(c, IndexLine(k, at)).completed == k + 1
    ensures Step(c, IndexLine(k, at)).total == c.total
  {
    var p := IndexLine(k, at).payload.value;
    assert SampleOffers(p) == [k + 1];
    assert EventOffers(p) == [];
    assert Offers(p) == [k + 1];
    assert Assigned(p) == None;
    TotalMeaning(c.total, p);
  }
}
