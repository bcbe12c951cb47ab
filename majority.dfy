/** The majority-at-k metric of src/open_telco/telelogs/utils.py: scores from several epochs are
    grouped by sample, each group votes on an answer, and a group counts as correct when one of
    its correct scores carries the winning answer. The metric is returned as the pair
    (correct groups, groups) beside the ratio it stands for. */
module Majority {
  import opened Wrappers
  import opened PyValue

  /** A sample identifier: an integer or a string. */
  datatype SampleId = IntId(i: int) | StrId(s: string)

  datatype Score = Score(value: Value, answer: Option<string>)

  datatype SampleScore = SampleScore(sampleId: SampleId, score: Score)

  /** A score votes when its answer is truthy: present and non-empty. */
  predicate Votes(s: Score) {
    s.answer.Some? && s.answer.value != ""
  }

  /** The voting answers of a group, in order. */
  function Answers(group: seq<Score>): (r: seq<string>)
    ensures |r| <= |group|
    ensures forall k :: 0 <= k < |r| ==> r[k] != ""
    ensures r == [] <==> forall i :: 0 <= i < |group| ==> !Votes(group[i])
    ensures forall i :: 0 <= i < |group| && Votes(group[i]) ==> group[i].answer.value in r
    ensures forall a :: a in r ==> exists i :: 0 <= i < |group| && Votes(group[i]) && group[i].answer == Some(a)
  {
    if group == [] then []
    else
      var rest := Answers(group[1..]);
      assert forall i :: 1 <= i < |group| ==> group[i] == group[1..][i - 1];
      if Votes(group[0]) then [group[0].answer.value] + rest else rest
  }

  /** The number of occurrences of `a` in `xs`. */
  function Count(xs: seq<string>, a: string): (r: nat)
    ensures r <= |xs|
    ensures r > 0 <==> a in xs
  {
    if xs == [] then 0 else (if xs[0] == a then 1 else 0) + Count(xs[1..], a)
  }

  function FirstIndex(xs: seq<string>, a: string): (r: nat)
    requires a in xs
    ensures r < |xs| && xs[r] == a && forall j :: 0 <= j < r ==> xs[j] != a
  {
    if xs[0] == a then 0 else 1 + FirstIndex(xs[1..], a)
  }

  /** After the first `i` answers, `best` is one with the highest overall count among them, and
      the first seen of those. */
  ghost predicate Leads(xs: seq<string>, i: nat, best: string)
    requires 0 < i <= |xs|
  {
    && best in xs[..i]
    && (forall j :: 0 <= j < i ==> Count(xs, xs[j]) <= Count(xs, best))
    && (forall j :: 0 <= j < i && Count(xs, xs[j]) == Count(xs, best) ==> FirstIndex(xs, best) <= j)
  }

  /** The scan behind `Counter(xs).most_common(1)`: the answers are met in order and the best so far
      is replaced only by one with a strictly higher count, so among the answers with the highest
      count the first one seen wins. */
  function Scan(xs: seq<string>, i: nat, best: string): (r: string)
    requires 0 < i <= |xs| && Leads(xs, i, best)
    ensures Leads(xs, |xs|, r)
    decreases |xs| - i
  {
    if i == |xs| then best
    else if Count(xs, xs[i]) > Count(xs, best) then
      LeadsReplaced(xs, i, best);
      Scan(xs, i + 1, xs[i])
    else
      LeadsKept(xs, i, best);
      Scan(xs, i + 1, best)
  }

  /** An answer with a strictly higher count than the best so far has not been seen before, so it
      leads from then on. */
  lemma LeadsReplaced(xs: seq<string>, i: nat, best: string)
    requires 0 < i < |xs| && Leads(xs, i, best) && Count(xs, xs[i]) > Count(xs, best)
    ensures Leads(xs, i + 1, xs[i])
  {
    var x := xs[i];
    assert forall j :: 0 <= j < i ==> xs[j] != x;
    assert FirstIndex(xs, x) == i;
    assert x in xs[..i + 1] by { assert xs[..i + 1][i] == x; }
  }

  /** An answer whose count does not exceed the best so far leaves the best in place. */
  lemma LeadsKept(xs: seq<string>, i: nat, best: string)
    requires 0 < i < |xs| && Leads(xs, i, best) && Count(xs, xs[i]) <= Count(xs, best)
    ensures Leads(xs, i + 1, best)
  {
    assert FirstIndex(xs, best) < i by {
      var j :| 0 <= j < i && xs[..i][j] == best;
      assert xs[j] == best;
    }
    assert best in xs[..i + 1] by {
      var j :| 0 <= j < i && xs[..i][j] == best;
      assert xs[..i + 1][j] == best;
    }
  }

  /** The majority answer: one with the highest count, and among those the one seen first. */
  function MajorityOf(xs: seq<string>): (r: string)
    requires xs != []
    ensures r in xs
    ensures forall j :: 0 <= j < |xs| ==> Count(xs, xs[j]) <= Count(xs, r)
    ensures forall j :: 0 <= j < |xs| && Count(xs, xs[j]) == Count(xs, r) ==> FirstIndex(xs, r) <= j
  {
    assert xs[..1] == [xs[0]];
    assert FirstIndex(xs, xs[0]) == 0;
    var r := Scan(xs, 1, xs[0]);
    assert xs[..|xs|] == xs;
    r
  }

  /** The `any(...)` of a group: some score with value 1 carries the majority answer. */
  predicate AnyCorrect(group: seq<Score>, majority: string) {
    exists i :: 0 <= i < |group| && EqualsOne(group[i].value) && group[i].answer == Some(majority)
  }

  /** A group adds one exactly when it has a voting answer and `AnyCorrect` holds for its majority. */
  predicate GroupCorrect(group: seq<Score>) {
    Answers(group) != [] && AnyCorrect(group, MajorityOf(Answers(group)))
  }

  /** The sample identifiers in order of first appearance: the keys of the grouping dictionary. */
  function Ids(scores: seq<SampleScore>): (r: seq<SampleId>)
    ensures |r| <= |scores|
    ensures forall i, j :: 0 <= i < j < |r| ==> r[i] != r[j]
    ensures forall i :: 0 <= i < |scores| ==> scores[i].sampleId in r
  {
    if scores == [] then []
    else
      var init := scores[..|scores| - 1];
      var last := scores[|scores| - 1];
      var r := Ids(init);
      assert forall i :: 0 <= i < |init| ==> init[i] == scores[i];
      if last.sampleId in r then r else r + [last.sampleId]
  }

  /** Every listed identifier is that of some score. */
  lemma {:induction false} IdsFromScores(scores: seq<SampleScore>, id: SampleId)
    requires id in Ids(scores)
    ensures exists i :: 0 <= i < |scores| && scores[i].sampleId == id
  {
    var init := scores[..|scores| - 1];
    if id in Ids(init) {
      IdsFromScores(init, id);
      var i :| 0 <= i < |init| && init[i].sampleId == id;
      assert scores[i] == init[i];
    } else {
      assert scores[|scores| - 1].sampleId == id;
    }
  }

  /** The scores of sample `id`, in order: the list the grouping dictionary holds for it. */
  function GroupOf(scores: seq<SampleScore>, id: SampleId): (r: seq<Score>)
    ensures |r| <= |scores|
  {
    if scores == [] then []
    else
      var init := scores[..|scores| - 1];
      var last := scores[|scores| - 1];
      GroupOf(init, id) + (if last.sampleId == id then [last.score] else [])
  }

  /** A sample without scores has an empty group. */
  lemma {:induction false} GroupOfAbsent(scores: seq<SampleScore>, id: SampleId)
    requires id !in Ids(scores)
    ensures GroupOf(scores, id) == []
  {
    if scores != [] {
      var init := scores[..|scores| - 1];
      assert id !in Ids(init);
      GroupOfAbsent(init, id);
    }
  }

  /** The total size of the groups of the listed samples. */
  function GroupSizes(scores: seq<SampleScore>, ids: seq<SampleId>): nat {
    if ids == [] then 0 else GroupSizes(scores, ids[..|ids| - 1]) + |GroupOf(scores, ids[|ids| - 1])|
  }

  /** The number of occurrences of `id` in `ids`. */
  function Occurrences(ids: seq<SampleId>, id: SampleId): nat {
    if ids == [] then 0 else Occurrences(ids[..|ids| - 1], id) + (if ids[|ids| - 1] == id then 1 else 0)
  }

  lemma {:induction false} OccurrencesDistinct(ids: seq<SampleId>, id: SampleId)
    requires forall i, j :: 0 <= i < j < |ids| ==> ids[i] != ids[j]
    ensures Occurrences(ids, id) == if id in ids then 1 else 0
  {
    if ids != [] {
      var init := ids[..|ids| - 1];
      OccurrencesDistinct(init, id);
      assert forall i :: 0 <= i < |init| ==> init[i] == ids[i];
      assert id in ids <==> id in init || ids[|ids| - 1] == id;
    }
  }

  /** The last score adds one to the group of each listing of its identifier. */
  lemma {:induction false} GroupSizesLast(scores: seq<SampleScore>, ids: seq<SampleId>)
    requires scores != []
    ensures GroupSizes(scores, ids)
      == GroupSizes(scores[..|scores| - 1], ids) + Occurrences(ids, scores[|scores| - 1].sampleId)
  {
    if ids != [] {
      GroupSizesLast(scores, ids[..|ids| - 1]);
    }
  }

  /** Grouping loses and duplicates nothing: the groups of the distinct identifiers together hold
      every score exactly once. */
  lemma {:induction false} GroupsPartition(scores: seq<SampleScore>)
    ensures GroupSizes(scores, Ids(scores)) == |scores|
  {
    if scores != [] {
      var init, x := scores[..|scores| - 1], scores[|scores| - 1].sampleId;
      GroupsPartition(init);
      OccurrencesDistinct(Ids(init), x);
      GroupSizesLast(scores, Ids(init));
      if x !in Ids(init) {
        GroupOfAbsent(init, x);
        var ids := Ids(init) + [x];
        assert ids[..|ids| - 1] == Ids(init);
      }
    }
  }

  /** The number of the listed samples whose group is correct. */
  function CorrectAmong(scores: seq<SampleScore>, ids: seq<SampleId>): (r: nat)
    ensures r <= |ids|
  {
    if ids == [] then 0
    else CorrectAmong(scores, ids[..|ids| - 1]) + (if GroupCorrect(GroupOf(scores, ids[|ids| - 1])) then 1 else 0)
  }

  /** `metric_fn` as the pair (correct groups, groups): the scores are grouped by sample in order of
      first appearance, then each group with a voting answer adds one when it is correct. */
  method MajAtK(scores: seq<SampleScore>) returns (correct: nat, groups: nat)
    ensures groups == |Ids(scores)|
    ensures correct == CorrectAmong(scores, Ids(scores))
    ensures correct <= groups
    ensures groups == 0 <==> scores == []
  {
    var order, grouped := GroupScores(scores);
    correct := CountCorrect(scores, order, grouped);
    groups := |order|;
    if scores != [] {
      assert scores[0].sampleId in order;
    }
  }

  /** The first loop of `metric_fn`: the grouping dictionary, its keys in insertion order. */
  method GroupScores(scores: seq<SampleScore>) returns (order: seq<SampleId>, grouped: map<SampleId, seq<Score>>)
    ensures order == Ids(scores)
    ensures forall id :: id in grouped <==> id in order
    ensures forall id :: id in grouped ==> grouped[id] == GroupOf(scores, id)
  {
    order, grouped := [], map[];
    var i := 0;
    while i < |scores|
      invariant 0 <= i <= |scores|
      invariant Grouping(scores[..i], order, grouped)
    {
      GroupStep(scores, i, order, grouped);
      var x := scores[i].sampleId;
      var previous := if x in grouped then grouped[x] else [];
      order := if x in grouped then order else order + [x];
      grouped := grouped[x := previous + [scores[i].score]];
      i := i + 1;
    }
    assert scores[..i] == scores;
  }

  /** `order` and `grouped` are the grouping dictionary of `scores`. */
  ghost predicate Grouping(scores: seq<SampleScore>, order: seq<SampleId>, grouped: map<SampleId, seq<Score>>) {
    && order == Ids(scores)
    && (forall id :: id in grouped <==> id in order)
    && (forall id :: id in grouped ==> grouped[id] == GroupOf(scores, id))
  }

  /** One turn of the grouping loop: `defaultdict(list)[id].append(score)`. */
  lemma GroupStep(scores: seq<SampleScore>, i: nat, order: seq<SampleId>, grouped: map<SampleId, seq<Score>>)
    requires i < |scores| && Grouping(scores[..i], order, grouped)
    ensures var x := scores[i].sampleId;
      Grouping(scores[..i + 1], if x in grouped then order else order + [x],
               grouped[x := (if x in grouped then grouped[x] else []) + [scores[i].score]])
  {
    IdsSnoc(scores, i);
    GroupsSnoc(scores, i, grouped);
  }

  lemma IdsSnoc(scores: seq<SampleScore>, i: nat)
    requires i < |scores|
    ensures Ids(scores[..i + 1]) == if scores[i].sampleId in Ids(scores[..i]) then Ids(scores[..i])
      else Ids(scores[..i]) + [scores[i].sampleId]
  {
    assert scores[..i + 1][..i] == scores[..i];
  }

  lemma GroupsSnoc(scores: seq<SampleScore>, i: nat, grouped: map<SampleId, seq<Score>>)
    requires i < |scores|
    requires forall id :: id in grouped <==> id in Ids(scores[..i])
    requires forall id :: id in grouped ==> grouped[id] == GroupOf(scores[..i], id)
    ensures var x := scores[i].sampleId;
      var grouped' := grouped[x := (if x in grouped then grouped[x] else []) + [scores[i].score]];
      forall id :: id in grouped' ==> grouped'[id] == GroupOf(scores[..i + 1], id)
  {
    var x := scores[i].sampleId;
    var before, after := scores[..i], scores[..i + 1];
    assert after[..i] == before && after[i] == scores[i];
    var grouped' := grouped[x := (if x in grouped then grouped[x] else []) + [scores[i].score]];
    forall id | id in grouped'
      ensures grouped'[id] == GroupOf(after, id)
    {
      assert GroupOf(after, id) == GroupOf(before, id) + if x == id then [scores[i].score] else [];
      if id == x && x !in grouped {
        GroupOfAbsent(before, x);
      }
    }
  }

  /** The second loop of `metric_fn`: one for each group with a voting answer that is correct. */
  method CountCorrect(scores: seq<SampleScore>, order: seq<SampleId>, grouped: map<SampleId, seq<Score>>)
    returns (correct: nat)
    requires forall k :: 0 <= k < |order| ==> order[k] in grouped && grouped[order[k]] == GroupOf(scores, order[k])
    ensures correct == CorrectAmong(scores, order)
  {
    correct := 0;
    var k := 0;
    while k < |order|
      invariant 0 <= k <= |order|
      invariant correct == CorrectAmong(scores, order[..k])
    {
      var adds := ScoreGroup(grouped[order[k]]);
      CountStep(scores, order, grouped, k, correct, adds);
      correct := correct + if adds then 1 else 0;
      k := k + 1;
    }
    assert order[..k] == order;
  }

  /** One turn of the second loop keeps the count equal to the correct groups seen so far. */
  lemma CountStep(scores: seq<SampleScore>, order: seq<SampleId>, grouped: map<SampleId, seq<Score>>,
                  k: nat, correct: nat, adds: bool)
    requires k < |order| && order[k] in grouped && grouped[order[k]] == GroupOf(scores, order[k])
    requires correct == CorrectAmong(scores, order[..k]) && adds == GroupCorrect(grouped[order[k]])
    ensures correct + (if adds then 1 else 0) == CorrectAmong(scores, order[..k + 1])
  {
    CorrectAmongStep(scores, order, k);
  }

  lemma CorrectAmongStep(scores: seq<SampleScore>, ids: seq<SampleId>, k: nat)
    requires k < |ids|
    ensures CorrectAmong(scores, ids[..k + 1])
      == CorrectAmong(scores, ids[..k]) + if GroupCorrect(GroupOf(scores, ids[k])) then 1 else 0
  {
    assert ids[..k + 1][..k] == ids[..k];
  }

  /** One turn of the second loop: a group without voting answers is skipped; otherwise it adds one
      when a score of value 1 carries the majority answer. */
  method ScoreGroup(group: seq<Score>) returns (adds: bool)
    ensures adds == GroupCorrect(group)
  {
    var answers := Answers(group);
    if answers == [] {
      return false;
    }
    var majority := MajorityOf(answers);
    adds := AnyCorrect(group, majority);
  }

  /** The value `metric_fn` returns: 0 for no scores, otherwise the fraction of correct groups,
      which lies in [0, 1]. */
  function MajValue(correct: nat, groups: nat): (r: real)
    requires correct <= groups
    ensures 0.0 <= r <= 1.0
    ensures groups > 0 ==> r * groups as real == correct as real
    ensures groups == 0 ==> r == 0.0
  {
    if groups == 0 then 0.0 else correct as real / groups as real
  }

  /** Ties go to the answer seen first; a strict majority wins wherever it first appears. */
  lemma MajorityExamples()
    ensures MajorityOf(["b", "a", "a", "b"]) == "b"
    ensures MajorityOf(["a", "b", "b"]) == "b"
  {
    var xs := ["b", "a", "a", "b"];
    assert Count(xs, "b") == 2 && Count(xs, "a") == 2;
    assert FirstIndex(xs, "a") == 1;
    var ys := ["a", "b", "b"];
    assert Count(ys, "a") == 1 && Count(ys, "b") == 2;
  }
}
