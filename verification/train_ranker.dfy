/** Training data from the interaction log: records grouped by query in
    order of first appearance, one mock feature row and one label per record
    of every query asked at least twice. */
module TrainRanker {

  import opened Common
  import opened Feedback

  const MockRecency: real := 0.9
  const SparseShare: real := 0.9
  const LoadLimit: int := 10000
  const DefaultMinFeedback: int := 50

  /** What `generate_training_data` produces: `None` (too few logs or no
      qualifying rows), the `TypeError` raised by `len(None)` when a
      qualifying group holds a record without answer text, or the training
      arrays. */
  datatype Outcome =
    | NoData
    | AnswerIsNone
    | Generated(x: seq<seq<real>>, y: seq<real>, groupSizes: seq<nat>)

  /** The label: the confidence when the record was marked helpful and was
      not refused, otherwise 0. */
  function Label(rec: Record): (r: real)
    ensures rec.refused || rec.userFeedback.helpful != Some(true) ==> r == 0.0
    ensures !rec.refused && rec.userFeedback.helpful == Some(true) ==> r == rec.confidence
  {
    (if rec.userFeedback.helpful.GetOr(false) then 1.0 else 0.0) * rec.confidence * (if rec.refused then 0.0 else 1.0)
  }

  /** The mock feature row of one record with answer text. */
  function RowOf(rec: Record): (r: seq<real>)
    requires rec.answer.Some?
    ensures |r| == 6 && r[4] == MockRecency && r[5] == Label(rec)
    ensures r[0] == rec.confidence && r[1] == SparseShare * rec.confidence
    ensures r[2] * 100.0 == |rec.answer.value| as real && r[3] * 3.0 == |rec.citations| as real
  {
    [rec.confidence, rec.confidence * SparseShare, |rec.answer.value| as real / 100.0,
     |rec.citations| as real / 3.0, MockRecency, Label(rec)]
  }

  predicate AllAnswered(rs: seq<Record>)
  {
    forall i :: 0 <= i < |rs| ==> rs[i].answer.Some?
  }

  function RowsOf(rs: seq<Record>): (r: seq<seq<real>>)
    requires AllAnswered(rs)
    ensures |r| == |rs| && forall i :: 0 <= i < |rs| ==> r[i] == RowOf(rs[i])
  {
    if rs == [] then [] else RowsOf(rs[..|rs| - 1]) + [RowOf(rs[|rs| - 1])]
  }

  function Labels(rs: seq<Record>): (r: seq<real>)
    ensures |r| == |rs| && forall i :: 0 <= i < |rs| ==> r[i] == Label(rs[i])
  {
    if rs == [] then [] else Labels(rs[..|rs| - 1]) + [Label(rs[|rs| - 1])]
  }

  /** The distinct queries in order of first appearance (the key order of
      the grouping dict). */
  function QueryOrder(logs: seq<Record>): (r: seq<string>)
    ensures forall q :: q in r <==> exists i :: 0 <= i < |logs| && logs[i].query == q
    ensures forall p, q :: 0 <= p < q < |r| ==> r[p] != r[q]
  {
    if logs == [] then []
    else
      var n := |logs| - 1;
      var prev := QueryOrder(logs[..n]);
      assert forall i :: 0 <= i < n ==> logs[..n][i] == logs[i];
      if logs[n].query in prev then prev else prev + [logs[n].query]
  }

  /** The records asked with query `q`, in log order. */
  function Group(logs: seq<Record>, q: string): (r: seq<Record>)
    ensures |r| <= |logs|
    ensures forall x :: x in r ==> x in logs && x.query == q
    ensures r != [] <==> exists i :: 0 <= i < |logs| && logs[i].query == q
  {
    if logs == [] then []
    else
      var n := |logs| - 1;
      var prev := Group(logs[..n], q);
      assert forall i :: 0 <= i < n ==> logs[..n][i] == logs[i];
      assert forall x :: x in logs[..n] ==> x in logs;
      if logs[n].query == q then prev + [logs[n]] else prev
  }

  /** The rows, labels and group sizes of the groups of `qs` with at least
      two records, in order; a qualifying group with a record without answer
      text fails the whole run. */
  function Assemble(logs: seq<Record>, qs: seq<string>): (r: Outcome)
    ensures !r.NoData?
    ensures r.Generated? ==> |r.x| == |r.y| == SumNat(r.groupSizes)
    ensures r.Generated? ==> forall i :: 0 <= i < |r.groupSizes| ==> r.groupSizes[i] >= 2
    ensures r.Generated? ==> forall i :: 0 <= i < |r.x| ==> |r.x[i]| == 6 && r.y[i] == r.x[i][5]
  {
    if qs == [] then Generated([], [], [])
    else
      var prev := Assemble(logs, qs[..|qs| - 1]);
      var g := Group(logs, qs[|qs| - 1]);
      if prev.AnswerIsNone? || |g| < 2 then prev
      else if !AllAnswered(g) then AnswerIsNone
      else Generated(prev.x + RowsOf(g), prev.y + Labels(g), prev.groupSizes + [|g|])
  }

  /** `generate_training_data` on the loaded logs. */
  function TrainingData(logs: seq<Record>, minFeedback: int): (r: Outcome)
    ensures |logs| < minFeedback ==> r == NoData
    ensures r.Generated? ==> r.x != [] && |r.x| == |r.y| == SumNat(r.groupSizes)
    ensures r.Generated? ==> forall i :: 0 <= i < |r.groupSizes| ==> r.groupSizes[i] >= 2
    ensures r.Generated? ==> forall i :: 0 <= i < |r.x| ==> |r.x[i]| == 6 && r.y[i] == r.x[i][5]
  {
    if |logs| < minFeedback then NoData
    else
      var a := Assemble(logs, QueryOrder(logs));
      if a.Generated? && a.x == [] then NoData else a
  }

  function SumNat(xs: seq<nat>): nat
  {
    if xs == [] then 0 else SumNat(xs[..|xs| - 1]) + xs[|xs| - 1]
  }

  /** The grouping loop's state after a prefix of the logs. */
  ghost predicate Grouped(prefix: seq<Record>, order: seq<string>, data: map<string, seq<Record>>)
  {
    && order == QueryOrder(prefix)
    && (forall q :: q in data <==> q in order)
    && (forall q :: q in data ==> data[q] == Group(prefix, q))
  }

  lemma GroupStep(logs: seq<Record>, i: nat, order: seq<string>, data: map<string, seq<Record>>)
    requires i < |logs| && Grouped(logs[..i], order, data)
    ensures var q := logs[i].query;
      var order' := if q in data then order else order + [q];
      var data' := data[q := (if q in data then data[q] else []) + [logs[i]]];
      Grouped(logs[..i + 1], order', data')
  {
    var q := logs[i].query;
    var order' := if q in data then order else order + [q];
    var data' := data[q := (if q in data then data[q] else []) + [logs[i]]];
    QueryOrderSnoc(logs, i);
    assert order' == QueryOrder(logs[..i + 1]);
    forall q' ensures q' in data' <==> q' in order' {
      assert q' in order' <==> q' in order || q' == q;
    }
    forall q' | q' in data'
      ensures data'[q'] == Group(logs[..i + 1], q')
    {
      GroupSnoc(logs, i, q');
    }
    GroupedIntro(logs[..i + 1], order', data');
  }

  lemma GroupedIntro(prefix: seq<Record>, order: seq<string>, data: map<string, seq<Record>>)
    requires order == QueryOrder(prefix)
    requires forall q :: q in data <==> q in order
    requires forall q :: q in data ==> data[q] == Group(prefix, q)
    ensures Grouped(prefix, order, data)
  {
  }

  lemma QueryOrderSnoc(logs: seq<Record>, i: nat)
    requires i < |logs|
    ensures var prev := QueryOrder(logs[..i]);
      QueryOrder(logs[..i + 1]) == if logs[i].query in prev then prev else prev + [logs[i].query]
  {
    assert logs[..i + 1][..i] == logs[..i];
  }

  lemma GroupSnoc(logs: seq<Record>, i: nat, q: string)
    requires i < |logs|
    ensures Group(logs[..i + 1], q) == Group(logs[..i], q) + (if logs[i].query == q then [logs[i]] else [])
  {
    assert logs[..i + 1][..i] == logs[..i];
  }

  /** One more query of the list: its group is appended when it has at
      least two records, unless the run has already failed. */
  lemma AssembleStep(logs: seq<Record>, qs: seq<string>, k: nat)
    requires k < |qs|
    ensures var prev := Assemble(logs, qs[..k]);
      var g := Group(logs, qs[k]);
      Assemble(logs, qs[..k + 1]) ==
        if prev.AnswerIsNone? || |g| < 2 then prev
        else if !AllAnswered(g) then AnswerIsNone
        else Generated(prev.x + RowsOf(g), prev.y + Labels(g), prev.groupSizes + [|g|])
  {
    assert qs[..k + 1][..k] == qs[..k];
  }

  /** One step of the assembly loop, from the state reached so far. */
  lemma GeneratedStep(logs: seq<Record>, qs: seq<string>, k: nat,
                      x: seq<seq<real>>, y: seq<real>, sizes: seq<nat>)
    requires k < |qs| && Assemble(logs, qs[..k]) == Generated(x, y, sizes)
    ensures var g := Group(logs, qs[k]);
      && (|g| < 2 ==> Assemble(logs, qs[..k + 1]) == Generated(x, y, sizes))
      && (|g| >= 2 && !AllAnswered(g) ==> Assemble(logs, qs[..k + 1]).AnswerIsNone?)
      && (|g| >= 2 && AllAnswered(g) ==>
            Assemble(logs, qs[..k + 1]) == Generated(x + RowsOf(g), y + Labels(g), sizes + [|g|]))
  {
    AssembleStep(logs, qs, k);
  }

  /** Once a group fails, every longer list of queries fails. */
  lemma {:induction false} FailureSticks(logs: seq<Record>, qs: seq<string>, k: nat)
    requires k <= |qs| && Assemble(logs, qs[..k]).AnswerIsNone?
    ensures Assemble(logs, qs).AnswerIsNone?
    decreases |qs| - k
  {
    if k < |qs| {
      assert qs[..k + 1][..k] == qs[..k];
      FailureSticks(logs, qs, k + 1);
    } else {
      assert qs[..k] == qs;
    }
  }

  /** The row-building loop over one qualifying group, appending to the
      rows built so far; `AnswerIsNone` as soon as a record lacks answer
      text. */
  method AppendGroup(g: seq<Record>, x0: seq<seq<real>>, y0: seq<real>) returns (failed: bool, x: seq<seq<real>>, y: seq<real>)
    ensures failed <==> !AllAnswered(g)
    ensures !failed ==> x == x0 + RowsOf(g) && y == y0 + Labels(g)
  {
    x, y := x0, y0;
    var j := 0;
    while j < |g|
      invariant 0 <= j <= |g|
      invariant AllAnswered(g[..j])
      invariant x == x0 + RowsOf(g[..j]) && y == y0 + Labels(g[..j])
    {
      if g[j].answer.None? {
        return true, x, y;
      }
      assert g[..j + 1][..j] == g[..j];
      x := x + [RowOf(g[j])];
      y := y + [Label(g[j])];
      j := j + 1;
    }
    assert g[..j] == g;
    failed := false;
  }

  /** Groups the logs by query: the queries in order of first appearance
      and each query's records in log order. */
  method GroupByQuery(logs: seq<Record>) returns (order: seq<string>, data: map<string, seq<Record>>)
    ensures Grouped(logs, order, data)
  {
    order, data := [], map[];
    var i := 0;
    while i < |logs|
      invariant 0 <= i <= |logs|
      invariant Grouped(logs[..i], order, data)
    {
      GroupStep(logs, i, order, data);
      var q := logs[i].query;
      var existing := if q in data then data[q] else [];
      if q !in data {
        order := order + [q];
      }
      data := data[q := existing + [logs[i]]];
      i := i + 1;
    }
    assert logs[..i] == logs;
  }

  /** Builds the rows of every grouped query asked at least twice. */
  method AssembleGroups(logs: seq<Record>, order: seq<string>, data: map<string, seq<Record>>) returns (r: Outcome)
    requires Grouped(logs, order, data)
    ensures r == Assemble(logs, order)
  {
    var x: seq<seq<real>> := [];
    var y: seq<real> := [];
    var sizes: seq<nat> := [];
    var k := 0;
    while k < |order|
      invariant 0 <= k <= |order|
      invariant Assemble(logs, order[..k]) == Generated(x, y, sizes)
    {
      assert order[k] in order;
      var failed;
      failed, x, y, sizes := AssembleNext(logs, order, k, data[order[k]], x, y, sizes);
      if failed {
        FailureSticks(logs, order, k + 1);
        return AnswerIsNone;
      }
      k := k + 1;
    }
    assert order[..k] == order;
    r := Generated(x, y, sizes);
  }

  /** The body of the assembly loop for the k-th query: a group of two or
      more rows is appended, unless one of its interactions has no answer. */
  method AssembleNext(logs: seq<Record>, order: seq<string>, k: nat, results: seq<Record>,
                      x0: seq<seq<real>>, y0: seq<real>, sizes0: seq<nat>)
    returns (failed: bool, x: seq<seq<real>>, y: seq<real>, sizes: seq<nat>)
    requires k < |order| && results == Group(logs, order[k])
    requires Assemble(logs, order[..k]) == Generated(x0, y0, sizes0)
    ensures failed ==> Assemble(logs, order[..k + 1]).AnswerIsNone?
    ensures !failed ==> Assemble(logs, order[..k + 1]) == Generated(x, y, sizes)
  {
    GeneratedStep(logs, order, k, x0, y0, sizes0);
    x, y, sizes := x0, y0, sizes0;
    failed := false;
    if |results| >= 2 {
      failed, x, y := AppendGroup(results, x0, y0);
      sizes := sizes0 + [|results|];
    }
  }

  /** `generate_training_data` on the given logs. */
  method BuildTrainingData(logs: seq<Record>, minFeedback: int) returns (r: Outcome)
    ensures r == TrainingData(logs, minFeedback)
  {
    if |logs| < minFeedback {
      return NoData;
    }
    var order, data := GroupByQuery(logs);
    r := AssembleGroups(logs, order, data);
    if r.Generated? && r.x == [] {
      r := NoData;
    }
  }

  class TrainingPipeline {
    const modelDir: string
    const minFeedback: int
    const feedback: FeedbackCollector

    constructor (modelDir: string, minFeedback: int, feedback: FeedbackCollector)
      ensures this.modelDir == modelDir && this.minFeedback == minFeedback && this.feedback == feedback
    {
      this.modelDir := modelDir;
      this.minFeedback := minFeedback;
      this.feedback := feedback;
    }

    /** `generate_training_data`: the training data of the first 10000 log
        lines. */
    method GenerateTrainingData() returns (r: Outcome)
      ensures r == TrainingData(Loaded(feedback.file, LoadLimit), minFeedback)
    {
      var logs := feedback.LoadFeedbackLogs(LoadLimit);
      r := BuildTrainingData(logs, minFeedback);
    }
  }

  /** Every label is 0 or the record's confidence, and a refused record's
      label is 0. */
  lemma LabelsOfRefusedAreZero(rs: seq<Record>)
    ensures forall i :: 0 <= i < |rs| && rs[i].refused ==> Labels(rs)[i] == 0.0
    ensures forall i :: 0 <= i < |rs| ==> Labels(rs)[i] == 0.0 || Labels(rs)[i] == rs[i].confidence
  {
  }

  /** A query asked only once contributes nothing: its records are left out
      of the assembled rows. */
  lemma {:induction false} SingleQueriesContributeNothing(logs: seq<Record>, qs: seq<string>, q: string)
    requires |Group(logs, q)| < 2
    ensures Assemble(logs, qs + [q]) == Assemble(logs, qs)
  {
    assert (qs + [q])[..|qs + [q]| - 1] == qs;
  }

  /** A record without answer text (every refused interaction is logged so)
      whose query appears at least twice makes the run fail, once there are
      enough logs. */
  lemma UnansweredRepeatedQueryFails(logs: seq<Record>, minFeedback: int, i: nat)
    requires |logs| >= minFeedback
    requires i < |logs| && logs[i].answer.None? && |Group(logs, logs[i].query)| >= 2
    ensures TrainingData(logs, minFeedback) == AnswerIsNone
  {
    var order := QueryOrder(logs);
    var q := logs[i].query;
    var k := PositionOfQuery(logs, i);
    AssembleStep(logs, order, k);
    var g := Group(logs, q);
    GroupHolds(logs, q, i);
    var j :| 0 <= j < |g| && g[j] == logs[i];
    assert !AllAnswered(g);
    FailureSticks(logs, order, k + 1);
  }

  /** Where a record's query stands in the order of first appearance. */
  lemma PositionOfQuery(logs: seq<Record>, i: nat) returns (k: nat)
    requires i < |logs|
    ensures k < |QueryOrder(logs)| && QueryOrder(logs)[k] == logs[i].query
  {
    var order := QueryOrder(logs);
    assert exists j :: 0 <= j < |logs| && logs[j].query == logs[i].query;
    assert logs[i].query in order;
    k :| 0 <= k < |order| && order[k] == logs[i].query;
  }

  /** A record is in the group of its query. */
  lemma {:induction false} GroupHolds(logs: seq<Record>, q: string, i: nat)
    requires i < |logs| && logs[i].query == q
    ensures logs[i] in Group(logs, q)
  {
    var n := |logs| - 1;
    if i < n {
      assert logs[..n][i] == logs[i];
      GroupHolds(logs[..n], q, i);
    }
  }
}
