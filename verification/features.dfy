/** The six ranking features of a (query, document) pair, in the order
    dense score, sparse score, document length, query-document term overlap,
    recency decay, feedback signal. */
module Features {

  import opened Common
  import opened Text

  const DefaultRecency: real := 1.0
  const DefaultFeedback: real := 0.5

  /** Number of features per row. */
  const Width: nat := 6

  /** `min(1.0, len(doc.split()) / 500.0)`: the whitespace word count of the
      document, saturating at 500 words. */
  function LengthFeature(doc: string): (r: real)
    ensures 0.0 <= r <= 1.0
    ensures |Words(doc)| >= 500 ==> r == 1.0
    ensures |Words(doc)| < 500 ==> r * 500.0 == |Words(doc)| as real
  {
    MinReal(1.0, |Words(doc)| as real / 500.0)
  }

  /** The distinct lower-cased words of the query that the document also
      contains, over the raw word count of the query (at least 1). */
  function OverlapFeature(query: string, doc: string): (r: real)
    ensures 0.0 <= r <= 1.0
    ensures Words(query) == [] ==> r == 0.0
    ensures IsRatio(r, |SetOf(Words(Lower(query))) * SetOf(Words(Lower(doc)))|, MaxInt(|Words(query)|, 1))
  {
    var part := |SetOf(Words(Lower(query))) * SetOf(Words(Lower(doc)))|;
    var whole := MaxInt(|Words(query)|, 1);
    OverlapCount(query, doc);
    Ratio(part, whole)
  }

  /** The shared distinct words are no more than the query's words. */
  lemma OverlapCount(query: string, doc: string)
    ensures |SetOf(Words(Lower(query))) * SetOf(Words(Lower(doc)))| <= |Words(query)|
    ensures |SetOf(Words(Lower(query))) * SetOf(Words(Lower(doc)))| <= MaxInt(|Words(query)|, 1)
    ensures Words(query) == [] ==> |SetOf(Words(Lower(query))) * SetOf(Words(Lower(doc)))| == 0
  {
    var q := SetOf(Words(Lower(query)));
    WordsOfLower(query);
    IntersectionSize(q, SetOf(Words(Lower(doc))));
    SetOfSize(Words(Lower(query)));
  }

  /** `extract_features`: slots 0, 1, 4 and 5 are the inputs unchanged. */
  function ExtractFeatures(query: string, doc: string, dense: real, sparse: real,
                           recency: real, feedback: real): (r: seq<real>)
    ensures |r| == Width
    ensures r[0] == dense && r[1] == sparse && r[4] == recency && r[5] == feedback
    ensures r[2] == LengthFeature(doc) && 0.0 <= r[2] <= 1.0
    ensures r[3] == OverlapFeature(query, doc) && 0.0 <= r[3] <= 1.0
    ensures Words(query) == [] ==> r[3] == 0.0
  {
    [dense, sparse, LengthFeature(doc), OverlapFeature(query, doc), recency, feedback]
  }

  /** The rows `extract_batch` builds: one per position of the shortest list,
      with the default recency and feedback. */
  function BatchRows(query: string, docs: seq<string>, dense: seq<real>, sparse: seq<real>): (r: seq<seq<real>>)
    ensures |r| == MinInt(MinInt(|docs|, |dense|), |sparse|)
    ensures forall i :: 0 <= i < |r| ==>
      r[i] == ExtractFeatures(query, docs[i], dense[i], sparse[i], DefaultRecency, DefaultFeedback)
  {
    var n := MinInt(MinInt(|docs|, |dense|), |sparse|);
    seq(n, i requires 0 <= i < n =>
      ExtractFeatures(query, docs[i], dense[i], sparse[i], DefaultRecency, DefaultFeedback))
  }

  /** Every row is six features wide, its bounded features lie in [0, 1], and
      its defaulted features hold the defaults. */
  predicate WellFormedRows(rows: seq<seq<real>>)
  {
    forall i :: 0 <= i < |rows| ==>
      && |rows[i]| == Width
      && 0.0 <= rows[i][2] <= 1.0
      && 0.0 <= rows[i][3] <= 1.0
      && rows[i][4] == DefaultRecency
      && rows[i][5] == DefaultFeedback
  }

  /** `extract_batch`: the zip loop appending one row per position. */
  method ExtractBatch(query: string, docs: seq<string>, dense: seq<real>, sparse: seq<real>)
    returns (rows: seq<seq<real>>)
    ensures rows == BatchRows(query, docs, dense, sparse)
  {
    var n := MinInt(MinInt(|docs|, |dense|), |sparse|);
    ghost var all := BatchRows(query, docs, dense, sparse);
    rows := [];
    var i := 0;
    while i < n
      invariant 0 <= i <= n == |all|
      invariant rows == all[..i]
    {
      var feat := ExtractFeatures(query, docs[i], dense[i], sparse[i], DefaultRecency, DefaultFeedback);
      SnocPrefix(all, rows, i, feat);
      rows := rows + [feat];
      i := i + 1;
    }
    assert all[..n] == all;
  }

  /** Every batch row is well formed and carries the zipped scores. */
  lemma BatchRowsWellFormed(query: string, docs: seq<string>, dense: seq<real>, sparse: seq<real>)
    ensures WellFormedRows(BatchRows(query, docs, dense, sparse))
    ensures forall i :: 0 <= i < |BatchRows(query, docs, dense, sparse)| ==>
      BatchRows(query, docs, dense, sparse)[i][0] == dense[i]
      && BatchRows(query, docs, dense, sparse)[i][1] == sparse[i]
  {
    var rows := BatchRows(query, docs, dense, sparse);
    forall i | 0 <= i < |rows|
      ensures |rows[i]| == Width && 0.0 <= rows[i][2] <= 1.0 && 0.0 <= rows[i][3] <= 1.0
      ensures rows[i][4] == DefaultRecency && rows[i][5] == DefaultFeedback
      ensures rows[i][0] == dense[i] && rows[i][1] == sparse[i]
    {
      var f := ExtractFeatures(query, docs[i], dense[i], sparse[i], DefaultRecency, DefaultFeedback);
      assert rows[i] == f;
    }
  }
}
