/** Ranking orchestration: features for every retrieval candidate, model
    scores attached, a stable sort by rank score, then the top k. */
module Ranker {

  import opened Common
  import opened Sorting
  import opened Features
  import opened RankingModel

  /** `c.get("score", 0.5)`. */
  function ScoreOrDefault(c: Candidate): real
  {
    c.score.GetOr(0.5)
  }

  function DefaultedScores(cs: seq<Candidate>): (r: seq<real>)
    ensures |r| == |cs| && forall i :: 0 <= i < |cs| ==> r[i] == ScoreOrDefault(cs[i])
  {
    seq(|cs|, i requires 0 <= i < |cs| => ScoreOrDefault(cs[i]))
  }

  /** The feature rows of the candidates: the candidate's score, defaulting
      to 0.5, feeds both the dense and the sparse slot. */
  function CandidateRows(query: string, cs: seq<Candidate>): (r: seq<seq<real>>)
    ensures |r| == |cs|
    ensures SixWide(r) && WellFormedRows(r)
    ensures forall i :: 0 <= i < |r| ==> r[i][0] == ScoreOrDefault(cs[i]) && r[i][1] == ScoreOrDefault(cs[i])
  {
    var texts, scores := CandidateTexts(cs), DefaultedScores(cs);
    BatchRowsWellFormed(query, texts, scores, scores);
    BatchRows(query, texts, scores, scores)
  }

  /** Copies of the candidates, candidate i carrying `scores[i]` as its rank
      score. */
  function WithRankScores(cs: seq<Candidate>, scores: seq<real>): (r: seq<Candidate>)
    requires |scores| == |cs|
    ensures |r| == |cs|
    ensures forall i :: 0 <= i < |cs| ==>
      r[i].text == cs[i].text && r[i].score == cs[i].score && r[i].rankScore == Some(scores[i])
  {
    seq(|cs|, i requires 0 <= i < |cs| => cs[i].(rankScore := Some(scores[i])))
  }

  predicate AllRankScored(cs: seq<Candidate>)
  {
    forall i :: 0 <= i < |cs| ==> cs[i].rankScore.Some?
  }

  /** The rank scores, the sort key `x["rank_score"]`. */
  function RankKeys(cs: seq<Candidate>): (r: seq<real>)
    requires AllRankScored(cs)
    ensures |r| == |cs| && forall i :: 0 <= i < |cs| ==> r[i] == cs[i].rankScore.value
  {
    seq(|cs|, i requires 0 <= i < |cs| => cs[i].rankScore.value)
  }

  /** r is `cs` rearranged by a stable descending sort on `keys`: a
      permutation of the positions that orders them by key, ties by
      position. */
  ghost predicate IsStableSortOf(r: seq<Candidate>, cs: seq<Candidate>, keys: seq<real>)
  {
    && |keys| == |cs|
    && exists order: seq<nat> ::
      && |order| == |cs| == |r|
      && (forall x: int :: x in order <==> 0 <= x < |cs|)
      && InStableDescOrder(keys, order)
      && (forall j :: 0 <= j < |r| ==> r[j] == cs[order[j]])
  }

  /** `sorted(cs, key=lambda x: x["rank_score"], reverse=True)`. */
  function SortByRankScore(cs: seq<Candidate>): (r: seq<Candidate>)
    requires AllRankScored(cs)
    ensures |r| == |cs| && AllRankScored(r)
    ensures IsStableSortOf(r, cs, RankKeys(cs))
    ensures NonIncreasing(RankKeys(r))
  {
    var keys := RankKeys(cs);
    var order := StableOrder(keys);
    var r := seq(|order|, j requires 0 <= j < |order| => cs[order[j]]);
    assert forall p, q :: 0 <= p < q < |r| ==> Precedes(keys, order[p], order[q]);
    r
  }

  /** Rank scores that are already non-increasing leave the stable sort
      nothing to move. */
  lemma SortOfNonIncreasingIsIdentity(cs: seq<Candidate>)
    requires AllRankScored(cs)
    requires NonIncreasing(RankKeys(cs))
    ensures SortByRankScore(cs) == cs
  {
    StableOrderOfNonIncreasing(RankKeys(cs), |cs|);
  }

  /** The loop of `rank_candidates` that copies each candidate and sets its
      `rank_score`; the inputs are left alone. */
  method AttachRankScores(cs: seq<Candidate>, scores: seq<real>) returns (ranked: seq<Candidate>)
    requires |scores| == |cs|
    ensures ranked == WithRankScores(cs, scores)
  {
    ghost var all := WithRankScores(cs, scores);
    ranked := [];
    var i := 0;
    while i < |cs|
      invariant 0 <= i <= |cs|
      invariant ranked == all[..i]
    {
      var copy := cs[i].(rankScore := Some(scores[i]));
      assert copy == all[i];
      ranked := ranked + [copy];
      assert all[..i + 1] == all[..i] + [all[i]];
      i := i + 1;
    }
    assert all[..i] == all;
  }

  /** The feature rows `rank_candidates` builds for its candidates. */
  method CandidateFeatures(query: string, candidates: seq<Candidate>) returns (features: seq<seq<real>>)
    ensures features == CandidateRows(query, candidates)
  {
    var docs := CandidateTexts(candidates);
    var dense := DefaultedScores(candidates);
    var sparse := DefaultedScores(candidates);
    features := ExtractBatch(query, docs, dense, sparse);
  }

  /** Attaching scores that are already non-increasing, then sorting by rank
      score, yields the candidates in input order. */
  method AttachAndSort(candidates: seq<Candidate>, rankScores: seq<real>) returns (ranked: seq<Candidate>)
    requires |rankScores| == |candidates| && NonIncreasing(rankScores)
    ensures ranked == WithRankScores(candidates, rankScores)
  {
    var attached := AttachRankScores(candidates, rankScores);
    assert RankKeys(attached) == rankScores;
    SortOfNonIncreasingIsIdentity(attached);
    ranked := SortByRankScore(attached);
  }

  class RankingOrchestrator {
    const model: LambdaRankModel

    constructor (model: LambdaRankModel)
      ensures this.model == model
    {
      this.model := model;
    }

    /** `rank_candidates`. The model returns its scores sorted, so candidate
        i receives the i-th largest score and the stable sort keeps the input
        order: the result is the first top_k candidates, as copies carrying
        those scores. */
    method RankCandidates(query: string, candidates: seq<Candidate>, topK: int) returns (r: seq<Candidate>)
      ensures candidates == [] ==> r == []
      ensures r == Take(WithRankScores(candidates, model.Rank(CandidateRows(query, candidates))), topK)
    {
      if |candidates| == 0 {
        return [];
      }
      var features := CandidateFeatures(query, candidates);
      var rankScores := model.Rank(features);
      var ranked := AttachAndSort(candidates, rankScores);
      r := Take(ranked, topK);
    }
  }

  /** What `rank_candidates` returns keeps min(top_k, n) candidates for a
      non-negative top_k, in non-increasing rank-score order, and its rank
      scores are the largest model scores. */
  lemma RankedCandidatesAreSorted(model: LambdaRankModel, query: string, cs: seq<Candidate>, topK: int)
    ensures var r := Take(WithRankScores(cs, model.Rank(CandidateRows(query, cs))), topK);
      && (topK >= 0 ==> |r| == MinInt(topK, |cs|))
      && AllRankScored(r)
      && NonIncreasing(RankKeys(r))
      && forall j :: 0 <= j < |r| ==> r[j].rankScore.value in multiset(model.RowScores(CandidateRows(query, cs)))
  {
    var rows := CandidateRows(query, cs);
    var scores := model.Rank(rows);
    TopOfScored(cs, scores, topK);
    var r := Take(WithRankScores(cs, scores), topK);
    forall j | 0 <= j < |r|
      ensures r[j].rankScore.value in multiset(model.RowScores(rows))
    {
      assert r[j].rankScore.value in multiset(scores);
    }
  }

  /** A prefix of candidates carrying non-increasing scores is in
      non-increasing rank-score order, its scores drawn from the list. */
  lemma TopOfScored(cs: seq<Candidate>, scores: seq<real>, topK: int)
    requires |scores| == |cs| && NonIncreasing(scores)
    ensures var r := Take(WithRankScores(cs, scores), topK);
      && (topK >= 0 ==> |r| == MinInt(topK, |cs|))
      && AllRankScored(r)
      && NonIncreasing(RankKeys(r))
      && forall j :: 0 <= j < |r| ==> r[j].rankScore.value == scores[j]
  {
    var all := WithRankScores(cs, scores);
    var r := Take(all, topK);
    assert forall j :: 0 <= j < |r| ==> r[j] == all[j];
    assert RankKeys(r) == scores[..|r|];
  }

  /** `simple_rank`: every input dict gets `rank_score` = its score (default
      0.5) in place, and the dicts come back stably sorted by it. */
  method SimpleRank(docs: array<Candidate>) returns (r: seq<Candidate>)
    modifies docs
    ensures forall i :: 0 <= i < docs.Length ==>
      docs[i] == old(docs[i]).(rankScore := Some(ScoreOrDefault(old(docs[i]))))
    ensures AllRankScored(docs[..]) && r == SortByRankScore(docs[..])
  {
    var i := 0;
    while i < docs.Length
      invariant 0 <= i <= docs.Length
      invariant forall j :: 0 <= j < i ==>
        docs[j] == old(docs[j]).(rankScore := Some(ScoreOrDefault(old(docs[j]))))
      invariant forall j :: i <= j < docs.Length ==> docs[j] == old(docs[j])
    {
      docs[i] := docs[i].(rankScore := Some(ScoreOrDefault(docs[i])));
      i := i + 1;
    }
    r := SortByRankScore(docs[..]);
  }
}
