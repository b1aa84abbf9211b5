/** The query pipeline: hybrid retrieval, ranking of the top five, the gated
    answer, then the metrics record and the interaction log entry. The query
    id, the interaction id, the clock and the dense index are parameters. */
module Pipeline {

  import opened Common
  import opened HybridRetrieval
  import DenseRetrieval
  import SparseRetrieval
  import opened Ranker
  import Constrained
  import Feedback
  import Monitoring

  const TopK: int := 5
  const ConfidenceThreshold: real := 0.5
  const MaxTokens: int := 256

  /** The dict `run_pipeline` returns. */
  datatype Response = Response(queryId: string, answer: Option<string>, citations: seq<string>,
                               confidence: real, refused: bool, latencyMs: real)

  function AsCandidates(hits: seq<Hit>): (r: seq<Candidate>)
    ensures |r| == |hits| && forall i :: 0 <= i < |hits| ==> r[i] == AsCandidate(hits[i])
  {
    seq(|hits|, i requires 0 <= i < |hits| => AsCandidate(hits[i]))
  }

  /** `min(1.0, len(candidates) / max(len(docs), 1))`. */
  function RetrievalRecall(found: nat, docs: nat): (r: real)
    ensures 0.0 <= r <= 1.0
    ensures found >= MaxInt(docs, 1) ==> r == 1.0
    ensures found < docs ==> r * docs as real == found as real
  {
    MinReal(1.0, found as real / MaxInt(docs, 1) as real)
  }

  /** The rank scores, with 0 for a candidate without one. */
  function RankScores(ranked: seq<Candidate>): (r: seq<real>)
    ensures |r| == |ranked| && forall i :: 0 <= i < |ranked| ==> r[i] == ranked[i].rankScore.GetOr(0.0)
  {
    seq(|ranked|, i requires 0 <= i < |ranked| => ranked[i].rankScore.GetOr(0.0))
  }

  /** The mean rank score of the ranked candidates, 0 when there are none. */
  function RankerNdcg(ranked: seq<Candidate>): (r: real)
    ensures ranked == [] ==> r == 0.0
    ensures ranked != [] ==> Monitoring.MinOf(RankScores(ranked)) <= r <= Monitoring.MaxOf(RankScores(ranked))
  {
    var scores := RankScores(ranked);
    if ranked == [] then 0.0
    else
      Monitoring.MeanBounds(scores);
      Sum(scores) / |ranked| as real
  }

  class QueryPipeline {
    const docs: seq<string>
    const hybrid: HybridRetriever
    const ranker: RankingOrchestrator
    const metrics: Monitoring.MetricsCollector
    const feedback: Feedback.FeedbackCollector

    /** Both retrievers are built over the corpus that retrieval recall
        divides by. */
    ghost predicate Valid()
    {
      && hybrid.dense.Valid() && hybrid.sparse.Valid()
      && hybrid.dense.docs == docs && hybrid.sparse.documents == docs
    }

    constructor (docs: seq<string>, hybrid: HybridRetriever, ranker: RankingOrchestrator,
                 metrics: Monitoring.MetricsCollector, feedback: Feedback.FeedbackCollector)
      requires hybrid.dense.Valid() && hybrid.sparse.Valid()
      requires hybrid.dense.docs == docs && hybrid.sparse.documents == docs
      ensures Valid()
      ensures this.docs == docs && this.hybrid == hybrid && this.ranker == ranker
      ensures this.metrics == metrics && this.feedback == feedback
    {
      this.docs := docs;
      this.hybrid := hybrid;
      this.ranker := ranker;
      this.metrics := metrics;
      this.feedback := feedback;
    }

    /** The retrieval candidates for a query. */
    function Candidates(query: string, index: DenseRetrieval.IndexSearch): (r: seq<Candidate>)
      requires Valid() && hybrid.dense.IndexFits(query, 50, index)
      ensures forall i :: 0 <= i < |r| ==> r[i].rankScore.None? && r[i].score.Some?
    {
      AsCandidates(Fused(hybrid.dense.Search(query, 50, index)
        + SparseRetrieval.SparseSearch(hybrid.sparse.documents, query, 50)))
    }

    /** Retrieval, re-ranking of the top five and the gated synthesis. */
    method Answer(query: string, index: DenseRetrieval.IndexSearch)
      returns (candidates: seq<Candidate>, ranked: seq<Candidate>, answer: Constrained.Answer)
      requires Valid() && hybrid.dense.IndexFits(query, 50, index)
      ensures candidates == Candidates(query, index)
      ensures ranked == Ranked(ranker.model, query, candidates)
      ensures answer == Constrained.Synthesize(query, ranked, ConfidenceThreshold, MaxTokens)
    {
      var hits := hybrid.Search(query, index);
      candidates := AsCandidates(hits);
      ranked := ranker.RankCandidates(query, candidates, TopK);
      answer := Constrained.Synthesize(query, ranked, ConfidenceThreshold, MaxTokens);
    }

    /** `run_pipeline`: the answer is the gated synthesis over the ranked top
        five; one metrics record and one interaction record are appended. */
    method RunPipeline(query: string, index: DenseRetrieval.IndexSearch, queryId: string,
                       interactionId: string, latencyMs: real, now: string) returns (resp: Response)
      requires Valid() && hybrid.dense.IndexFits(query, 50, index) && metrics.Valid()
      modifies metrics, feedback
      ensures metrics.Valid()
      ensures var cands := Candidates(query, index);
        var ranked := old(Ranked(ranker.model, query, cands));
        var a := Constrained.Synthesize(query, ranked, ConfidenceThreshold, MaxTokens);
        && resp == Response(queryId, a.answer, a.citations, a.confidence, a.refused, latencyMs)
        && metrics.written == old(metrics.written) + [Monitoring.QueryRecord(queryId, now, latencyMs,
             RetrievalRecall(|cands|, |docs|), RankerNdcg(ranked), a.refused, a.confidence)]
        && metrics.latency == old(metrics.latency) + [latencyMs]
        && metrics.recall == old(metrics.recall) + [RetrievalRecall(|cands|, |docs|)]
        && metrics.ndcg == old(metrics.ndcg) + [RankerNdcg(ranked)]
        && metrics.refused == old(metrics.refused) + [a.refused]
        && metrics.confidence == old(metrics.confidence) + [a.confidence]
        && feedback.file == Some(old(feedback.file).GetOr([])
             + [Feedback.Parsed(Feedback.MakeRecord(interactionId, now, query, Feedback.FromAnswer(a), None))])
    {
      var candidates, ranked, answer := Answer(query, index);
      Record(query, queryId, interactionId, latencyMs, now,
             RetrievalRecall(|candidates|, |docs|), RankerNdcg(ranked), answer);
      resp := Response(queryId, answer.answer, answer.citations, answer.confidence, answer.refused, latencyMs);
    }

    /** The two records `run_pipeline` appends for an answer. */
    method Record(query: string, queryId: string, interactionId: string, latencyMs: real, now: string,
                  recall: real, ndcg: real, a: Constrained.Answer)
      requires metrics.Valid()
      modifies metrics, feedback
      ensures metrics.Valid()
      ensures metrics.written == old(metrics.written)
                + [Monitoring.QueryRecord(queryId, now, latencyMs, recall, ndcg, a.refused, a.confidence)]
      ensures metrics.latency == old(metrics.latency) + [latencyMs]
      ensures metrics.recall == old(metrics.recall) + [recall] && metrics.ndcg == old(metrics.ndcg) + [ndcg]
      ensures metrics.refused == old(metrics.refused) + [a.refused]
      ensures metrics.confidence == old(metrics.confidence) + [a.confidence]
      ensures feedback.file == Some(old(feedback.file).GetOr([])
                + [Feedback.Parsed(Feedback.MakeRecord(interactionId, now, query, Feedback.FromAnswer(a), None))])
    {
      metrics.RecordQuery(queryId, now, latencyMs, recall, ndcg, a.refused, a.confidence);
      var _ := feedback.LogInteraction(query, Feedback.FromAnswer(a), None, interactionId, now);
    }
  }

  /** What `rank_candidates(query, candidates, top_k=5)` returns. */
  function Ranked(model: RankingModel.LambdaRankModel, query: string, cands: seq<Candidate>): (r: seq<Candidate>)
    reads model
    ensures |r| == MinInt(5, |cands|)
    ensures forall j :: 0 <= j < |r| ==> r[j].text == cands[j].text
  {
    Take(WithRankScores(cands, model.Rank(CandidateRows(query, cands))), TopK)
  }

  /** No retrieval candidates means a refusal for lack of context. */
  lemma NoCandidatesRefuses(model: RankingModel.LambdaRankModel, query: string)
    ensures var a := Constrained.Synthesize(query, Ranked(model, query, []), ConfidenceThreshold, MaxTokens);
      a.refused && a.answer.None? && a.reason == Some(Constrained.NoRelevantContext) && a.confidence == 0.0
  {
  }

  /** Every citation the pipeline returns is a prefix, at most 100
      characters long, of one of the first three retrieval candidates. */
  lemma CitationsComeFromCandidates(model: RankingModel.LambdaRankModel, query: string, cands: seq<Candidate>)
    ensures var a := Constrained.Synthesize(query, Ranked(model, query, cands), ConfidenceThreshold, MaxTokens);
      forall i :: 0 <= i < |a.citations| ==> i < 3 && i < |cands| && a.citations[i] <= cands[i].text && |a.citations[i]| <= 100
  {
    var ranked := Ranked(model, query, cands);
    var a := Constrained.Synthesize(query, ranked, ConfidenceThreshold, MaxTokens);
    if !a.refused {
      var cs := Constrained.Citations(ranked);
      assert a.citations == cs;
      forall i | 0 <= i < |cs|
        ensures i < 3 && i < |cands| && cs[i] <= cands[i].text && |cs[i]| <= 100
      {
        assert ranked[i].text == cands[i].text;
      }
    }
  }

  /** An answer is returned only when its confidence reaches 0.5, and it
      is at most 256 characters long. */
  lemma AnswersClearTheGate(model: RankingModel.LambdaRankModel, query: string, cands: seq<Candidate>)
    ensures var a := Constrained.Synthesize(query, Ranked(model, query, cands), ConfidenceThreshold, MaxTokens);
      a.answer.Some? ==> a.confidence >= ConfidenceThreshold && |a.answer.value| <= MaxTokens && !a.refused
  {
  }
}
