/** The lexical retriever in the configuration without a BM25 library: every
    document is scored by the share of distinct query tokens it contains, and
    the best `top_k` documents are returned, ties in document order. */
module SparseRetrieval {

  import opened Common
  import opened Sorting
  import opened Text

  /** `len(query_tokens & set(doc_tokens)) / max(len(query_tokens), 1)`. */
  function OverlapScore(queryTokens: set<string>, docTokens: seq<string>): (r: real)
    ensures 0.0 <= r <= 1.0
    ensures queryTokens == {} ==> r == 0.0
  {
    var common := queryTokens * SetOf(docTokens);
    IntersectionSize(queryTokens, SetOf(docTokens));
    Ratio(|common|, MaxInt(|queryTokens|, 1))
  }

  /** The fallback score of every tokenized document, in document order. */
  function FallbackScores(tokenizedDocs: seq<seq<string>>, query: string): (r: seq<real>)
    ensures |r| == |tokenizedDocs|
    ensures forall i :: 0 <= i < |r| ==> r[i] == OverlapScore(SetOf(Tokenize(query)), tokenizedDocs[i])
  {
    seq(|tokenizedDocs|, i requires 0 <= i < |tokenizedDocs| =>
      OverlapScore(SetOf(Tokenize(query)), tokenizedDocs[i]))
  }

  function TokenizeAll(documents: seq<string>): (r: seq<seq<string>>)
    ensures |r| == |documents|
  {
    seq(|documents|, i requires 0 <= i < |documents| => Tokenize(documents[i]))
  }

  /** The hits for the chosen positions, each pairing `documents[i]` with the
      i-th score. */
  function HitsAt(documents: seq<string>, scores: seq<real>, order: seq<nat>): (r: seq<Hit>)
    requires |documents| == |scores|
    requires forall j :: 0 <= j < |order| ==> order[j] < |scores|
    ensures |r| == |order|
    ensures forall j :: 0 <= j < |r| ==> r[j].text == documents[order[j]] && r[j].score == scores[order[j]]
  {
    seq(|order|, j requires 0 <= j < |order| => Hit(documents[order[j]], scores[order[j]]))
  }

  /** What `search(query, top_k)` returns over `documents`. */
  function SparseSearch(documents: seq<string>, query: string, topK: int): seq<Hit>
  {
    var scores := FallbackScores(TokenizeAll(documents), query);
    HitsAt(documents, scores, TopPositions(scores, topK))
  }

  class SparseRetriever {
    const documents: seq<string>
    const tokenizedDocs: seq<seq<string>>

    ghost predicate Valid()
    {
      tokenizedDocs == TokenizeAll(documents)
    }

    constructor (documents: seq<string>)
      ensures Valid() && this.documents == documents
    {
      this.documents := documents;
      tokenizedDocs := TokenizeAll(documents);
    }

    /** Scores every document in a loop, then ranks the scores. */
    method Search(query: string, topK: int) returns (r: seq<Hit>)
      requires Valid()
      ensures r == SparseSearch(documents, query, topK)
    {
      var queryTokens := SetOf(Tokenize(query));
      ghost var all := FallbackScores(tokenizedDocs, query);
      var scores: seq<real> := [];
      var i := 0;
      while i < |tokenizedDocs|
        invariant 0 <= i <= |tokenizedDocs|
        invariant scores == all[..i]
      {
        var score := OverlapScore(queryTokens, tokenizedDocs[i]);
        SnocPrefix(all, scores, i, score);
        scores := scores + [score];
        i := i + 1;
      }
      assert all[..i] == all;
      var ranked := TopPositions(scores, topK);
      r := HitsAt(documents, scores, ranked);
    }
  }

  /** Every returned score is a share of the query's distinct tokens. */
  lemma ScoresInUnitInterval(documents: seq<string>, query: string, topK: int)
    ensures forall h :: h in SparseSearch(documents, query, topK) ==> 0.0 <= h.score <= 1.0
  {
    var scores := FallbackScores(TokenizeAll(documents), query);
    var order := TopPositions(scores, topK);
    forall h | h in SparseSearch(documents, query, topK)
      ensures 0.0 <= h.score <= 1.0
    {
      var j :| 0 <= j < |order| && SparseSearch(documents, query, topK)[j] == h;
      assert h.score == scores[order[j]];
    }
  }

  /** A query without any word character scores 0 against every document. */
  lemma EmptyQueryScoresZero(documents: seq<string>, query: string, topK: int)
    requires Tokenize(query) == []
    ensures forall h :: h in SparseSearch(documents, query, topK) ==> h.score == 0.0
  {
    assert SetOf(Tokenize(query)) == {};
    var scores := FallbackScores(TokenizeAll(documents), query);
    var hits := HitsAt(documents, scores, TopPositions(scores, topK));
    forall j | 0 <= j < |hits|
      ensures hits[j].score == 0.0
    {
    }
  }

  /** The score `search` gives a document for a query. */
  function QueryScore(query: string, document: string): (r: real)
    ensures 0.0 <= r <= 1.0
  {
    OverlapScore(SetOf(Tokenize(query)), Tokenize(document))
  }

  /** `r` is the list of hits for the document positions in `order`: distinct
      positions, each hit pairing a document with its score; scores never
      increase and equal scores keep document order; and every document left
      out scores below each hit, or the same and comes after it. */
  ghost predicate RankedHits(documents: seq<string>, query: string, r: seq<Hit>, order: seq<nat>)
  {
    && |order| == |r|
    && (forall p, q :: 0 <= p < q < |order| ==> order[p] != order[q])
    && (forall j :: 0 <= j < |order| ==>
          order[j] < |documents| && r[j] == Hit(documents[order[j]], QueryScore(query, documents[order[j]])))
    && (forall p, q :: 0 <= p < q < |order| ==>
          r[p].score > r[q].score || (r[p].score == r[q].score && order[p] < order[q]))
    && (forall x, j :: 0 <= x < |documents| && x !in order && 0 <= j < |order| ==>
          r[j].score > QueryScore(query, documents[x])
          || (r[j].score == QueryScore(query, documents[x]) && order[j] < x))
  }

  /** The result has min(top_k, n) hits for a non-negative top_k, and they
      are the stable top-k hits of the documents: there is an order of
      positions for which they are the `RankedHits`. */
  lemma SearchIsStableTopK(documents: seq<string>, query: string, topK: int)
    ensures var r := SparseSearch(documents, query, topK);
      && (topK >= 0 ==> |r| == MinInt(topK, |documents|))
      && exists order: seq<nat> :: RankedHits(documents, query, r, order)
  {
    var scores := FallbackScores(TokenizeAll(documents), query);
    var order := TopPositions(scores, topK);
    var r := SparseSearch(documents, query, topK);
    HitsAreScored(documents, query, scores, order, r);
    HitsAreOrdered(scores, order, r);
    HitsDominate(documents, query, scores, order, r);
    assert RankedHits(documents, query, r, order);
  }

  lemma HitsAreScored(documents: seq<string>, query: string, scores: seq<real>, order: seq<nat>, r: seq<Hit>)
    requires scores == FallbackScores(TokenizeAll(documents), query)
    requires forall j :: 0 <= j < |order| ==> order[j] < |scores|
    requires r == HitsAt(documents, scores, order)
    ensures forall j :: 0 <= j < |order| ==> r[j] == Hit(documents[order[j]], QueryScore(query, documents[order[j]]))
  {
    forall j | 0 <= j < |order|
      ensures r[j] == Hit(documents[order[j]], QueryScore(query, documents[order[j]]))
    {
      assert TokenizeAll(documents)[order[j]] == Tokenize(documents[order[j]]);
    }
  }

  lemma HitsAreOrdered(scores: seq<real>, order: seq<nat>, r: seq<Hit>)
    requires InStableDescOrder(scores, order)
    requires |r| == |order| && forall j :: 0 <= j < |order| ==> r[j].score == scores[order[j]]
    ensures forall p, q :: 0 <= p < q < |order| ==>
      r[p].score > r[q].score || (r[p].score == r[q].score && order[p] < order[q])
  {
    forall p, q | 0 <= p < q < |order|
      ensures r[p].score > r[q].score || (r[p].score == r[q].score && order[p] < order[q])
    {
      assert Precedes(scores, order[p], order[q]);
    }
  }

  lemma HitsDominate(documents: seq<string>, query: string, scores: seq<real>, order: seq<nat>, r: seq<Hit>)
    requires scores == FallbackScores(TokenizeAll(documents), query)
    requires forall j :: 0 <= j < |order| ==> order[j] < |scores|
    requires forall x, j :: 0 <= x < |scores| && x !in order && 0 <= j < |order| ==> Precedes(scores, order[j], x)
    requires |r| == |order| && forall j :: 0 <= j < |order| ==> r[j].score == scores[order[j]]
    ensures forall x, j :: 0 <= x < |documents| && x !in order && 0 <= j < |order| ==>
      r[j].score > QueryScore(query, documents[x])
      || (r[j].score == QueryScore(query, documents[x]) && order[j] < x)
  {
    forall x, j | 0 <= x < |documents| && x !in order && 0 <= j < |order|
      ensures r[j].score > QueryScore(query, documents[x])
        || (r[j].score == QueryScore(query, documents[x]) && order[j] < x)
    {
      assert Precedes(scores, order[j], x);
      assert TokenizeAll(documents)[x] == Tokenize(documents[x]);
    }
  }
}
