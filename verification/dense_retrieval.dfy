/** The semantic retriever. Embedding models, the hash-seeded pseudo-random
    embedding and the inner-product index are outside the model: encoders are
    deterministic functions given to the constructor, and the index search is a
    function given to `Search`. */
module DenseRetrieval {

  import opened Common
  import opened Sorting

  /** A text encoder: the same text always gets the same vector. */
  type Encoder = string -> seq<real>

  /** `_deterministic_embedding(text, dim)`. */
  type SeededEncoder = (string, int) -> seq<real>

  /** One row of an index answer: a score and the id of a stored vector,
      or -1 where the index holds fewer than k vectors. */
  datatype IndexHit = IndexHit(score: real, id: int)

  /** A foreign inner-product index: (query vector, k) to scored ids. */
  type IndexSearch = (seq<real>, nat) -> seq<IndexHit>

  /** The ids an index over n stored vectors reports: a stored position,
      or -1 for padding. */
  predicate IndexIds(hits: seq<IndexHit>, n: nat)
  {
    forall j :: 0 <= j < |hits| ==> -1 <= hits[j].id < n
  }

  /** `{"text": docs[i], "score": s}` for every id i of the index answer,
      in the index's order. Python reads the padding id -1 as the last
      document. */
  function IndexHits(docs: seq<string>, hits: seq<IndexHit>): (r: seq<Hit>)
    requires docs != [] && IndexIds(hits, |docs|)
    ensures |r| == |hits|
    ensures forall j :: 0 <= j < |r| ==> r[j].score == hits[j].score
    ensures forall j :: 0 <= j < |r| && hits[j].id >= 0 ==> r[j].text == docs[hits[j].id]
    ensures forall j :: 0 <= j < |r| && hits[j].id == -1 ==> r[j].text == docs[|docs| - 1]
  {
    seq(|hits|, j requires 0 <= j < |hits| =>
      var i := hits[j].id;
      Hit(docs[if i < 0 then |docs| + i else i], hits[j].score))
  }

  /** The inner product of two vectors. Vectors of different lengths are
      cut to the shorter one, where numpy raises; the encoders are taken to
      give every text a vector of the same width, so this never arises. */
  function Dot(u: seq<real>, v: seq<real>): real
  {
    if u == [] || v == [] then 0.0 else u[0] * v[0] + Dot(u[1..], v[1..])
  }

  /** `(emb @ q.T).flatten()`: one similarity per document row. */
  function Similarities(emb: seq<seq<real>>, q: seq<real>): (r: seq<real>)
    ensures |r| == |emb|
  {
    seq(|emb|, i requires 0 <= i < |emb| => Dot(emb[i], q))
  }

  /** The positions the brute-force branch keeps: k is clamped to the number
      of documents, and a clamped k of 0 keeps none. */
  function KeptPositions(sims: seq<real>, k: nat): (top: seq<nat>)
    ensures |top| == MinInt(k, |sims|)
    ensures InStableDescOrder(sims, top)
    ensures forall p, q :: 0 <= p < q < |top| ==> top[p] != top[q]
  {
    var k' := MinInt(k, |sims|);
    if k' == 0 then [] else TopPositions(sims, k')
  }

  /** The brute-force branch of `search`: `{text: docs[i], score: sims[i]}`
      for every kept position i, best first. */
  function BruteForceTopK(docs: seq<string>, sims: seq<real>, k: nat): (r: seq<Hit>)
    requires |docs| == |sims|
    ensures |r| == MinInt(k, |sims|)
  {
    var top := KeptPositions(sims, k);
    seq(|top|, j requires 0 <= j < |top| => Hit(docs[top[j]], sims[top[j]]))
  }

  class DenseRetriever {
    const docs: seq<string>
    const dim: int
    const model: Option<Encoder>
    const useRealModel: bool
    const seeded: SeededEncoder
    const emb: seq<seq<real>>
    const useFaiss: bool

    /** `_encode([t])`: the loaded model when there is one, else the seeded
        pseudo-embedding. */
    function Encode(t: string): seq<real>
    {
      if useRealModel && model.Some? then model.value(t) else seeded(t, dim)
    }

    ghost predicate Valid()
    {
      && (useFaiss ==> useRealModel)
      && (useRealModel <==> model.Some?)
      && docs != []
      && |emb| == |docs|
      && forall i :: 0 <= i < |docs| ==> emb[i] == Encode(docs[i])
    }

    /** `transformer` is the instantiated sentence encoder, or None when the
        library is missing or instantiation failed; `faissAvailable` says
        whether the index library imported. An empty corpus is refused:
        stacking no pseudo-embeddings, sizing the index from an empty matrix
        and multiplying an empty matrix by the query all raise. */
    constructor (docs: seq<string>, dim: int, transformer: Option<Encoder>,
                 faissAvailable: bool, seeded: SeededEncoder)
      requires docs != []
      ensures Valid()
      ensures this.docs == docs && this.dim == dim && this.seeded == seeded
      ensures useRealModel == transformer.Some? && model == transformer
      ensures useFaiss == (faissAvailable && transformer.Some?)
    {
      this.docs := docs;
      this.dim := dim;
      this.seeded := seeded;
      model := transformer;
      useRealModel := transformer.Some?;
      emb := if transformer.Some?
        then seq(|docs|, i requires 0 <= i < |docs| => transformer.value(docs[i]))
        else seq(|docs|, i requires 0 <= i < |docs| => seeded(docs[i], dim));
      useFaiss := faissAvailable && transformer.Some?;
    }

    /** The index, when it is used, reports ids of the vectors it holds. */
    predicate IndexFits(query: string, k: nat, index: IndexSearch)
    {
      useFaiss ==> IndexIds(index(Encode(query), k), |docs|)
    }

    /** `search(query, k)`: the index answers when it was built, its ids
        read in `docs`; otherwise the brute-force selection over the
        similarities to every document. */
    function Search(query: string, k: nat, index: IndexSearch): (r: seq<Hit>)
      requires Valid() && IndexFits(query, k, index)
      ensures useFaiss ==> r == IndexHits(docs, index(Encode(query), k))
      ensures !useFaiss ==> r == BruteForceTopK(docs, Similarities(emb, Encode(query)), k)
    {
      var q := Encode(query);
      if useFaiss then IndexHits(docs, index(q, k))
      else BruteForceTopK(docs, Similarities(emb, q), k)
    }

    /** Documents with the same text have the same vector, and a query equal
        to a document's text is encoded exactly as that document was. */
    lemma SameTextSameVector(i: nat, j: nat, query: string)
      requires Valid()
      requires i < |docs| && j < |docs|
      ensures docs[i] == docs[j] ==> emb[i] == emb[j]
      ensures query == docs[i] ==> Encode(query) == emb[i]
    {
    }
  }

  /** The brute-force hits come best first. */
  lemma BruteForceNonIncreasing(docs: seq<string>, sims: seq<real>, k: nat)
    requires |docs| == |sims|
    ensures var r := BruteForceTopK(docs, sims, k);
      forall p, q :: 0 <= p < q < |r| ==> r[p].score >= r[q].score
  {
    var top := KeptPositions(sims, k);
    assert forall p, q :: 0 <= p < q < |top| ==> Precedes(sims, top[p], top[q]);
  }

  /** Top-k: every document left out has a similarity no larger than the
      smallest one returned. */
  lemma BruteForceDominates(docs: seq<string>, sims: seq<real>, k: nat, x: nat)
    requires |docs| == |sims|
    requires x < |sims| && x !in KeptPositions(sims, k)
    requires 0 < k
    ensures var r := BruteForceTopK(docs, sims, k);
      sims[x] <= r[|r| - 1].score
  {
    var k' := MinInt(k, |sims|);
    TopKDominates(sims, k', x);
  }
}
