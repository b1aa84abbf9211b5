/** Hybrid fusion: dense hits, then sparse hits, merged by text with raw
    score addition (no normalisation), then stably sorted by fused score. */
module HybridRetrieval {

  import opened Common
  import opened Sorting
  import DenseRetrieval
  import SparseRetrieval

  function Texts(hits: seq<Hit>): (r: seq<string>)
    ensures |r| == |hits|
    ensures forall i :: 0 <= i < |hits| ==> r[i] == hits[i].text
  {
    seq(|hits|, i requires 0 <= i < |hits| => hits[i].text)
  }

  /** The distinct texts of `hits`, in order of first appearance: the key
      order of the `merged` dict. */
  function FirstTexts(hits: seq<Hit>): (r: seq<string>)
    ensures |r| <= |hits|
    ensures forall t :: t in r <==> t in Texts(hits)
    ensures forall p, q :: 0 <= p < q < |r| ==> r[p] != r[q]
  {
    if hits == [] then []
    else
      var n := |hits| - 1;
      var prev := FirstTexts(hits[..n]);
      assert Texts(hits) == Texts(hits[..n]) + [hits[n].text];
      if hits[n].text in prev then prev else prev + [hits[n].text]
  }

  /** The sum of the scores of every hit with text t. */
  function ScoreOf(hits: seq<Hit>, t: string): real
  {
    if hits == [] then 0.0
    else
      var n := |hits| - 1;
      ScoreOf(hits[..n], t) + (if hits[n].text == t then hits[n].score else 0.0)
  }

  /** The fused score of every distinct text, in key order. */
  function FusedScores(hits: seq<Hit>): (r: seq<real>)
    ensures |r| == |FirstTexts(hits)|
  {
    var texts := FirstTexts(hits);
    seq(|texts|, j requires 0 <= j < |texts| => ScoreOf(hits, texts[j]))
  }

  /** What `search` returns once the two result lists are joined. */
  function Fused(hits: seq<Hit>): (r: seq<Hit>)
    ensures |r| == |FirstTexts(hits)|
  {
    var texts := FirstTexts(hits);
    var scores := FusedScores(hits);
    var order := StableOrder(scores);
    seq(|order|, j requires 0 <= j < |order| => Hit(texts[order[j]], scores[order[j]]))
  }

  /** The merge loop over `d + s`, then the sort of the dict's items. */
  method Fuse(d: seq<Hit>, s: seq<Hit>) returns (r: seq<Hit>)
    ensures r == Fused(d + s)
  {
    var all := d + s;
    var merged, keys := MergeAll(all);
    var scores := seq(|keys|, j requires 0 <= j < |keys| => merged[keys[j]]);
    MergedScores(all, merged, keys);
    var order := StableOrder(scores);
    r := seq(|order|, j requires 0 <= j < |order| => Hit(keys[order[j]], scores[order[j]]));
  }

  /** The merge loop: each hit's score is added to its text's entry, and a
      text seen for the first time is appended to the key order. */
  method MergeAll(all: seq<Hit>) returns (merged: map<string, real>, keys: seq<string>)
    ensures Merged(all, merged, keys)
  {
    merged := map[];
    keys := [];
    var i := 0;
    while i < |all|
      invariant 0 <= i <= |all|
      invariant Merged(all[..i], merged, keys)
    {
      var t := all[i].text;
      if t in merged {
        MergeSeen(all, i, merged, keys);
        merged := merged[t := merged[t] + all[i].score];
      } else {
        MergeNew(all, i, merged, keys);
        merged := merged[t := all[i].score];
        keys := keys + [t];
      }
      i := i + 1;
    }
    assert all[..i] == all;
  }

  /** The state of the merge loop after the hits `done`: `keys` lists the
      dict's keys in insertion order and every entry holds its summed score. */
  ghost predicate Merged(done: seq<Hit>, merged: map<string, real>, keys: seq<string>)
  {
    && keys == FirstTexts(done)
    && (forall t :: t in merged <==> t in keys)
    && (forall t :: t in merged ==> merged[t] == ScoreOf(done, t))
  }

  /** A text already merged: its entry grows by the hit's score. */
  lemma MergeSeen(all: seq<Hit>, i: nat, merged: map<string, real>, keys: seq<string>)
    requires i < |all| && Merged(all[..i], merged, keys) && all[i].text in merged
    ensures Merged(all[..i + 1], merged[all[i].text := merged[all[i].text] + all[i].score], keys)
  {
    MergeStep(all, i);
    var h := all[i];
    var m := merged[h.text := merged[h.text] + h.score];
    forall u | u in m
      ensures m[u] == ScoreOf(all[..i + 1], u)
    {
      if u != h.text {
        assert m[u] == merged[u];
      }
    }
    MergedIntro(all[..i + 1], m, keys);
  }

  /** A new text: its entry starts at the hit's score and its key is appended. */
  lemma MergeNew(all: seq<Hit>, i: nat, merged: map<string, real>, keys: seq<string>)
    requires i < |all| && Merged(all[..i], merged, keys) && all[i].text !in merged
    ensures Merged(all[..i + 1], merged[all[i].text := all[i].score], keys + [all[i].text])
  {
    MergeStep(all, i);
    ScoreOfAbsentFromKeys(all[..i], all[i].text);
    var h := all[i];
    var m := merged[h.text := h.score];
    forall u | u in m
      ensures m[u] == ScoreOf(all[..i + 1], u)
    {
      if u != h.text {
        assert m[u] == merged[u];
      }
    }
    MergedIntro(all[..i + 1], m, keys + [h.text]);
  }

  lemma MergedIntro(done: seq<Hit>, merged: map<string, real>, keys: seq<string>)
    requires keys == FirstTexts(done)
    requires forall t :: t in merged <==> t in keys
    requires forall t :: t in merged ==> merged[t] == ScoreOf(done, t)
    ensures Merged(done, merged, keys)
  {
  }

  lemma MergedScores(all: seq<Hit>, merged: map<string, real>, keys: seq<string>)
    requires Merged(all, merged, keys)
    ensures forall j :: 0 <= j < |keys| ==> keys[j] in merged
    ensures seq(|keys|, j requires 0 <= j < |keys| => merged[keys[j]]) == FusedScores(all)
  {
    assert forall j :: 0 <= j < |keys| ==> keys[j] in keys;
  }

  /** One step of the merge loop: the next hit adds its score to its own text
      only, and appends its text to the key order when it is new. */
  lemma MergeStep(all: seq<Hit>, i: nat)
    requires i < |all|
    ensures FirstTexts(all[..i + 1]) == (var prev := FirstTexts(all[..i]);
      if all[i].text in prev then prev else prev + [all[i].text])
    ensures forall u :: ScoreOf(all[..i + 1], u) == ScoreOf(all[..i], u) + (if all[i].text == u then all[i].score else 0.0)
  {
    assert all[..i + 1][..i] == all[..i];
  }

  class HybridRetriever {
    const dense: DenseRetrieval.DenseRetriever
    const sparse: SparseRetrieval.SparseRetriever

    constructor (dense: DenseRetrieval.DenseRetriever, sparse: SparseRetrieval.SparseRetriever)
      ensures this.dense == dense && this.sparse == sparse
    {
      this.dense := dense;
      this.sparse := sparse;
    }

    /** `search(query)`: both retrievers with their default k of 50. */
    method Search(query: string, index: DenseRetrieval.IndexSearch) returns (r: seq<Hit>)
      requires dense.Valid() && sparse.Valid() && dense.IndexFits(query, 50, index)
      ensures r == Fused(dense.Search(query, 50, index) + SparseRetrieval.SparseSearch(sparse.documents, query, 50))
    {
      var d := dense.Search(query, 50, index);
      var s := sparse.Search(query, 50);
      r := Fuse(d, s);
    }
  }

  /** Fusion keeps one hit per text, exactly the texts either retriever
      returned, and never more hits than the two lists hold together. */
  lemma FusedTexts(d: seq<Hit>, s: seq<Hit>)
    ensures var r := Fused(d + s);
      && |r| <= |d| + |s|
      && (forall p, q :: 0 <= p < q < |r| ==> r[p].text != r[q].text)
      && (forall t :: t in Texts(r) <==> t in Texts(d) || t in Texts(s))
  {
    var all := d + s;
    var texts := FirstTexts(all);
    var order := StableOrder(FusedScores(all));
    var r := Fused(all);
    DistinctPositions(FusedScores(all), order);
    assert Texts(all) == Texts(d) + Texts(s);
    forall t
      ensures t in Texts(r) <==> t in texts
    {
      if t in texts {
        var k :| 0 <= k < |texts| && texts[k] == t;
        assert k in order;
        var j :| 0 <= j < |order| && order[j] == k;
        assert Texts(r)[j] == t;
      }
    }
  }

  lemma DistinctPositions(keys: seq<real>, r: seq<nat>)
    requires InStableDescOrder(keys, r)
    ensures forall p, q :: 0 <= p < q < |r| ==> r[p] != r[q]
  {
  }

  predicate AppearsBefore(xs: seq<string>, x: string, y: string)
  {
    exists a, b :: 0 <= a < b < |xs| && xs[a] == x && xs[b] == y
  }

  /** Each fused score is the raw sum of the scores of every hit with that
      text in dense-then-sparse order; fused hits come best first, and equal
      fused scores keep the order in which their texts first appeared. */
  lemma FusedScoresAndOrder(d: seq<Hit>, s: seq<Hit>)
    ensures var r := Fused(d + s);
      var texts := FirstTexts(d + s);
      && (forall j :: 0 <= j < |r| ==> r[j].score == ScoreOf(d, r[j].text) + ScoreOf(s, r[j].text))
      && (forall p, q :: 0 <= p < q < |r| ==> r[p].score >= r[q].score)
      && (forall p, q :: 0 <= p < q < |r| && r[p].score == r[q].score ==>
            AppearsBefore(texts, r[p].text, r[q].text))
  {
    var all := d + s;
    var scores := FusedScores(all);
    var order := StableOrder(scores);
    var r := Fused(all);
    var texts := FirstTexts(all);
    forall j | 0 <= j < |r|
      ensures r[j].score == ScoreOf(d, r[j].text) + ScoreOf(s, r[j].text)
    {
      ScoreOfAppend(d, s, r[j].text);
    }
    assert forall p, q :: 0 <= p < q < |order| ==> Precedes(scores, order[p], order[q]);
    forall p, q | 0 <= p < q < |r| && r[p].score == r[q].score
      ensures AppearsBefore(texts, r[p].text, r[q].text)
    {
      var a, b := order[p], order[q];
      assert Precedes(scores, a, b);
      assert scores[a] == r[p].score && scores[b] == r[q].score;
      assert a < b;
      assert texts[a] == r[p].text && texts[b] == r[q].text;
    }
  }

  lemma {:induction false} ScoreOfAppend(d: seq<Hit>, s: seq<Hit>, t: string)
    ensures ScoreOf(d + s, t) == ScoreOf(d, t) + ScoreOf(s, t)
    decreases |s|
  {
    if s == [] {
      assert d + s == d;
    } else {
      var n := |s| - 1;
      assert (d + s)[..|d + s| - 1] == d + s[..n];
      ScoreOfAppend(d, s[..n], t);
    }
  }

  lemma ScoreOfAbsentFromKeys(hits: seq<Hit>, t: string)
    requires t !in FirstTexts(hits)
    ensures ScoreOf(hits, t) == 0.0
  {
    assert forall i :: 0 <= i < |hits| ==> Texts(hits)[i] == hits[i].text;
    ScoreOfAbsent(hits, t);
  }

  /** A text no hit carries contributes nothing. */
  lemma {:induction false} ScoreOfAbsent(hits: seq<Hit>, t: string)
    requires forall i :: 0 <= i < |hits| ==> hits[i].text != t
    ensures ScoreOf(hits, t) == 0.0
  {
    if hits != [] {
      ScoreOfAbsent(hits[..|hits| - 1], t);
    }
  }

  /** A text that only the dense retriever returned keeps its dense score
      (the sum of its dense hits), and likewise for the sparse retriever. */
  lemma SingleSourceKeepsScore(d: seq<Hit>, s: seq<Hit>, t: string)
    ensures (forall i :: 0 <= i < |s| ==> s[i].text != t) ==> ScoreOf(d + s, t) == ScoreOf(d, t)
    ensures (forall i :: 0 <= i < |d| ==> d[i].text != t) ==> ScoreOf(d + s, t) == ScoreOf(s, t)
  {
    ScoreOfAppend(d, s, t);
    if forall i :: 0 <= i < |s| ==> s[i].text != t {
      ScoreOfAbsent(s, t);
    }
    if forall i :: 0 <= i < |d| ==> d[i].text != t {
      ScoreOfAbsent(d, t);
    }
  }

  /** A text carried by exactly one hit gets exactly that hit's score. */
  lemma {:induction false} ScoreOfSingle(hits: seq<Hit>, i: nat)
    requires i < |hits|
    requires forall j :: 0 <= j < |hits| && j != i ==> hits[j].text != hits[i].text
    ensures ScoreOf(hits, hits[i].text) == hits[i].score
  {
    var n := |hits| - 1;
    if i == n {
      ScoreOfAbsent(hits[..n], hits[i].text);
    } else {
      ScoreOfSingle(hits[..n], i);
    }
  }
}
