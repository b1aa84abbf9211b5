/** Shared value types of the retrieve -> rank -> answer chain, and Python's
    slice-end rule used wherever the source truncates with `[:k]`. */
module Common {

  datatype Option<T> = None | Some(value: T)
  {
    function GetOr(default: T): T
    {
      match this
      case Some(v) => v
      case None => default
    }
  }

  /** A retrieval hit `{"text": ..., "score": ...}` as the retrievers build it. */
  datatype Hit = Hit(text: string, score: real)

  /** A dict-shaped candidate as the ranking and answer layers read it: `text` is
      always present, `score` and `rank_score` may be missing. */
  datatype Candidate = Candidate(text: string, score: Option<real>, rankScore: Option<real>)

  function AsCandidate(h: Hit): Candidate
  {
    Candidate(h.text, Some(h.score), None)
  }

  /** `[c["text"] for c in cs]`. */
  function CandidateTexts(cs: seq<Candidate>): (r: seq<string>)
    ensures |r| == |cs| && forall i :: 0 <= i < |cs| ==> r[i] == cs[i].text
  {
    seq(|cs|, i requires 0 <= i < |cs| => cs[i].text)
  }

  function MinInt(a: int, b: int): int
  {
    if a <= b then a else b
  }

  function MinReal(a: real, b: real): real
  {
    if a <= b then a else b
  }

  /** r is the count `part` over the count `whole`. */
  predicate IsRatio(r: real, part: nat, whole: nat)
  {
    r * whole as real == part as real
  }

  /** A count over a larger positive count, as a real in [0, 1]. */
  function Ratio(part: nat, whole: nat): (r: real)
    requires 0 < whole && part <= whole
    ensures 0.0 <= r <= 1.0
    ensures IsRatio(r, part, whole)
    ensures part == 0 ==> r == 0.0
  {
    part as real / whole as real
  }

  function MaxInt(a: int, b: int): int
  {
    if a >= b then a else b
  }

  /** Where Python's `xs[:k]` stops on a list of length n: a non-negative k
      keeps min(k, n) items, a negative k drops the last -k items. */
  function SliceStop(n: nat, k: int): (r: nat)
    ensures r <= n
    ensures k >= 0 ==> r == MinInt(k, n)
    ensures k < 0 ==> r == MaxInt(n + k, 0)
  {
    if k >= 0 then (if k < n then k else n)
    else if n + k > 0 then n + k else 0
  }

  /** Python's `xs[:k]`. */
  function Take<T>(s: seq<T>, k: int): (r: seq<T>)
    ensures |r| == SliceStop(|s|, k)
    ensures forall j :: 0 <= j < |r| ==> r[j] == s[j]
  {
    s[..SliceStop(|s|, k)]
  }

  function Sum(xs: seq<real>): real
  {
    if xs == [] then 0.0 else Sum(xs[..|xs| - 1]) + xs[|xs| - 1]
  }

  /** `Sum` is additive over concatenation. */
  lemma {:induction false} SumAppend(xs: seq<real>, ys: seq<real>)
    ensures Sum(xs + ys) == Sum(xs) + Sum(ys)
    decreases |ys|
  {
    if ys == [] {
      assert xs + ys == xs;
    } else {
      var n := |ys| - 1;
      assert (xs + ys)[..|xs + ys| - 1] == xs + ys[..n];
      SumAppend(xs, ys[..n]);
    }
  }

  /** Every item at least `lo` makes the sum at least n * lo, and every item at
      most `hi` makes it at most n * hi. */
  lemma {:induction false} SumBounds(xs: seq<real>, lo: real, hi: real)
    requires forall j :: 0 <= j < |xs| ==> lo <= xs[j] <= hi
    ensures |xs| as real * lo <= Sum(xs) <= |xs| as real * hi
  {
    if xs != [] {
      SumBounds(xs[..|xs| - 1], lo, hi);
    }
  }

  /** m is the mean of xs: m times their count is their sum. */
  predicate IsMean(m: real, xs: seq<real>)
  {
    m * |xs| as real == Sum(xs)
  }

  /** `sum(xs) / len(xs)` for a non-empty xs. */
  function Mean(xs: seq<real>): (m: real)
    requires xs != []
    ensures IsMean(m, xs)
  {
    Sum(xs) / |xs| as real
  }

  /** Extending a prefix of `all` by its next item gives the next prefix. */
  lemma SnocPrefix<T>(all: seq<T>, xs: seq<T>, i: nat, x: T)
    requires i < |all| && xs == all[..i] && x == all[i]
    ensures xs + [x] == all[..i + 1]
  {
  }
}
