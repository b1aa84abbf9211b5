/** The constrained reasoning layer: an answer built only from the ranked
    context, a confidence score, the refusal gate, citations, citation
    validation and claim extraction. */
module Constrained {

  import opened Common
  import opened Text

  /** Why an answer was refused. The source renders BelowThreshold as
      "Confidence {c:.2f} below threshold {t}". */
  datatype Reason = NoRelevantContext | BelowThreshold(confidence: real, threshold: real)

  /** The dict `synthesize_answer` returns. */
  datatype Answer = Answer(answer: Option<string>, citations: seq<string>, confidence: real,
                           refused: bool, reason: Option<Reason>)

  const Preamble: string := "Based on internal documentation: "
  const Unable: string := "Unable to generate answer from provided context."
  const DefaultThreshold: real := 0.5
  const DefaultMaxTokens: int := 256

  /** The untruncated evidence-based answer for a top document text. */
  function Evidence(topText: string): (r: string)
    ensures |r| == |Preamble| + MinInt(150, |topText|) + 3
  {
    Preamble + Take(topText, 150) + "..."
  }

  /** a is drawn from the evidence for the top text: a prefix of it, and no
      longer than a non-negative `max_tokens`. */
  predicate FitsEvidence(a: string, topText: string, maxTokens: int)
  {
    a <= Evidence(topText) && (maxTokens >= 0 ==> |a| <= maxTokens)
  }

  /** `_generate_from_context`: the preamble, at most 150 characters of the
      top document and an ellipsis, cut to `max_tokens` characters. */
  function GenerateFromContext(context: seq<Candidate>, maxTokens: int): (r: string)
    ensures context == [] ==> r == Unable
    ensures context != [] ==> r <= Evidence(context[0].text)
    ensures context != [] && maxTokens >= 0 ==>
      |r| == MinInt(maxTokens, |Evidence(context[0].text)|)
    ensures context != [] ==> FitsEvidence(r, context[0].text, maxTokens)
  {
    if context == [] then Unable
    else Take(Evidence(context[0].text), maxTokens)
  }

  /** The share of the confidence owed to the number of context documents,
      counting at most three. */
  function DocScore(n: nat): (r: real)
    ensures 0.0 <= r <= 0.4
    ensures n >= 3 ==> r == 0.4
  {
    MinReal(1.0, MinInt(n, 3) as real / 3.0) * 0.4
  }

  /** The share owed to the answer's whitespace word count, saturating at 50
      words. */
  function LengthScore(answer: string): (r: real)
    ensures 0.0 <= r <= 0.2
    ensures |Words(answer)| >= 50 ==> r == 0.2
  {
    MinReal(1.0, |Words(answer)| as real / 50.0) * 0.2
  }

  /** `_compute_confidence`. The top document's `rank_score` (default 0.5)
      enters unscaled, so the score is capped at 1 but is only non-negative
      when that rank score is. */
  function ComputeConfidence(context: seq<Candidate>, answer: string): (r: real)
    requires context != []
    ensures r <= 1.0
    ensures context[0].rankScore.GetOr(0.5) >= 0.0 ==> r >= 0.0
    ensures context[0].rankScore.GetOr(0.5) >= 0.25 && |context| >= 3 ==> r >= DefaultThreshold
  {
    var rankScore := context[0].rankScore.GetOr(0.5) / 1.0 * 0.4;
    MinReal(1.0, DocScore(|context|) + rankScore + LengthScore(answer))
  }

  /** `c["text"][:100]` for each of the first three context documents. */
  function Citations(context: seq<Candidate>): (r: seq<string>)
    ensures |r| == MinInt(3, |context|)
    ensures forall i :: 0 <= i < |r| ==>
      r[i] <= context[i].text && |r[i]| == MinInt(100, |context[i].text|)
  {
    var n := MinInt(3, |context|);
    seq(n, i requires 0 <= i < n => Take(context[i].text, 100))
  }

  /** `synthesize_answer`: refuse on empty context or when the confidence is
      below the threshold; otherwise answer with citations. */
  function Synthesize(query: string, context: seq<Candidate>, threshold: real, maxTokens: int): (r: Answer)
    ensures context == [] ==> r == Answer(None, [], 0.0, true, Some(NoRelevantContext))
    ensures context != [] ==>
      && r.confidence == ComputeConfidence(context, GenerateFromContext(context, maxTokens))
      && (r.refused <==> r.confidence < threshold)
    ensures r.refused <==> r.answer.None?
    ensures r.refused ==> r.citations == [] && r.reason.Some?
    ensures r.refused && context != [] ==> r.reason == Some(BelowThreshold(r.confidence, threshold))
    ensures !r.refused ==>
      && context != []
      && r.reason.None?
      && r.confidence >= threshold
      && r.answer == Some(GenerateFromContext(context, maxTokens))
      && FitsEvidence(r.answer.value, context[0].text, maxTokens)
      && r.citations == Citations(context)
  {
    if context == [] then
      Answer(None, [], 0.0, true, Some(NoRelevantContext))
    else
      var answerText := GenerateFromContext(context, maxTokens);
      Gate(answerText, Citations(context), ComputeConfidence(context, answerText), threshold)
  }

  /** The refusal gate: below the threshold the answer and its citations are
      withheld and the reason names both numbers; otherwise both are kept. */
  function Gate(answerText: string, citations: seq<string>, confidence: real, threshold: real): (r: Answer)
    ensures r.confidence == confidence
    ensures r.refused <==> confidence < threshold
    ensures r.refused <==> r.answer.None?
    ensures r.refused ==> r.citations == [] && r.reason == Some(BelowThreshold(confidence, threshold))
    ensures !r.refused ==> r.answer == Some(answerText) && r.citations == citations && r.reason.None?
  {
    if confidence < threshold then
      Answer(None, [], confidence, true, Some(BelowThreshold(confidence, threshold)))
    else
      Answer(Some(answerText), citations, confidence, false, None)
  }

  /** A higher rank score on the top document never lowers the confidence. */
  lemma ConfidenceMonotoneInRankScore(context: seq<Candidate>, context': seq<Candidate>, answer: string)
    requires context != [] && |context'| == |context|
    requires context[0].rankScore.GetOr(0.5) <= context'[0].rankScore.GetOr(0.5)
    ensures ComputeConfidence(context, answer) <= ComputeConfidence(context', answer)
  {
    var a := context[0].rankScore.GetOr(0.5);
    var b := context'[0].rankScore.GetOr(0.5);
    assert a / 1.0 * 0.4 <= b / 1.0 * 0.4;
  }

  /** More context documents never lower the confidence. */
  lemma ConfidenceMonotoneInCount(context: seq<Candidate>, context': seq<Candidate>, answer: string)
    requires context != [] && |context| <= |context'|
    requires context'[0].rankScore == context[0].rankScore
    ensures ComputeConfidence(context, answer) <= ComputeConfidence(context', answer)
  {
    var m, m' := MinInt(|context|, 3), MinInt(|context'|, 3);
    assert m as real / 3.0 <= m' as real / 3.0;
  }

  /** Appending documents below the ranked context keeps the answer text and
      never lowers the confidence, so an answered query stays answered. */
  lemma MoreContextNeverRefusesMore(query: string, context: seq<Candidate>, extra: seq<Candidate>,
                                    threshold: real, maxTokens: int)
    requires context != []
    ensures Synthesize(query, context, threshold, maxTokens).confidence
      <= Synthesize(query, context + extra, threshold, maxTokens).confidence
    ensures !Synthesize(query, context, threshold, maxTokens).refused ==>
      !Synthesize(query, context + extra, threshold, maxTokens).refused
  {
    var all := context + extra;
    assert all[0] == context[0];
    assert GenerateFromContext(all, maxTokens) == GenerateFromContext(context, maxTokens);
    ConfidenceMonotoneInCount(context, all, GenerateFromContext(context, maxTokens));
  }

  /** `validate_citation`: the lower-cased citation occurs in the lower-cased
      text of some context document (the first hit returns). */
  function ValidateCitation(citation: string, context: seq<Candidate>): (r: bool)
    ensures r <==> exists i :: 0 <= i < |context| && IsSubstring(Lower(citation), Lower(context[i].text))
  {
    if context == [] then false
    else if IsSubstring(Lower(citation), Lower(context[0].text)) then
      true
    else
      var rest := ValidateCitation(citation, context[1..]);
      assert forall i :: 0 < i < |context| ==> context[1..][i - 1] == context[i];
      rest
  }

  /** Every citation of an answer validates against the context it came
      from. */
  lemma {:induction false} CitationsValidate(query: string, context: seq<Candidate>, threshold: real, maxTokens: int)
    ensures forall c :: c in Synthesize(query, context, threshold, maxTokens).citations ==>
      ValidateCitation(c, context)
  {
    var cs := Citations(context);
    forall i | 0 <= i < |cs|
      ensures ValidateCitation(cs[i], context)
    {
      var t := context[i].text;
      LowerOfPrefix(t, |cs[i]|);
      assert cs[i] == t[..|cs[i]|];
      PrefixIsSubstring(Lower(cs[i]), Lower(t));
    }
  }

  predicate IsSentenceEnd(c: char)
  {
    c == '.' || c == '!' || c == '?'
  }

  /** The stripped fragments longer than ten characters, in order. */
  function KeepClaims(fragments: seq<string>): (r: seq<string>)
    ensures |r| <= |fragments|
    ensures forall c :: c in r ==> |c| > 10 && exists f :: f in fragments && c == Strip(f)
  {
    if fragments == [] then []
    else
      var rest := KeepClaims(fragments[1..]);
      var s := Strip(fragments[0]);
      ClaimsFromTail(fragments, rest);
      if |s| > 10 then [s] + rest else rest
  }

  lemma ClaimsFromTail(fragments: seq<string>, rest: seq<string>)
    requires fragments != []
    requires forall c :: c in rest ==> |c| > 10 && exists f :: f in fragments[1..] && c == Strip(f)
    ensures forall c :: c in rest ==> |c| > 10 && exists f :: f in fragments && c == Strip(f)
  {
    forall c | c in rest
      ensures exists f :: f in fragments && c == Strip(f)
    {
      var f :| f in fragments[1..] && c == Strip(f);
      assert f in fragments;
    }
  }

  /** `extract_claims`: split at '.', '!' and '?', strip each fragment, keep
      those longer than ten characters. */
  function ExtractClaims(answer: string): (r: seq<string>)
    ensures forall c :: c in r ==> |c| > 10 && Trimmed(c)
  {
    ClaimsAreTrimmed(SplitOn(answer, IsSentenceEnd));
    KeepClaims(SplitOn(answer, IsSentenceEnd))
  }

  /** Every kept claim is a strip, so no whitespace is left at its ends. */
  lemma ClaimsAreTrimmed(fragments: seq<string>)
    ensures forall c :: c in KeepClaims(fragments) ==> |c| > 10 && Trimmed(c)
  {
    forall c | c in KeepClaims(fragments)
      ensures |c| > 10 && Trimmed(c)
    {
      var f :| f in fragments && c == Strip(f);
    }
  }

  /** Keeping claims goes fragment by fragment: it distributes over
      concatenation, and a single fragment is kept, stripped, exactly when
      its strip is longer than ten characters. */
  lemma {:induction false} KeepClaimsAppend(a: seq<string>, b: seq<string>)
    ensures KeepClaims(a + b) == KeepClaims(a) + KeepClaims(b)
    decreases |a|
  {
    if a == [] {
      assert a + b == b;
    } else {
      assert (a + b)[0] == a[0] && (a + b)[1..] == a[1..] + b;
      KeepClaimsAppend(a[1..], b);
    }
  }

  lemma KeepClaimsLaws(a: seq<string>, b: seq<string>, f: string)
    ensures KeepClaims([]) == []
    ensures KeepClaims(a + b) == KeepClaims(a) + KeepClaims(b)
    ensures KeepClaims([f]) == if |Strip(f)| > 10 then [Strip(f)] else []
  {
    KeepClaimsAppend(a, b);
    assert [f][1..] == [];
  }

  /** The claims of an answer, sentence by sentence: a sentence end cuts the
      answer into parts whose claims are found on their own, and a part
      with no sentence end is one claim, stripped, when that is longer than
      ten characters, and none otherwise. */
  lemma ExtractClaimsLaws(a: string, c: char, b: string, sentence: string)
    ensures IsSentenceEnd(c) ==> ExtractClaims(a + [c] + b) == ExtractClaims(a) + ExtractClaims(b)
    ensures (forall k :: 0 <= k < |sentence| ==> !IsSentenceEnd(sentence[k])) ==>
      ExtractClaims(sentence) == if |Strip(sentence)| > 10 then [Strip(sentence)] else []
  {
    SplitLaws(a, c, b, sentence, IsSentenceEnd);
    KeepClaimsLaws(SplitOn(a, IsSentenceEnd), SplitOn(b, IsSentenceEnd), sentence);
  }

  /** There are never more claims than sentence ends plus one. */
  lemma ClaimCount(answer: string)
    ensures |ExtractClaims(answer)| <= CountWhere(answer, IsSentenceEnd) + 1
  {
    SplitCount(answer, [], IsSentenceEnd);
  }

  /** No claim holds a sentence-ending character. */
  lemma ClaimsAreSentences(answer: string)
    ensures forall c :: c in ExtractClaims(answer) ==> forall k :: 0 <= k < |c| ==> !IsSentenceEnd(c[k])
  {
    var frags := SplitOn(answer, IsSentenceEnd);
    SplitFragmentsHaveNoDelimiter(answer, [], IsSentenceEnd);
    forall c | c in ExtractClaims(answer)
      ensures forall k :: 0 <= k < |c| ==> !IsSentenceEnd(c[k])
    {
      var f :| f in frags && c == Strip(f);
      StripAvoids(f, IsSentenceEnd);
    }
  }

  /** Stripping cannot bring in a character the string did not hold. */
  lemma StripAvoids(s: string, p: char -> bool)
    requires forall k :: 0 <= k < |s| ==> !p(s[k])
    ensures forall k :: 0 <= k < |Strip(s)| ==> !p(Strip(s)[k])
  {
    var i, j :| 0 <= i <= j <= |s| && Strip(s) == s[i..j];
    assert forall k :: 0 <= k < j - i ==> s[i..j][k] == s[i + k];
  }
}
