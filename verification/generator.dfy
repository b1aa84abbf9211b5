/** The placeholder answer generator: the joined context texts cut to 300
    characters, one 50-character citation per context, a fixed confidence. */
module Generator {

  import opened Common
  import opened Text

  datatype Generated = Generated(answer: string, citations: seq<string>, confidence: real)

  const FixedConfidence: real := 0.75

  /** `generate_answer`. The query is not used. */
  function GenerateAnswer(query: string, contexts: seq<Candidate>): (r: Generated)
    ensures r.answer <= Join(CandidateTexts(contexts), " ")
    ensures |r.answer| == MinInt(300, |Join(CandidateTexts(contexts), " ")|)
    ensures |r.citations| == |contexts|
    ensures forall i :: 0 <= i < |contexts| ==>
      r.citations[i] <= contexts[i].text && |r.citations[i]| == MinInt(50, |contexts[i].text|)
    ensures r.confidence == FixedConfidence
    ensures contexts == [] ==> r.answer == [] && r.citations == []
    ensures contexts != [] && |contexts[0].text| >= 300 ==> r.answer == contexts[0].text[..300]
  {
    var txt := Join(CandidateTexts(contexts), " ");
    Generated(Take(txt, 300),
              seq(|contexts|, i requires 0 <= i < |contexts| => Take(contexts[i].text, 50)),
              FixedConfidence)
  }
}
