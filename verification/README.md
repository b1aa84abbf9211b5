# SaaS Product Intelligence: the retrieve, re-rank and gated-answer chain in Dafny

This project models the question-answering chain of the SaaS Product
Intelligence Platform together with the bookkeeping around it:

- **Lexical retrieval.** It runs in the configuration without a BM25 library.
  A document's score is the share of the query's distinct `\w` tokens that the
  document contains. The best `top_k` documents come back, ties in document
  order.
- **Dense retrieval.** Documents and queries are encoded by a deterministic
  encoder: the sentence model when one is loaded, otherwise the seeded
  pseudo-embedding. The search either asks a foreign inner-product index or
  takes the brute-force top k of the dot products.
- **Hybrid fusion.** Dense hits and then sparse hits are merged by text,
  adding raw scores, and stably sorted by fused score.
- **Ranking.** Each candidate gets a six-slot feature row. The LambdaRank
  model holds either a trained booster or nothing; with nothing it uses the
  fixed weighted sum. `rank` returns the row scores sorted largest first and
  no longer aligned with the rows. The orchestrator attaches score i to
  candidate i, stably sorts and keeps the top k. Because the scores are
  already sorted, the orchestrator's result is the first `min(top_k, n)`
  candidates in input order. The model states this and proves it.
- **Constrained reasoning.** The answer text, the confidence formula, the
  refusal gate at the threshold, citations, citation validation and claim
  extraction. The placeholder generator is modelled too.
- **Data utilities.** Structured-row and document validators, digest-based
  drift detection on the sorted, newline-joined documents, the data version,
  and the cached document loader.
- **Feedback log.**
  - The JSONL file is modelled as its sequence of lines. Each line is either a
    record that parses or a garbled line.
  - The operations are: append an interaction, load with a line limit, compute
    statistics, and update the first record with a given id and rewrite the
    file.
- **Monitoring.**
  - The in-memory metric lists and the p50/p95/mean summaries.
  - The drift thresholds: p95 latency 1000 ms, mean recall 0.7, refusal
    rate 0.1.
  - The health status: "ok" exactly when no drift is found.
- **Training data.** Interaction records are grouped by query in order of
  first appearance, and every query with at least two records contributes one
  mock feature row and one label per record.
- **The query pipeline.** Retrieve, rank the top five, answer with threshold
  0.5 and 256 characters, record the metrics, log the interaction.

Python lists and dicts are Dafny sequences, maps and datatypes, and a dict
key that may be missing is an `Option`. Scores are `real`. Objects whose
fields the source updates are classes. Loops are methods proved against the
functions that specify them. Foreign computations are function-valued
parameters:

- the sentence encoder, the seeded embedding and the faiss search;
- the LightGBM booster and its trainer;
- the md5 digest.

Clock readings, uuids and measured latency are also parameters. Python's
`sorted(..., reverse=True)` is modelled as a stable sort on positions:
larger keys first and, among equal keys, the lower position first.

## Model

| member | source | states |
|---|---|---|
| Common.Take | app/ranking/ranker.py:48 | `xs[:k]`: min(k, n) leading items for k >= 0, n + k for a negative k, each item the one at the same position |
| Common.Mean | app/monitoring.py:49 | `sum(xs) / len(xs)`: the mean times the count is the sum |
| Sorting.StableOrder | app/retrieval/hybrid_retrieval.py:12-14 | every position exactly once, ordered by key largest first, equal keys by ascending position |
| Sorting.TopPositions | app/retrieval/sparse_retrieval.py:54 | exactly the first slice-length positions of the stable order: distinct, in stable descending order, and every position left out has a smaller key than each kept one, or an equal key and a later position |
| Sorting.PrefixDominates | app/retrieval/sparse_retrieval.py:54 | every position left out of a prefix of the stable order comes after each position in the prefix: smaller key, or equal key and later position |
| Sorting.SortDesc | app/ranking/model.py:49 | `sorted(scores, reverse=True)` is a non-increasing permutation of the scores |
| Sorting.SortAsc | app/monitoring.py:47-48 | `sorted(values)` is a non-decreasing permutation of the values |
| Sorting.StableOrderOfNonIncreasing | app/ranking/ranker.py:47 | when the keys are already non-increasing, the stable sort keeps every position in place |
| Sorting.TopKDominates | app/retrieval/dense_retrieval.py:93-94 | a position left out of the first k has a key no larger than the last key kept |
| Text.Tokenize | app/retrieval/sparse_retrieval.py:32-36 | every token is a non-empty run of word characters of the lower-cased text |
| Text.TokenizeLaws | app/retrieval/sparse_retrieval.py:32-36 | the tokens are the maximal word-character runs: none for "", a non-word character cuts the text into parts tokenized on their own, and a whole word is one token, lower-cased |
| Text.TokensCoverWordChars | app/retrieval/sparse_retrieval.py:34-35 | the tokens, concatenated, are exactly the word characters of the lower-cased text, in order |
| Text.Words | app/ranking/features.py:33-35 | `split()`: every word is a non-empty run of non-whitespace |
| Text.WordsLaws | app/ranking/features.py:33-35 | `split()` gives the maximal non-whitespace runs: none for "", a whitespace character cuts the string into parts split on their own, and a stretch without whitespace is one word |
| Text.RunsLaws | app/retrieval/sparse_retrieval.py:35 | runs of a character class: none in "", a cut at every character outside the class, and one run for a non-empty stretch inside it |
| Text.WordsOfLower | app/ranking/features.py:34 | splitting the lower-cased text gives the lower-cased words |
| Text.Strip | app/data.py:57 | `strip()` is a slice that removes only whitespace from the two ends and leaves no whitespace at either end |
| Text.StripUnique | app/data.py:57 | the strip is the one slice with only whitespace outside it and, unless empty, non-whitespace at both of its ends |
| Text.StripSlice | app/data.py:57 | the bounds of the strip: whitespace before and after them, non-whitespace at both ends of a non-empty strip |
| Text.StripIgnoresSurroundingSpace | app/data.py:56-57 | whitespace added on either side of a string does not change its strip |
| Text.TrimLeftSkipsSpace | app/data.py:57 | leading whitespace does not change the left-trimmed result |
| Text.TrimRightSkipsSpace | app/data.py:57 | trailing whitespace does not change the right-trimmed result |
| Text.TrimLeftOfAppend | app/data.py:57 | left-trimming m + r trims m and keeps r whole, or trims into r when m is all whitespace |
| Text.StripEmptyIffAllSpace | app/data.py:24 | a string strips to nothing exactly when every character is whitespace |
| Text.SplitCount | app/llm/constrained.py:103 | splitting at delimiters yields one fragment more than there are delimiters |
| Text.SplitFragmentsHaveNoDelimiter | app/llm/constrained.py:103 | no fragment contains a delimiter |
| Text.SplitLaws | app/llm/constrained.py:103 | a delimiter cuts the string into parts split on their own; a piece without delimiters is its own single fragment |
| Text.Join | app/data.py:28 | joining nothing gives ""; otherwise the first item is a prefix of the result |
| Text.JoinLength | app/llm/generator.py:5 | the joined length is the items' total length plus one separator between each pair |
| SparseRetrieval.OverlapScore | app/retrieval/sparse_retrieval.py:47-49 | the overlap score lies in [0, 1] and is 0 for a query without tokens |
| SparseRetrieval.FallbackScores | app/retrieval/sparse_retrieval.py:44-50 | one score per document, in document order, each that document's overlap score |
| SparseRetrieval.SparseRetriever.constructor | app/retrieval/sparse_retrieval.py:18-29 | keeps the documents and stores the tokenization of each one |
| SparseRetrieval.SparseRetriever.Search | app/retrieval/sparse_retrieval.py:38-57 | the scoring loop followed by the ranking returns exactly `SparseSearch` |
| SparseRetrieval.ScoresInUnitInterval | app/retrieval/sparse_retrieval.py:44-57 | every returned score lies in [0, 1] |
| SparseRetrieval.EmptyQueryScoresZero | app/retrieval/sparse_retrieval.py:44-50 | a query without tokens scores 0 against every document |
| SparseRetrieval.QueryScore | app/retrieval/sparse_retrieval.py:44-50 | the score `search` gives a document for a query lies in [0, 1] |
| SparseRetrieval.SearchIsStableTopK | app/retrieval/sparse_retrieval.py:53-57 | min(top_k, n) hits for a non-negative top_k, from distinct documents; each hit pairs `documents[i]` with document i's score; scores are non-increasing with ties in document order; every document left out scores below each hit, or the same and comes later |
| DenseRetrieval.KeptPositions | app/retrieval/dense_retrieval.py:89-94 | k is clamped to the number of documents; the kept positions are min(k, n) distinct positions in stable descending similarity order, none when the clamped k is 0 |
| DenseRetrieval.BruteForceTopK | app/retrieval/dense_retrieval.py:88-95 | the brute-force branch returns min(k, n) hits |
| DenseRetrieval.BruteForceNonIncreasing | app/retrieval/dense_retrieval.py:94-95 | brute-force hits come in non-increasing score order |
| DenseRetrieval.BruteForceDominates | app/retrieval/dense_retrieval.py:93-94 | every document left out has a similarity no larger than the smallest one returned |
| DenseRetrieval.DenseRetriever.constructor | app/retrieval/dense_retrieval.py:40-71 | needs a non-empty corpus, as the source raises on an empty one; the real model is used exactly when the encoder could be instantiated; faiss is used exactly when it is importable and the real model is used; one embedding per document, from the encoder in use |
| DenseRetrieval.DenseRetriever.Search | app/retrieval/dense_retrieval.py:78-95 | when the index was built, its answer read through `docs`; otherwise the brute-force top k over the dot products with the encoded query |
| DenseRetrieval.IndexHits | app/retrieval/dense_retrieval.py:81-85 | one hit per index row, in the index's order, carrying its score and the text of document `id`; the padding id -1 reads as the last document, as Python indexes it |
| DenseRetrieval.DenseRetriever.SameTextSameVector | app/retrieval/dense_retrieval.py:73-76 | identical document texts get identical vectors, and a query equal to a document's text is encoded as that document was |
| HybridRetrieval.FirstTexts | app/retrieval/hybrid_retrieval.py:9-11 | the merge keys: pairwise distinct, exactly the texts of the hits, in order of first appearance |
| HybridRetrieval.Fuse | app/retrieval/hybrid_retrieval.py:9-15 | the merge loop over `d + s` followed by the sort returns exactly `Fused(d + s)` |
| HybridRetrieval.MergeAll | app/retrieval/hybrid_retrieval.py:9-11 | after the merge loop each text's entry is the sum of its hits' scores and the keys are the texts in first-appearance order |
| HybridRetrieval.MergeSeen | app/retrieval/hybrid_retrieval.py:10-11 | a hit whose text is already merged adds its score to that entry and leaves the key order alone |
| HybridRetrieval.MergeNew | app/retrieval/hybrid_retrieval.py:10-11 | a hit with a new text starts its entry at the hit's score and appends the text to the key order |
| HybridRetrieval.MergeStep | app/retrieval/hybrid_retrieval.py:10-11 | one more hit changes only its own text's summed score, and appends the text to the first-appearance order when it is new |
| HybridRetrieval.HybridRetriever.constructor | app/retrieval/hybrid_retrieval.py:2-4 | keeps both retrievers |
| HybridRetrieval.HybridRetriever.Search | app/retrieval/hybrid_retrieval.py:6-15 | fuses the dense and sparse results, both with the default k of 50, dense first |
| HybridRetrieval.FusedTexts | app/retrieval/hybrid_retrieval.py:9-15 | output texts are pairwise distinct and exactly the texts of the dense and sparse hits; there are at most len(d) + len(s) of them |
| HybridRetrieval.FusedScoresAndOrder | app/retrieval/hybrid_retrieval.py:11-14 | each fused score is the raw sum of the dense and sparse scores of its text; output is non-increasing and ties keep first-appearance order |
| HybridRetrieval.ScoreOfAppend | app/retrieval/hybrid_retrieval.py:10-11 | the score summed over `d + s` is the dense sum plus the sparse sum |
| HybridRetrieval.SingleSourceKeepsScore | app/retrieval/hybrid_retrieval.py:11 | a text returned by only one retriever keeps that retriever's score |
| HybridRetrieval.ScoreOfSingle | app/retrieval/hybrid_retrieval.py:11 | a text carried by exactly one hit gets exactly that hit's score |
| Features.LengthFeature | app/ranking/features.py:33 | min(1, words / 500): in [0, 1], 1 from 500 words on, words / 500 below that |
| Features.OverlapFeature | app/ranking/features.py:34-35 | distinct lower-cased shared words over max(raw query word count, 1): in [0, 1], 0 for a query without words |
| Features.OverlapCount | app/ranking/features.py:34-35 | the shared distinct words number no more than the raw query words |
| Features.ExtractFeatures | app/ranking/features.py:10-40 | six features: dense, sparse, recency and feedback unchanged in slots 0, 1, 4 and 5, the length and overlap features in slots 2 and 3 |
| Features.BatchRows | app/ranking/features.py:42-54 | one row per zipped position (the shortest list's length), in order, with recency 1.0 and feedback 0.5 |
| Features.ExtractBatch | app/ranking/features.py:50-54 | the zip loop returns exactly `BatchRows` |
| Features.BatchRowsWellFormed | app/ranking/features.py:42-54 | every batch row is six wide, has bounded length and overlap, holds the defaults and carries its zipped scores |
| RankingModel.FallbackScore | app/ranking/model.py:43-46 | the weighted sum lies in [0, 1] when the features do, and returns the common value when all features are equal |
| RankingModel.WeightsAreConvex | app/ranking/model.py:45 | the fallback weights are non-negative and sum to 1 |
| RankingModel.FallbackScoreMonotone | app/ranking/model.py:43-46 | raising any feature never lowers the fallback score |
| RankingModel.LambdaRankModel.constructor | app/ranking/model.py:17-33 | version "v1"; a booster is held only when the file loads and LightGBM is available; a failed load leaves the fallback |
| RankingModel.LambdaRankModel.RowScores | app/ranking/model.py:40-46 | one score per row, the fallback weighted sum when no booster is held |
| RankingModel.LambdaRankModel.Rank | app/ranking/model.py:35-49 | N scores for N rows, non-increasing, a permutation of the row scores |
| RankingModel.LambdaRankModel.Train | app/ranking/model.py:51-71 | without LightGBM nothing changes; otherwise the trained booster is held, the timestamp refreshed and the booster saved |
| RankingModel.LambdaRankModel.Save | app/ranking/model.py:73-77 | writes the booster only when one is held; nothing else changes |
| RankingModel.LambdaRankModel.Meta | app/ranking/model.py:80-86 | available exactly when a booster is held; version "v1"; path and creation time as stored |
| Ranker.DefaultedScores | app/ranking/ranker.py:32-33 | each candidate's score, defaulting to 0.5 |
| Ranker.CandidateRows | app/ranking/ranker.py:31-35 | one well-formed six-wide row per candidate, with the defaulted score in both the dense and sparse slots |
| Ranker.WithRankScores | app/ranking/ranker.py:41-45 | copies of the candidates with text and score unchanged, candidate i carrying score i |
| Ranker.SortByRankScore | app/ranking/ranker.py:47 | a stable descending permutation by rank score, non-increasing |
| Ranker.SortOfNonIncreasingIsIdentity | app/ranking/ranker.py:38-47 | already non-increasing rank scores leave the stable sort nothing to move |
| Ranker.AttachRankScores | app/ranking/ranker.py:41-45 | the copy loop returns exactly `WithRankScores`, leaving the inputs alone |
| Ranker.CandidateFeatures | app/ranking/ranker.py:31-35 | the feature rows built for the candidates are exactly `CandidateRows` |
| Ranker.AttachAndSort | app/ranking/ranker.py:41-47 | attaching already non-increasing scores and sorting stably by them leaves the candidates in input order, candidate i carrying score i |
| Ranker.RankingOrchestrator.constructor | app/ranking/ranker.py:10-12 | holds the given ranking model |
| Ranker.RankingOrchestrator.RankCandidates | app/ranking/ranker.py:14-48 | [] for no candidates; otherwise the first top_k candidates in input order, candidate i carrying the i-th largest model score |
| Ranker.RankedCandidatesAreSorted | app/ranking/ranker.py:38-48 | min(top_k, n) results, every one rank-scored, non-increasing, each score one of the model's row scores |
| Ranker.TopOfScored | app/ranking/ranker.py:47-48 | a prefix of candidates carrying non-increasing scores is in rank order, result j carrying score j |
| Ranker.SimpleRank | app/ranking/ranker.py:50-54 | sets every dict's rank score to its score (default 0.5) in place and returns them stably sorted by it |
| Constrained.Evidence | app/llm/constrained.py:71 | preamble, at most 150 characters of the top text, and "...": its length |
| Constrained.GenerateFromContext | app/llm/constrained.py:62-72 | the fixed sentence for no context; otherwise a prefix of the evidence exactly min(max_tokens, its length) long, so never longer than a non-negative max_tokens |
| Constrained.DocScore | app/llm/constrained.py:84-85 | in [0, 0.4], reaching 0.4 from three documents on |
| Constrained.LengthScore | app/llm/constrained.py:89 | in [0, 0.2], reaching 0.2 from 50 words on |
| Constrained.ComputeConfidence | app/llm/constrained.py:74-91 | at most 1; non-negative when the top rank score is; at least 0.5 with three documents and a top rank score of at least 0.25 |
| Constrained.Citations | app/llm/constrained.py:36 | min(3, n) citations, citation i the first min(100, length) characters of text i |
| Constrained.Synthesize | app/llm/constrained.py:12-60 | empty context refuses with no answer, no citations, confidence 0 and "no relevant context"; otherwise refused iff confidence < threshold, a refusal carrying no answer or citations and the below-threshold reason; an answer has confidence >= threshold, is exactly the generated text (a prefix of the evidence at most max_tokens characters long), and carries no reason and the citations |
| Constrained.Gate | app/llm/constrained.py:44-60 | the confidence is kept; below the threshold the answer is refused with no answer text, no citations and a reason naming both numbers; otherwise the answer text and the citations are returned with no reason |
| Constrained.ConfidenceMonotoneInRankScore | app/llm/constrained.py:87-91 | a higher top rank score never lowers the confidence |
| Constrained.ConfidenceMonotoneInCount | app/llm/constrained.py:84-91 | more context documents never lower the confidence |
| Constrained.MoreContextNeverRefusesMore | app/llm/constrained.py:33-60 | appending context below the top never lowers the confidence, so an answered query stays answered |
| Constrained.ValidateCitation | app/llm/constrained.py:93-98 | true iff the lower-cased citation is a substring of some lower-cased context text |
| Constrained.CitationsValidate | app/llm/constrained.py:93-98 | every citation of an answer validates against its own context |
| Constrained.KeepClaims | app/llm/constrained.py:104 | at most one claim per fragment, each a stripped fragment longer than ten characters |
| Constrained.ExtractClaims | app/llm/constrained.py:100-104 | every claim is longer than ten characters with no whitespace at either end |
| Constrained.ClaimsAreTrimmed | app/llm/constrained.py:104 | every kept claim is longer than ten characters with no whitespace at either end |
| Constrained.KeepClaimsAppend | app/llm/constrained.py:104 | keeping claims distributes over concatenation of the fragment list |
| Constrained.KeepClaimsLaws | app/llm/constrained.py:104 | none for no fragments, fragment by fragment in order, and a single fragment kept, stripped, exactly when its strip is longer than ten characters |
| Constrained.ExtractClaimsLaws | app/llm/constrained.py:100-104 | a sentence end cuts the answer into parts whose claims are found on their own; a part without sentence ends is one claim, stripped, when that is longer than ten characters, and none otherwise |
| Constrained.ClaimCount | app/llm/constrained.py:103-104 | never more claims than sentence ends plus one |
| Constrained.ClaimsAreSentences | app/llm/constrained.py:103-104 | no claim contains '.', '!' or '?' |
| Generator.GenerateAnswer | app/llm/generator.py:4-10 | the answer is the first 300 characters of the space-joined texts; one 50-character citation prefix per context; confidence 0.75; "" and [] for no context |
| Data.ValidateStructuredData | app/data.py:14-20 | true iff every row has the keys date, metric and value |
| Data.HasContentIff | app/data.py:24 | a document is non-empty once stripped iff it holds a non-whitespace character |
| Data.ValidateDocuments | app/data.py:22-24 | true iff every document holds a non-whitespace character |
| Data.SortStrings | app/data.py:28-29 | `sorted` on strings: sorted by Python's string order and a permutation of the input |
| Data.SortedIsUnique | app/data.py:28-29 | two sorted lists with the same items are equal |
| Data.DetectDrift | app/data.py:26-35 | drifted iff the digests of the sorted, newline-joined lists differ; both digests and the time are reported |
| Data.PermutationIsNotDrift | app/data.py:28-31 | reordered document lists never drift, whatever the digest |
| Data.DataValidator.constructor | app/data.py:10-12 | the version is the creation timestamp |
| Data.DataValidator.VersionData | app/data.py:37-39 | "v" followed by the version |
| Data.StripIsIdempotent | app/data.py:57 | stripping twice is stripping once |
| Data.StrippedNonEmpty | app/data.py:57 | the kept lines are non-empty with no whitespace at either end, at most one per line |
| Data.StrippedNonEmptyAppend | app/data.py:57 | keeping the stripped non-empty lines distributes over concatenation of the line list |
| Data.StrippedNonEmptyLaws | app/data.py:57 | none for no lines, line by line in order, and a single line kept, stripped, exactly when its strip is non-empty |
| Data.ParseDocuments | app/data.py:56-57 | the parsed documents always pass `validate_documents` and are left alone by a further strip |
| Data.ParseDocumentsIgnoresOuterStrip | app/data.py:56-57 | stripping the whole content first changes nothing: the documents are the stripped non-empty lines of the content as read |
| Data.StripParts | app/data.py:56 | the content is whitespace, then its strip, then whitespace |
| Data.ParseDocumentsLaws | app/data.py:56-57 | a newline cuts the content into parts parsed on their own; a part without newlines gives its strip, or nothing when that is empty |
| Data.DataLoader.constructor | app/data.py:44-47 | an empty cache |
| Data.DataLoader.LoadDocuments | app/data.py:49-64 | a cached path answers from the cache; a read is parsed, cached and returned; a failed read returns [] and caches nothing |
| Feedback.FromAnswer | app/feedback.py:34-37 | the reasoning layer's dict has every key `log_interaction` reads |
| Feedback.MakeRecord | app/feedback.py:30-39 | copies the answer fields with the defaults [] citations, 0.0 confidence and not refused; the user feedback given is stored, and empty feedback when none is given |
| Feedback.RefusedInteractionHasNoAnswer | app/feedback.py:34-37 | a logged interaction is refused iff the answer was, and has no answer text iff refused |
| Feedback.ParsedRecords | app/feedback.py:53-60 | only lines that parse, in file order |
| Feedback.ParsedRecordsSnoc | app/feedback.py:54-60 | one more line adds its record when it parses and nothing when it is garbled |
| Feedback.ParsedRecordsAppend | app/feedback.py:54-60 | parsing distributes over concatenation of the line list |
| Feedback.ParsedRecordsLaws | app/feedback.py:54-60 | none for no lines, line by line in order, nothing for a garbled line and the record for a parsed one |
| Feedback.LinesRead | app/feedback.py:54-56 | the loop stops at line number `limit`: min(limit, n) lines, none for a limit of 0 or less |
| Feedback.Loaded | app/feedback.py:47-62 | [] for a missing file; otherwise exactly the parsed records of the first `LinesRead` lines, so a prefix of the file's parsed records, and all of them when the limit reaches the file's length |
| Feedback.AsLines | app/feedback.py:104-105 | the rewrite writes one parsing line per record, in order |
| Feedback.ParsedRecordsOfAsLines | app/feedback.py:101-105 | the rewritten file reads back as the records written |
| Feedback.FirstMatch | app/feedback.py:91-99 | the first position with the id, or none when no record has it |
| Feedback.FeedbackEntry | app/feedback.py:93-97 | the stored feedback holds `helpful` and is non-empty |
| Feedback.CountRefused | app/feedback.py:71 | no more refused records than records |
| Feedback.CountWithFeedback | app/feedback.py:72 | no more records with feedback than records |
| Feedback.CountHelpful | app/feedback.py:73 | no more helpful records than records |
| Feedback.CountsAppend | app/feedback.py:71-73 | each of the three counts adds up over concatenation of the records |
| Feedback.CountsLaws | app/feedback.py:71-73 | 0 for no records, additive over concatenation, and a single record counted exactly when it is refused, carries feedback, or is marked helpful |
| Feedback.HelpfulAtMostWithFeedback | app/feedback.py:72-73 | helpful records are at most the records with feedback |
| Feedback.Confidences | app/feedback.py:75 | one confidence per record |
| Feedback.AverageConfidenceBounds | app/feedback.py:75 | confidences in [0, 1] average to a value in [0, 1] |
| Feedback.StatsOf | app/feedback.py:66-83 | no interactions for no logs; otherwise the total, refused count over total, with-feedback count over total, helpful count over with-feedback count (0 without feedback) and the mean confidence, each rate in [0, 1] |
| Feedback.FeedbackCollector.constructor | app/feedback.py:11-13 | keeps the path and the existing file |
| Feedback.FeedbackCollector.LogInteraction | app/feedback.py:15-45 | appends exactly one record (creating the file) and returns its id |
| Feedback.FeedbackCollector.LoadFeedbackLogs | app/feedback.py:47-62 | the reading loop returns exactly `Loaded(file, limit)` |
| Feedback.FeedbackCollector.GetFeedbackStats | app/feedback.py:64-83 | the statistics of the records loaded from the first 1000 lines: no interactions exactly when none load; otherwise at most 1000 records and every rate in [0, 1] |
| Feedback.FeedbackCollector.LogFeedback | app/feedback.py:85-106 | no match leaves the file alone; otherwise the file becomes the at most 10000 loaded records with the first match's feedback replaced |
| Feedback.UpdateTouchesOnlyFirstMatch | app/feedback.py:90-105 | the update changes only the first matching record's feedback, keeps the count, and reads back unchanged |
| Monitoring.P95Index | app/monitoring.py:48 | `int(n * 0.95)` lies in [n // 2, n) for n >= 1 |
| Monitoring.Summary | app/monitoring.py:47-49 | p50 is `sorted(values)[n // 2]`, p95 is `sorted(values)[int(n * 0.95)]`, and the mean times n is the sum; so both percentiles are recorded values, p50 <= p95, and the mean lies between the minimum and the maximum |
| Monitoring.SummaryFacts | app/monitoring.py:47-49 | the two sorted positions hold recorded values in order, and the mean lies between the minimum and the maximum |
| Monitoring.PercentilesAreValues | app/monitoring.py:47-48 | indexing the sorted values gives recorded values, in order |
| Monitoring.MeanBounds | app/monitoring.py:49 | the mean lies between the minimum and the maximum |
| Monitoring.AsReals | app/monitoring.py:38 | refusals count as 1 and answers as 0 |
| Monitoring.CountTrue | app/monitoring.py:72 | the number of true entries (their multiplicity), so at most the list's length and positive only when some entry is true |
| Monitoring.RefusedRate | app/monitoring.py:72 | 0 for no queries; otherwise the count of refusals over the number of queries, in [0, 1], positive only when some query was refused |
| Monitoring.MetricsCollector.constructor | app/monitoring.py:12-15 | all lists empty, nothing written |
| Monitoring.MetricsCollector.RecordQuery | app/monitoring.py:17-39 | one record written and exactly one value appended to each list; the i-th value of every list stays the matching field of the i-th record written |
| Monitoring.MetricsCollector.CurrentStats | app/monitoring.py:41-51 | a summary for exactly the metrics with at least one value |
| Monitoring.MetricsCollector.DetectDrift | app/monitoring.py:53-76 | latency iff p95 present, non-zero and > 1000; recall iff mean present, non-zero and < 0.7; refusal iff the refused share > 0.1 |
| Monitoring.NoQueriesNoDrift | app/monitoring.py:66-74 | with nothing recorded no drift is reported |
| Monitoring.DriftHasWitness | app/monitoring.py:66-74 | every flag is witnessed by a recorded value beyond its threshold |
| Monitoring.HealthCheck.constructor | app/monitoring.py:81-83 | keeps the collector and the startup time |
| Monitoring.HealthCheck.GetHealth | app/monitoring.py:85-97 | "ok" iff no drift; the drift report; uptime since startup |
| TrainRanker.Label | training/train_ranker.py:45-50 | the confidence when marked helpful and not refused, otherwise 0 |
| TrainRanker.RowOf | training/train_ranker.py:66-75 | [conf, 0.9 conf, len(text)/100, len(citations)/3, 0.9, label] |
| TrainRanker.RowsOf | training/train_ranker.py:64-76 | one row per record, in order |
| TrainRanker.Labels | training/train_ranker.py:77 | one label per record, in order |
| TrainRanker.QueryOrder | training/train_ranker.py:38-42 | the distinct queries, each asked somewhere in the logs, pairwise distinct |
| TrainRanker.Group | training/train_ranker.py:38-57 | records of the logs with that query, non-empty iff the query was asked |
| TrainRanker.Assemble | training/train_ranker.py:60-79 | never "insufficient"; rows = labels = sum of group sizes; every group has at least two records; rows are six wide and y[i] is row i's last slot |
| TrainRanker.TrainingData | training/train_ranker.py:21-87 | None below `min_feedback`; otherwise non-empty rows with the shape facts of `Assemble`, or None when nothing qualifies |
| TrainRanker.GroupStep | training/train_ranker.py:39-57 | one grouping step keeps keys in first-appearance order and each list equal to its query's records so far |
| TrainRanker.QueryOrderSnoc | training/train_ranker.py:41-42 | a new query joins the key order at the end; a seen one changes nothing |
| TrainRanker.GroupSnoc | training/train_ranker.py:52-57 | a record is appended to its own query's group only |
| TrainRanker.AssembleStep | training/train_ranker.py:62-79 | one more query appends its group when it has at least two records, unless the run has failed |
| TrainRanker.FailureSticks | training/train_ranker.py:71 | once a group fails, the whole run fails |
| TrainRanker.AppendGroup | training/train_ranker.py:66-77 | fails iff some record lacks answer text; otherwise appends that group's rows and labels |
| TrainRanker.GroupByQuery | training/train_ranker.py:38-57 | the grouping loop builds the key order and each query's records in log order |
| TrainRanker.AssembleGroups | training/train_ranker.py:60-79 | the row-building loop returns exactly `Assemble` |
| TrainRanker.AssembleNext | training/train_ranker.py:62-79 | the loop body for one query: a group of two or more records is appended unless a record lacks answer text, in which case the run fails |
| TrainRanker.GeneratedStep | training/train_ranker.py:62-79 | from a successful state, one more query keeps it for a group under two, fails for an unanswered record, and appends the group's rows, labels and size otherwise |
| TrainRanker.BuildTrainingData | training/train_ranker.py:33-82 | the method returns exactly `TrainingData` |
| TrainRanker.TrainingPipeline.constructor | training/train_ranker.py:14-19 | keeps the directory, threshold and feedback collector |
| TrainRanker.TrainingPipeline.GenerateTrainingData | training/train_ranker.py:21-87 | the training data of the first 10000 log lines |
| TrainRanker.LabelsOfRefusedAreZero | training/train_ranker.py:45-50 | every label is 0 or the confidence, and 0 for a refused record |
| TrainRanker.SingleQueriesContributeNothing | training/train_ranker.py:63-64 | a query with fewer than two records adds no rows and no group |
| TrainRanker.UnansweredRepeatedQueryFails | training/train_ranker.py:71 | a record without answer text whose query repeats makes the run fail once there are enough logs |
| Pipeline.AsCandidates | app/pipeline.py:48-51 | each hit becomes a candidate with its text and score |
| Pipeline.RetrievalRecall | app/pipeline.py:61 | in [0, 1]; 1 once the candidates reach max(docs, 1); otherwise candidates over documents |
| Pipeline.RankScores | app/pipeline.py:62 | each ranked candidate's rank score, 0 when missing |
| Pipeline.RankerNdcg | app/pipeline.py:62-63 | 0 for no ranked candidates; otherwise between the smallest and the largest rank score |
| Pipeline.Ranked | app/pipeline.py:51 | at most five candidates, their texts those of the first candidates |
| Pipeline.QueryPipeline.constructor | app/pipeline.py:16-23 | wires the retriever, ranker, metrics and feedback collectors; both retrievers must be built over `docs`, the corpus retrieval recall divides by |
| Pipeline.QueryPipeline.Candidates | app/pipeline.py:48 | retrieval candidates carry a score and no rank score |
| Pipeline.QueryPipeline.Answer | app/pipeline.py:47-54 | the hybrid candidates, the ranked top five of them and the gated synthesis over those |
| Pipeline.QueryPipeline.RunPipeline | app/pipeline.py:26-78 | the response is the gated synthesis over the ranked top five; one metrics record is written and each metric list gets its value (latency, recall, ndcg, refused, confidence); one interaction record is appended |
| Pipeline.QueryPipeline.Record | app/pipeline.py:56-69 | the metrics record and each list value for the answer, and the interaction record with no user feedback |
| Pipeline.NoCandidatesRefuses | app/pipeline.py:48-54 | no retrieval candidates means a refusal for lack of context with confidence 0 |
| Pipeline.CitationsComeFromCandidates | app/pipeline.py:51-54 | every citation is a prefix of at most 100 characters of one of the first three candidates |
| Pipeline.AnswersClearTheGate | app/pipeline.py:54 | an answer is returned only with confidence >= 0.5 and at most 256 characters |

## Left out

- The BM25 branch of lexical retrieval is not modelled; retrieval always uses the overlap fallback, as when the library is missing.
- The sentence encoder, the faiss index and the SHA-256-seeded pseudo-embedding are not modelled. They are deterministic function parameters, so neither their vectors nor the ids and scores faiss reports, nor their order, is modelled. The model does read the reported ids through the document list.
- The LightGBM booster, its training and its file format are not modelled. The booster is a function from a row to a score, and training is a function parameter.
- File and JSON I/O are modelled only as their contents:
  - log files as sequences of parsed or garbled lines, and the metrics file as the records appended to it;
  - a missing or unreadable file as `None` or `ReadFailed`.

  Directory creation is left out.
- `DataLoader.load_structured_csv` is not modelled (CSV parsing is foreign). Only the row validator is.
- Not modelled, because they are file writing and printing around the modelled training data:
  - `TrainingPipeline.train_and_save`;
  - the `__main__` block of the training script;
  - the training log.
- Clocks, uuids and the measured latency are parameters, and uptime is the difference of two readings.
- The try/except wrapper and the module-level singletons of the pipeline are not modelled. The HTTP API, `run.py` and `demo.py` are not part of this model.
- Constrained.Synthesize: the refusal reason is a datatype carrying the confidence and threshold. The `{:.2f}` rendering is not modelled.
- Monitoring.MetricsCollector.DetectDrift: each flag carries its value instead of the formatted message string.
- Scores are exact reals; float32 rounding and overflow are not modelled.
- Character classes are ASCII: `\w` is letters, digits and underscore; whitespace is space, tab, newline, carriage return, vertical tab, form feed and the file, group, record and unit separators (0x1C-0x1F); lower-casing maps A-Z only. Non-ASCII whitespace and letters are not modelled.
- Feedback.UserFeedback: a `helpful` entry that is not a boolean is not modelled. The entry is either absent or a boolean.
- DenseRetrieval.DenseRetriever.constructor: an empty corpus is a precondition. The ValueError the source raises for it, or its later failure at the index size or the first search, is not modelled as an error value.
- DenseRetrieval.Dot: vectors of different lengths are cut to the shorter one, where numpy raises. The encoders are taken to give every text a vector of one width, so this case is not modelled.
- DenseRetrieval.DenseRetriever.Search: the index is taken to report only ids of stored vectors or the padding id -1. That is a precondition; an id outside that range, which would raise IndexError, is not modelled.
- DenseRetrieval.DenseRetriever.Search: k is a natural number. A negative k is not modelled, because numpy's handling of it is not part of this model.
- DenseRetrieval.KeptPositions: ties between equal similarities are ordered by position, though numpy's partition and argsort promise no tie order.
- DenseRetrieval.BruteForceTopK: its own contract states only the length. Order and domination are stated by `BruteForceNonIncreasing` and `BruteForceDominates`.
- Ranker.SimpleRank: the returned list is modelled as values; it is not modelled as aliasing the mutated input dicts.
- Ranker.RankingOrchestrator.constructor: the ranking model is passed in, not constructed inside.
- Feedback.FeedbackCollector.LogFeedback: the rewrite is modelled as replacing the line sequence; partial writes are not modelled.
- The `retrieval_recall` and `ranker_ndcg` values the pipeline records are modelled as computed. No claim is made that they are a recall or an NDCG.
