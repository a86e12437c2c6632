# srm-websearch relevance engine, modelled in Dafny

This project models the relevance engine of srm-websearch, a structured
relevance model that predicts the labels of NSDL library records. It covers
the engine's two snapshots, `src` and `trunk`.

Each test document is scored against every training document, field by
field, as a product of per-term Bernoulli factors:
- the term's smoothed estimate `pml^(1-R) * pavg^R` for the training document
  when the test document holds the term;
- its complement when the test document does not;
- the background rate `collectionFreq / collectionSize` for a training
  document outside the term's postings.

The title and desc matrices are multiplied entry by entry. Each test
document's row is ranked, and the top 100 neighbours vote with their stored
labels.

Around this core the project models:
- the parallel chunked fold of `PriorCalculator`;
- the single-label audience predictor;
- the two multi-label subject predictors, with Precision@K;
- the Laplace-smoothed delta-kernel scorer;
- the train/test selections;
- the line-oriented record parser shared by the three index builders.

Each snapshot is modelled separately, with its own differences:
- the `src` document length counts occurrences, the `PriorCalculator` length
  counts distinct terms, and the trunk `StructuredRelevanceModel` length reads
  the title vector;
- the `src` estimate buffer is reused across terms;
- the trunk averages are lost to pass-by-value;
- the trunk `val` complement persists across test documents;
- the trunk `TreeMap` is keyed by a non-Comparable class.

The model's conventions:
- **Indices.** A Lucene index is replaced by `TermIndex.Index`: a term
  dictionary in enumeration order, with postings `(doc, tf)` per term and
  per-document term vectors.
- **Math.pow.** It is a function parameter. Only the laws of
  `java.lang.Math.pow` that the proofs need are assumed of it
  (`Estimator.JavaPow`).
- **Randomness and map order.** Shuffles, `Math.random` draws and `HashMap` or
  `HashSet` iteration orders are inputs. Lemmas show where the order cannot
  matter.
- **Faults.** Every Java fault becomes a `Wrappers.Fault` in an `Outcome`.
  These are a null dereference, an array or substring index out of range,
  `System.exit`, a `ClassCastException`, and a floating-point division by
  zero that Java would carry on as Inf or NaN.

Files:
- `wrappers.dfy`, `text.dfy`, `index.dfy`, `estimator.dfy`, `readers.dfy`:
  the shared vocabulary.
- `matrix.dfy`, `chunked_fold.dfy`, `prior_calculator.dfy`: the trunk
  `PriorCalculator`.
- `src_relevance_model.dfy`, `src_prediction.dfy`: the `src`
  `StructuredRelevanceModel`.
- `trunk_relevance_model.dfy`: the trunk `StructuredRelevanceModel`.
- `ranking.dfy`, `combination.dfy`, `voting.dfy`, `src_multilabel.dfy`,
  `trunk_multilabel.dfy`, `evaluation.dfy`: the ranking, voting and
  evaluation steps.
- `selection.dfy`: the train/test selections.
- `delta_kernel.dfy`: the trunk `SRM` scorer.
- `records.dfy`, `src_index.dfy`, `global_index.dfy`: the index builders.

## Model

| member | source | states |
|---|---|---|
| Text.ContainsNumber | trunk/src/srmdata/PriorCalculator.java:149-155 | a term is rejected exactly when some character of it is a decimal digit '0'..'9' |
| Text.ToLower | src/srmdata/MultiLabelClassificationNSDL.java:75-79 | lower-casing keeps the length, leaves no ASCII upper-case letter, and changes only upper-case letters, each to its lower-case form |
| Text.Tokenize | src/srmdata/MultiLabelClassificationNSDL.java:65-73 | every token is an ASCII-letter word longer than two characters |
| Text.TokenizeSeparator | src/srmdata/MultiLabelClassificationNSDL.java:65-73 | a non-letter splits the tokens: tokens of `a + [sep] + b` are tokens of `a` then tokens of `b` |
| Text.TokenizeWord | src/srmdata/MultiLabelClassificationNSDL.java:65-73 | a letter-only word is a single token exactly when longer than two characters, and yields nothing otherwise; with the previous row this fixes the tokens as the maximal letter runs longer than two |
| Text.LabelPieces | trunk/src/srmdata/SRM.java:261-269 | the StringTokenizer pieces of a label are non-empty and contain none of `'`, `:`, `/` |
| Text.RunsSeparator | trunk/src/srmdata/SRM.java:261-269 | a delimiter splits the pieces of a label: the pieces of `a + [sep] + b` are those of `a` followed by those of `b` |
| Text.NatToString | src/srmdata/NSDLIndex.java:53-65 | the `"" + n` rendering of a count is a non-empty digit string without a leading zero |
| Text.DecimalRoundTrip | src/srmdata/NSDLIndex.java:53-65 | reading the rendered count back as a decimal gives the count |
| TermIndex.Vocabulary | src/srmdata/StructuredRelevanceModel.java:223-239 | the vocabulary of a field is exactly the index's terms of that field without a digit |
| TermIndex.CollectionFreqWithinSize | trunk/src/srmdata/PriorCalculator.java:132-147 | a term's total frequency is at most findCollectionSize, the occurrences of every admissible term of the field |
| Estimator.ShrinkWeightBounds | trunk/src/srmdata/PriorCalculator.java:172-178 | with meanfreq > 0 the shrinkage weight R lies strictly between 0 and 1 |
| Estimator.Scatter | trunk/src/srmdata/PriorCalculator.java:174-183 | each posting document receives its own value and every other slot of the buffer is left as it was |
| Estimator.ScatterCovered | src/srmdata/StructuredRelevanceModel.java:284-296 | postings reaching every document overwrite the whole buffer, so its earlier contents cannot show |
| Estimator.FillZerosSettles | trunk/src/srmdata/PriorCalculator.java:185-189 | a second fill changes nothing, and no entry is left at 0.0 exactly when the background rate is non-zero or no entry was 0.0 |
| Estimator.BackgroundRate | trunk/src/srmdata/PriorCalculator.java:185 | a term with occurrences has a background rate in (0, 1] |
| ScoreMatrix.OnesNeutral | trunk/src/srmdata/PriorCalculator.java:106-116 | the all-1.0 matrix every worker and the reduction start from is neutral for the entry-wise product, so a worker that never starts leaves the final scores unchanged |
| ScoreMatrix.PresenceArray | trunk/src/srmdata/PriorCalculator.java:259-266 | termDocsArr is 0 exactly at the test documents holding the term and 1 elsewhere |
| ScoreMatrix.ApplyCommutes | trunk/src/srmdata/PriorCalculator.java:269-274 | two terms multiplied into the matrix in either order give the same matrix, so the order in which a worker visits its terms does not matter |
| ScoreMatrix.FoldIsProduct | trunk/src/srmdata/PriorCalculator.java:250-277 | folded from the all-1.0 matrix, each entry is the product of that entry's factors over the terms |
| ScoreMatrix.FoldSplit | trunk/src/srmdata/PriorCalculator.java:106-122 | folding `a + b` equals the entry-wise product of folding `a` and folding `b`, which is why the vocabulary can be chunked |
| ScoreMatrix.FoldIgnoresNone | trunk/src/srmdata/PriorCalculator.java:255-257 | a term whose estimate is null changes nothing wherever it sits in the vocabulary |
| ChunkedFold.ChunkSize | trunk/src/srmdata/PriorCalculator.java:83 | the chunk size is the least c with c * p >= n, i.e. ceil(n / p) |
| ChunkedFold.WorkerRange | trunk/src/srmdata/PriorCalculator.java:89-100 | worker k is started iff k * chunkSize < n, and then covers [k * chunkSize, to] with to < n |
| ChunkedFold.WorkerRangesPartition | trunk/src/srmdata/PriorCalculator.java:79-100 | started workers' ranges are pairwise disjoint and every index in [0, n) belongs to one |
| ChunkedFold.RangeIsChunk | trunk/src/srmdata/PriorCalculator.java:89-100 | a started worker's inclusive range is the consecutive chunk [Lo(k), Lo(k+1)); an unstarted worker's chunk is empty |
| ChunkedFold.WorkerFold | trunk/src/srmdata/PriorCalculator.java:250-283 | a worker succeeds iff no term of its range faults, and then keeps the matrix shape |
| ChunkedFold.WorkerFoldIsFold | trunk/src/srmdata/PriorCalculator.java:250-277 | the worker's term-by-term loop is the multiplicative fold of the terms' evidence |
| ChunkedFold.ZeroGuard | trunk/src/srmdata/PriorCalculator.java:112-122 | the run stops exactly when the matrix has an entry equal to 0.0, and otherwise returns it unchanged |
| ChunkedFold.ReduceZero | trunk/src/srmdata/PriorCalculator.java:112-122 | an entry of the reduced matrix is 0.0 exactly when some partial matrix holds 0.0 there |
| ChunkedFold.ChunksFailTogether | trunk/src/srmdata/PriorCalculator.java:79-104 | some worker stops iff some term of the vocabulary faults |
| ChunkedFold.ReduceIsSequential | trunk/src/srmdata/PriorCalculator.java:106-122 | the worker-by-worker product of the partial matrices is the sequential fold over the whole vocabulary |
| ChunkedFold.ChunkedIsSequential | trunk/src/srmdata/PriorCalculator.java:79-122 | for any number of workers, the chunked run equals one worker folding the whole vocabulary followed by the 0.0 check |
| PriorCalculator.AllTerms | trunk/src/srmdata/PriorCalculator.java:60-77 | allTerms holds exactly the admissible field terms of the test index or of the training index |
| PriorCalculator.SharedTermTwice | trunk/src/srmdata/PriorCalculator.java:60-77 | a term present in both indices is collected at two different positions, so its factor enters twice |
| PriorCalculator.ComputeAvgs | trunk/src/srmdata/PriorCalculator.java:194-232 | succeeds iff every posting document has a non-empty vector; collectionFreq is the total tf, meanfreq * count the total tf, pavg * count the sum of tf / dl; all zero for no postings |
| PriorCalculator.MlEstimate | trunk/src/srmdata/PriorCalculator.java:157-192 | null iff the term has no occurrences; otherwise one non-zero entry per document: pml^(1-R) * pavg^R at posting documents and the background rate elsewhere |
| PriorCalculator.EstimateWeights | trunk/src/srmdata/PriorCalculator.java:172-178 | for a term with occurrences, every posting's shrinkage weight lies strictly between 0 and 1 |
| PriorCalculator.TermEvidence | trunk/src/srmdata/PriorCalculator.java:255-266 | a term's evidence is its training estimate with its presence array over the test documents, faulting exactly when compute_avgs does |
| PriorCalculator.SequentialPriors | trunk/src/srmdata/PriorCalculator.java:36-125 | the reference run succeeds iff every vocabulary term's postings have usable vectors, and it yields a training x test matrix |
| PriorCalculator.PriorsAreSequential | trunk/src/srmdata/PriorCalculator.java:36-125 | computePriors with any p workers, and with the program's 4, equals the sequential fold guarded by the 0.0 exit |
| PriorCalculator.UnseenTermIsNeutral | trunk/src/srmdata/PriorCalculator.java:255-257 | a term with no training postings, for example one found only in the test index, leaves a worker's matrix unchanged |
| SrcRelevanceModel.DocLengthsMeasured | src/srmdata/StructuredRelevanceModel.java:189-211 | the lengths are positive at every posting document of a term, so tf / length is finite, exactly when each such document has a vector in the field with at least one occurrence; a missing vector gives length 0 |
| SrcRelevanceModel.ComputeAvgs | src/srmdata/StructuredRelevanceModel.java:308-337 | (0, 0, 0) for no postings; otherwise mean tf / length, mean tf and total tf; a zero length gives a non-finite pavg |
| SrcRelevanceModel.EstimateInto | src/srmdata/StructuredRelevanceModel.java:270-306 | null before any write when the term has no occurrences; a posting with tf == 0 exits; posting slots get the estimate, slots still 0.0 get the background rate, and other slots keep their previous value |
| SrcRelevanceModel.CoveredIgnoresBuffer | src/srmdata/StructuredRelevanceModel.java:284-303 | when the postings reach every document, writing into a stale buffer equals writing into a fresh one |
| SrcRelevanceModel.Presence | src/srmdata/StructuredRelevanceModel.java:245-252 | the presence array is 0 exactly at the test documents holding the term |
| SrcRelevanceModel.TrainTerms | src/srmdata/StructuredRelevanceModel.java:223-239 | the vocabulary is exactly the admissible field terms of the training index |
| SrcRelevanceModel.ComputePriorsAsWritten | src/srmdata/StructuredRelevanceModel.java:201-268 | the as-written loop, threading one buffer through the vocabulary, succeeds iff every term can be estimated, and yields a training x test matrix |
| SrcRelevanceModel.ComputePriorsCorrected | src/srmdata/StructuredRelevanceModel.java:201-268 | the intended computation, with a fresh buffer per term and terms without occurrences skipped, succeeds on the same inputs |
| SrcRelevanceModel.CorrectedIsProduct | src/srmdata/StructuredRelevanceModel.java:255-261 | each entry of the corrected matrix is the product over the vocabulary of the term's own factor |
| SrcRelevanceModel.CorrectedSkipsUnseen | src/srmdata/StructuredRelevanceModel.java:241-243 | in the corrected computation a term with no occurrences leaves the matrix unchanged |
| SrcRelevanceModel.StaleBufferHarmlessWhenCovered | src/srmdata/StructuredRelevanceModel.java:221-261 | when every term occurs in every training document, the as-written and corrected matrices are equal |
| SrcRelevanceModel.StaleBufferCounterexample | src/srmdata/StructuredRelevanceModel.java:221-261 | on a two-term, two-document example the as-written entry is 0.0 where the intended value is 2/3 |
| Combination.RankedEntry | src/srmdata/MultiLabelClassificationNSDL.java:246-254 | every entry of a ranked row is a training document i carrying the score title[i][j] * desc[i][j] and relevance 0; content is not used |
| Combination.RankRow | src/srmdata/StructuredRelevanceModel.java:85-89 | the ranked row is descending in score, a permutation of the combined row, and keeps tied entries in training order |
| Combination.EveryDocumentRanked | src/srmdata/StructuredRelevanceModel.java:85-89 | every training document has a place in each ranked row |
| Ranking.SortDesc | src/srmdata/StructuredRelevanceModel.java:157-167 | sorting with the descending comparator gives a descending permutation that keeps ties in input order |
| Ranking.DescendingCompare | src/srmdata/StructuredRelevanceModel.java:157-167 | the comparator is negative when the first key is greater, positive when it is smaller, zero on a tie |
| Ranking.StableSortUnique | src/srmdata/StructuredRelevanceModel.java:157-167 | any descending, stable rearrangement of the same candidates is exactly `SortDesc` |
| Ranking.SortHead | src/srmdata/StructuredRelevanceModel.java:157-167 | the head of the ranking is the earliest candidate of greatest key |
| SrcPrediction.Normalize | src/srmdata/StructuredRelevanceModel.java:91-98 | fails when fewer than 100 documents overrun the array or the top-100 sum is 0; otherwise only the top 100 change, each becomes its share of that sum, and the shares add up to 1 |
| SrcPrediction.NormalizeKeepsRanking | src/srmdata/StructuredRelevanceModel.java:91-98 | a ranked, non-negative top 100 stays ranked and non-negative after normalization |
| SrcPrediction.AudienceIndex | src/srmdata/StructuredRelevanceModel.java:102-109 | the audience map has six labels, each in its own slot |
| SrcPrediction.LabelSlot | src/srmdata/StructuredRelevanceModel.java:118-121 | a stored audience that is missing or not one of the six labels dereferences null; otherwise its slot's label is its lower-cased value |
| SrcPrediction.TallyComputesVotes | src/srmdata/StructuredRelevanceModel.java:113-123 | the increment loop computes each slot's vote count, and the counts add up to the number of voters (total_freq) |
| SrcPrediction.WeighedAt | src/srmdata/StructuredRelevanceModel.java:125-131 | a neighbour's relevance is its audience's share of the votes times its score |
| SrcPrediction.FirstCorrect | src/srmdata/StructuredRelevanceModel.java:134-146 | a test document without a stored value dereferences null; otherwise it is counted iff the first prediction's stored value equals it |
| SrcPrediction.CountCorrect | src/srmdata/StructuredRelevanceModel.java:111-148 | numCorrect is the number of test documents predicted correctly, and the first failing document stops the count |
| SrcPrediction.PredictFieldWith | src/srmdata/StructuredRelevanceModel.java:71-150 | the count is at most the number of test documents, and fewer than 100 training documents overrun the array |
| SrcPrediction.SortRangeHarmless | src/srmdata/StructuredRelevanceModel.java:132 | with non-negative priors, re-sorting 99 entries (the exclusive bound as written) gives the same count as re-sorting 100 |
| SrcMultiLabel.Rescale | src/srmdata/MultiLabelClassificationNSDL.java:262-277 | the top 100 are divided by the whole row's total, or set to 0 when it is 0; entries past 100 are untouched; a shorter row overruns |
| SrcMultiLabel.RescaledTopAtMostOne | src/srmdata/MultiLabelClassificationNSDL.java:262-277 | with non-negative scores the rescaled top 100 add up to at most 1 |
| SrcMultiLabel.Predictions | src/srmdata/MultiLabelClassificationNSDL.java:300-326 | for a given keySet order of fieldCounts, the predictions are the first min(size, 10) candidates of the relevance model, in order; tied values stay in that key order |
| SrcMultiLabel.PredictionsOrderFree | src/srmdata/MultiLabelClassificationNSDL.java:300-326 | without weight ties among the voted values, every keySet order gives the same predictions |
| SrcMultiLabel.PredictField | src/srmdata/MultiLabelClassificationNSDL.java:239-330 | with one keySet order per test document, succeeds iff there is no test document or at least 100 training documents; one PredictionResult per test document, with its actual values and at most ten distinct predictions |
| Voting.Credit | src/srmdata/MultiLabelClassificationNSDL.java:291-296 | a new key starts at the score, a known key adds it, and no other key changes |
| Voting.CreditAllWeight | src/srmdata/MultiLabelClassificationNSDL.java:289-297 | a neighbour adds its score to a value once per time it stores that value |
| Voting.FieldCounts | src/srmdata/MultiLabelClassificationNSDL.java:281-298 | fieldCounts has exactly the stored values of the top neighbours as keys, each weighted by the sum of score x multiplicity |
| Voting.KeyOrder | src/srmdata/MultiLabelClassificationNSDL.java:300-306 | the first-seen order is one admissible keySet order: it lists every voted value exactly once |
| Voting.EnumerationSize | src/srmdata/MultiLabelClassificationNSDL.java:300-306 | a keySet order has as many entries as the map has keys |
| Voting.RelevanceModel | src/srmdata/MultiLabelClassificationNSDL.java:300-307 | the candidates are sorted by descending weight and are a permutation of (value, weight) in key order |
| Voting.EveryLabelRanked | src/srmdata/MultiLabelClassificationNSDL.java:300-307 | every stored value of a top neighbour is a candidate |
| Voting.PredictionsOutweigh | src/srmdata/MultiLabelClassificationNSDL.java:320-326 | every candidate among the first n weighs at least as much as any value left out of them |
| Voting.HashOrderIrrelevant | src/srmdata/MultiLabelClassificationNSDL.java:300-307 | without weight ties, the map's key order does not change the relevance model |
| TrunkMultiLabel.PredictTest | trunk/src/srmdata/MultiLabelClassificationNSDL.java:128-169 | for a given keySet order, the first six of the relevance model of the top 100 (raw scores, no normalization), ties kept in key order; fewer than six voted values or fewer than 100 neighbours overrun |
| TrunkMultiLabel.PredictTestOrderFree | trunk/src/srmdata/MultiLabelClassificationNSDL.java:147-169 | without weight ties among the voted values, every keySet order gives the same six predictions |
| TrunkMultiLabel.PredictionsDistinct | trunk/src/srmdata/MultiLabelClassificationNSDL.java:147-169 | the six predictions are six different values |
| TrunkMultiLabel.PredictField | trunk/src/srmdata/MultiLabelClassificationNSDL.java:86-171 | with one keySet order per test document, succeeds iff every test row has 100 neighbours voting at least six values, and then gives six predictions per test document |
| Evaluation.AddActualSetLike | src/srmdata/MultiLabelClassificationNSDL.java:75-79 | the actual values and tokens are sets: adding a value twice is adding it once, and two values added in either order give the same result |
| Evaluation.AddPredicted | src/srmdata/MultiLabelClassificationNSDL.java:81-85 | the lower-cased value joins the ordered set once, and one token list is appended per call, repeats included |
| Evaluation.RecordContents | src/srmdata/MultiLabelClassificationNSDL.java:309-326 | the recorded actual values are the lower-cased actuals, and the predicted values are the lower-cased predictions |
| Evaluation.AddGains | src/srmdata/MultiLabelClassificationNSDL.java:164-179 | rank r adds relevant-token count / r to slot r-1; a result with more than 10 predictions overruns the array |
| Evaluation.PrecisionAtK | src/srmdata/MultiLabelClassificationNSDL.java:148-188 | each slot times the number of results is the total gain at that rank; no results is a 0 / 0 |
| Evaluation.HitsBounded | src/srmdata/MultiLabelClassificationNSDL.java:165-172 | relevance counts at most the prediction's tokens, and all of them exactly when every token is relevant |
| TrunkRelevanceModel.Row | trunk/src/srmdata/StructuredRelevanceModel.java:182-197 | the intended inner loop appends to each (test, md) pair the estimate if the test document holds the term, its complement otherwise, and touches no other pair |
| TrunkRelevanceModel.RowAsWrittenParity | trunk/src/srmdata/StructuredRelevanceModel.java:185-195 | as written, a test document's factor is the estimate after an even number of earlier term-lacking documents and its complement after an odd number |
| TrunkRelevanceModel.RowAsWrittenAllPresent | trunk/src/srmdata/StructuredRelevanceModel.java:185-195 | when every test document holds the term, the as-written loop is the intended one |
| TrunkRelevanceModel.FlipCounterexample | trunk/src/srmdata/StructuredRelevanceModel.java:192-194 | with two test documents lacking the term and estimate 0.25, the second pair gets 0.25 instead of 0.75 |
| TrunkRelevanceModel.FoldTerms | trunk/src/srmdata/StructuredRelevanceModel.java:163-200 | each (test, model) pair gets one factor per vocabulary term, in order, and no other pair is touched |
| TrunkRelevanceModel.DocLengths | trunk/src/srmdata/StructuredRelevanceModel.java:140-144 | a document's length is the distinct-term count of its title vector whatever the field; a missing vector dereferences null |
| TrunkRelevanceModel.Avgs | trunk/src/srmdata/StructuredRelevanceModel.java:243-275 | the intended averages over the postings in the model set: total tf, mean tf and mean tf / dl, with the faults of a missing or empty vector |
| TrunkRelevanceModel.AvgsAsWritten | trunk/src/srmdata/StructuredRelevanceModel.java:207-210 | the caller sees (0, 0, 0) whatever the postings; only the null dereference escapes |
| TrunkRelevanceModel.Estimate | trunk/src/srmdata/StructuredRelevanceModel.java:204-241 | every model document gets an entry; posting documents outside the model set are skipped; non-posting documents get collectionFreq / collectionSize |
| TrunkRelevanceModel.EstimateAsWritten | trunk/src/srmdata/StructuredRelevanceModel.java:204-241 | with the lost averages, every model document outside the postings gets 0.0 |
| TrunkRelevanceModel.SmoothedEstimate | trunk/src/srmdata/StructuredRelevanceModel.java:215-235 | with the averages returned, a training document without the term gets a positive background rate and every shrinkage weight R lies strictly between 0 and 1 |
| TrunkRelevanceModel.UnsmoothedEstimate | trunk/src/srmdata/StructuredRelevanceModel.java:224-226 | with zero averages the posting estimate reduces to tf / dl |
| TrunkRelevanceModel.PassByValueCounterexample | trunk/src/srmdata/StructuredRelevanceModel.java:207-231 | on a two-document index, document 1 gets 0.0 as written and the background rate 1/2 with the averages returned |
| TrunkRelevanceModel.ComputePriors | trunk/src/srmdata/StructuredRelevanceModel.java:138-202 | the intended computation, with all three corrections (a map keyed by the pair's values, the complement taken per test document, the averages returned): every (test, model) pair gets the factors of the vocabulary in order, and no other pair has an entry |
| TrunkRelevanceModel.ComputePriorsAsWritten | trunk/src/srmdata/StructuredRelevanceModel.java:138-196 | never stores an entry; with a non-empty vocabulary and non-empty document sets it always fails: a training document without a title vector dereferences null first, and once the lengths and the first term's estimate succeed, the TreeMap's first lookup throws ClassCastException |
| TrunkRelevanceModel.ClassCastWhereCorrectedSucceeds | trunk/src/srmdata/StructuredRelevanceModel.java:182-196 | wherever the corrected computation succeeds on a non-empty problem, the as-written one throws ClassCastException |
| TrunkRelevanceModel.ClassCastCounterexample | trunk/src/srmdata/StructuredRelevanceModel.java:182-196 | on a two-document index the as-written run throws, while the corrected one gives the pair two factors |
| TrunkRelevanceModel.PriorsAreProbabilities | trunk/src/srmdata/StructuredRelevanceModel.java:182-197 | estimates within [0, 1] keep every entry of the model within [0, 1] |
| TrunkRelevanceModel.PriorsIgnoreOrder | trunk/src/srmdata/StructuredRelevanceModel.java:182-197 | the HashSet iteration orders of the model and test ids cannot change the priors |
| Selection.SplitHitsAt | trunk/src/srmdata/SRM.java:365-380 | the first floor(0.8 n) shuffled ids are training, the rest testing, and together they are the whole list |
| Selection.SplitPartitions | trunk/src/srmdata/SRM.java:365-380 | with distinct hits, the training and test sets are disjoint and every hit is in one of them |
| Selection.MaxTrainFourFifths | trunk/src/srmdata/StructuredRelevanceModel.java:101-102 | the cut `(int)(0.8 * n)` is floor(4n / 5) |
| Selection.ShuffledSplit | trunk/src/srmdata/StructuredRelevanceModel.java:99-109 | every split document matches the query, and the two parts hold as many ids as the hits |
| Selection.DrawTestIds | trunk/src/srmdata/MultiLabelClassificationNSDL.java:228-232 | at most one new test id per draw, every id is a hit, and no hits with a draw overruns the array |
| Selection.Scan | trunk/src/srmdata/MultiLabelClassificationNSDL.java:234-246 | the scan stops at the first id where both quotas are met; test documents are the drawn ids before it, and training documents the first numTraining other ids |
| Selection.ScanKeepsDrawn | trunk/src/srmdata/MultiLabelClassificationNSDL.java:234-246 | every drawn id reaches the test index, and the training index is as full as the quota and the index allow |
| Selection.MultiLabelDataset | src/srmdata/MultiLabelClassificationNSDL.java:381-406 | with hits, test ids are the drawn matching ids, training ids are other ids within the quota, and the two sets are disjoint; without hits the first draw overruns |
| DeltaKernel.CountTokens | trunk/src/srmdata/SRM.java:143-157 | the count map is the multiset of the field's tokens, and titleNI is its total size |
| DeltaKernel.FieldSimBounds | trunk/src/srmdata/SRM.java:160-174 | a field scores 0 against an empty query, and otherwise strictly between 0 and the number of query tokens |
| DeltaKernel.ContributionBounds | trunk/src/srmdata/SRM.java:166-173 | each query token's contribution, (count+1)/(NI+2) or 1/(NI+2), lies strictly between 0 and 1 |
| DeltaKernel.FieldSimOrderFree | trunk/src/srmdata/SRM.java:160-174 | any two listings of the same query set give a field the same score |
| DeltaKernel.QuerySet | trunk/src/srmdata/SRM.java:111-130 | the query set lists each token of the test field once |
| DeltaKernel.RepeatIgnored | trunk/src/srmdata/SRM.java:111-130 | repeating a token of the test field leaves every training field's score unchanged |
| DeltaKernel.DocScoreBounds | trunk/src/srmdata/SRM.java:252 | 100 * title + 0.01 * content + 0.01 * desc is at least 0, below the weighted ceiling, and positive once the test document has a token |
| DeltaKernel.Vote | trunk/src/srmdata/SRM.java:255-281 | every token of a document's label set gains the document's score exactly once, and nothing else changes |
| DeltaKernel.VoteOrderFree | trunk/src/srmdata/SRM.java:271-281 | the HashSet order of the label set cannot change the vocabulary scores |
| DeltaKernel.VoteAll | trunk/src/srmdata/SRM.java:133-311 | after the training documents, a token's score is its earlier score plus the scores of the documents whose labels hold it |
| DeltaKernel.DeltaKernelScore | trunk/src/srmdata/SRM.java:67-329 | the method returns 0.0, and its subject map gives each label token the summed scores of the training documents holding it |
| DeltaKernel.SupportNonNegative | trunk/src/srmdata/SRM.java:284-310 | every vocabulary score is a sum of document scores, so it is non-negative |
| DeltaKernel.ScoreFirstTests | trunk/src/srmdata/SRM.java:403-408 | main scores the first min(n, 5) test documents in order, each returning 0.0 |
| Records.IndexOf | trunk/src/srmdata/NSDLIndex.java:139 | indexOf is -1 iff the character is absent, and otherwise its first position |
| Records.SplitLine | trunk/src/srmdata/NSDLIndex.java:139-143 | a line reads iff it has a ':' with at least one character after it; the name is colon-free and the line is name, ':', one character, then value; otherwise substring faults |
| Records.LineRoundTrip | trunk/src/srmdata/IndexData.java:43-47 | a field with a colon-free name, written as `name: value`, reads back as itself, and a read line with a space after ':' is that field written out |
| Records.Group | trunk/src/srmdata/IndexData.java:34-48 | reading succeeds iff the file is well formed; the result has one document per blank line but the first; otherwise the first unreadable line decides the fault |
| Records.RunWellFormed | trunk/src/srmdata/NSDLIndex.java:89-155 | a file reads iff it is well formed, and otherwise fails with the fault of its first unreadable line |
| Records.RunShape | trunk/src/srmdata/NSDLIndex.java:89-137 | after reading, a document is open iff the file had a blank line, and each later blank line closed one |
| Records.GroupRender | src/srmdata/NSDLIndex.java:48-75 | reading a written file of documents with colon-free names gives back exactly those documents |
| Records.UnterminatedDropped | trunk/src/srmdata/IndexData.java:36-48 | field lines after the last blank line change nothing that is read: the open document is never added |
| Records.ValuesUniqueNames | src/srmdata/NSDLIndex.java:53-65 | in fields with pairwise different names, a name present has exactly its own value and an absent name has none |
| SrcIndex.CountsReadBack | src/srmdata/NSDLIndex.java:53-65 | reading a count field back gives the number of values it counts, and every other field is the document's own |
| SrcIndex.CreateIndex | src/srmdata/NSDLIndex.java:35-81 | succeeds iff the file is well formed; each closed document is stored in order with its counts; otherwise it fails like the reading |
| SrcIndex.CreateIndexOfRendered | src/srmdata/NSDLIndex.java:35-81 | a written file is stored as its documents, each with its counts |
| GlobalIndex.Average | trunk/src/srmdata/NSDLIndex.java:102-107 | the average is defined iff the count is positive, and then times the count gives the total; 0 / 0 is left undefined |
| GlobalIndex.CreateGlobalIndex | trunk/src/srmdata/NSDLIndex.java:65-162 | succeeds iff the file is well formed; then the documents are the admitted closed documents in file order and totalDocs their number; otherwise it fails as reading does |
| GlobalIndex.CountersSnoc | trunk/src/srmdata/NSDLIndex.java:144-153 | a field line updates exactly the counter its name selects: title, content and desc keep the last length, audience and subject sum |
| GlobalIndex.AdmittedDocs | trunk/src/srmdata/NSDLIndex.java:122-128 | a closed document is admitted iff its title, content and desc lengths are non-zero, it has a subject and exactly one audience; its audience length is that value's length |
| GlobalIndex.AdmitAtMost | trunk/src/srmdata/NSDLIndex.java:122-134 | at most every closed document is admitted |
| GlobalIndex.SmallIndex | trunk/src/srmdata/NSDLIndex.java:47-58 | succeeds iff every document has an audience (doc.get would otherwise be null) |
| GlobalIndex.SmallIndexSound | trunk/src/srmdata/NSDLIndex.java:47-58 | every kept document comes from the global index, and no more are kept than there are |
| GlobalIndex.SmallIndexComplete | trunk/src/srmdata/NSDLIndex.java:50-57 | a document whose audience is not learner or educator, or whose draw is below 0.3, is kept |
| GlobalIndex.SmallIndexDrops | trunk/src/srmdata/NSDLIndex.java:50-54 | a learner or educator document whose draw is not below 0.3 is dropped |
| GlobalIndex.SmallIndexOfGlobal | trunk/src/srmdata/NSDLIndex.java:32-63 | built from the global index, the small index never dereferences null |
| Wrappers.Sequence | trunk/src/srmdata/MultiLabelClassificationNSDL.java:129-171 | the values of a sequence of outcomes in order, or the first failure |

## Left out

- Lucene I/O: readers, writers, directories, `TermEnum`/`TermDocs` cursors and stored `Document`s are replaced by immutable indices and record lists. `Field.Store`/`Index`/`TermVector` options and `NumericField` encodings are not modelled.
- Analyzers (Standard, Snowball, stop words): the delta kernel takes each field as the token stream the analyzer would produce, and the index's terms are given.
- Thread start and join in `PriorCalculator`: each worker is a pure function of its chunk, and the workers share only read-only inputs.
- Floating point: every `double` and `float` is a Dafny `real`. Rounding, underflow, the `float` weights 0.01f and 100f, and NaN or Inf arithmetic are not modelled. A division Java would carry on as Inf or NaN is a `NonFinite` fault, and `GlobalIndex.Average` leaves 0 / 0 undefined.
- Math.pow: a function parameter constrained only by the `Estimator.JavaPow` laws, so numeric values of estimates are known only where those laws fix them.
- Randomness: `Collections.shuffle` and `Math.random` are inputs.
- HashMap and HashSet iteration orders are inputs, and lemmas show where they cannot matter. The multi-label predictors take one keySet order of `fieldCounts` per test document (`Voting.OrdersFor`). On a weight tie the order decides which values are predicted and in what rank, as it does in Java.
- The trunk subject predictor's title and desc matrices (`TrunkMultiLabel.PredictField`) are given inputs. trunk `MultiLabelClassificationNSDL.predictfield` (lines 68 and 74) calls a `computePriors(IndexReader, IndexReader, String)` returning `double[][]` that the trunk `StructuredRelevanceModel` does not define; its only `computePriors` (line 138) takes two id sets and returns nothing. The trunk sources as given do not compile there, so no model links the two.
- Unicode: `toLowerCase` and `equalsIgnoreCase` are modelled on ASCII letters only. Field-value lengths count Unicode scalar values, where Java's `String.length()` counts UTF-16 code units, as the next three lines say.
- GlobalIndex.CountersSnoc: the title, content, desc and audience lengths count Unicode scalar values, so a value with a character outside the Basic Multilingual Plane gets a smaller length than in Java.
- GlobalIndex.CreateGlobalIndex: the stored title_len, content_len, desc_len and audience_len are those smaller lengths for such values; which documents are admitted does not change, since admission tests only for non-zero lengths.
- GlobalIndex.AdmittedDocs: the audience length it states is the scalar-value length; the admission condition itself is the same as Java's.
- `String.getBytes` in `IndexData.createIndex`: field values are kept as strings.
- Java `int` overflow of the counters, lengths and collection sizes, which would need files of more than 2^31 characters or occurrences.
- Printing, timing (`System.nanoTime`, `time_taken`) and the report layout of `dumpOutput`; only its Precision@K arithmetic is modelled.
- The sorted-map print at the end of `calculateDeltaKernelScore`.
- The delta kernel's catch-all exception handler: a training document without a title, content or desc field is not modelled, since records are given as token streams.
- `computeStatistics` in both `NSDLIndex` files: it only runs Lucene queries and prints.
- src/srmdata/SRM.java: holds only field-less data holders and an empty `main`.
- `predictAudience` and the `main` methods other than the delta-kernel loop: they only wire the modelled operations to files.
- The search queries are modelled as a filter on per-document counts (`Selection.MatchingIds`), with the hits of an equal-score query in id order; Lucene scoring is not modelled.
- TrunkRelevanceModel.ComputePriors: this is the intended computation, not the source's, and it differs from the source in three ways. Its map is keyed by the (test, model) pair's values, where the real `TreeMap` keyed by `DocPair` throws ClassCastException (`TrunkRelevanceModel.ComputePriorsAsWritten`). It takes the complement per test document (`TrunkRelevanceModel.Row`, against `RowAsWritten`). It uses the averages `compute_avgs` computes (`TrunkRelevanceModel.Avgs`, against `AvgsAsWritten`). No member models the run that has a working map but keeps the other two defects; each of those defects is modelled on its own.
- DeltaKernel.PCScore and DeltaKernel.DirichletKernelScore: `calculatePCScore` and `calculateDirichletKernelScore` (trunk SRM.java:331-341) are stubs returning 0.0. They are kept as such, and no property beyond that return value exists to state.
- The src predictors model one (train, test) pair of indices and take its title and desc matrices as given inputs (`SrcPrediction.PredictFieldWith`, `SrcMultiLabel.PredictField`). src `StructuredRelevanceModel.predictField` loops over `testTrainFiles.entrySet()` (line 43) and computes both matrices with its own `computePriors` (lines 57-61). src `MultiLabelClassificationNSDL.predictfield` computes them with `PriorCalculator` (lines 212 and 222). A failure in computing them, such as the `tf == 0` exit of `SrcRelevanceModel.ComputePriorsAsWritten` or the exits of `PriorCalculator.PriorsAreSequential`, is modelled by those members but not carried into the predictors.
- The content priors that src `StructuredRelevanceModel.predictField` (line 67) and src `MultiLabelClassificationNSDL.predictfield` (lines 229-232) compute and never use: the predictors take only the title and desc matrices. Computing them can still stop the run, through the `tf == 0` exit of `compute_mlestimate` or the exits of `PriorCalculator`, and the model does not carry that failure.

## Findings

| source | as written | input that shows it | evidently intended | confidence | as-written member | corrected member |
|---|---|---|---|---|---|---|
| src/srmdata/StructuredRelevanceModel.java:241-243 | `compute_mlestimate` writes into one buffer `mle` allocated for the whole vocabulary, and the caller tests `mle == null`, which never holds; so a term without occurrences is scored with the previous term's estimates, and other terms keep stale values where their postings do not reach | training title terms "a" (document 0, tf 2) and "b" (document 1, tf 1), one test document holding "a": the entry for training document 0 is 1 * (1 - 1) = 0.0 | a fresh estimate per term, with terms without occurrences skipped: the entry is 1 * (1 - 1/3) = 2/3 | not executed | SrcRelevanceModel.StaleBufferCounterexample | SrcRelevanceModel.CorrectedIsProduct |
| trunk/src/srmdata/StructuredRelevanceModel.java:192-194 | the complement is taken by assigning `val = 1.0 - val`, so it persists for the later test documents of the same training document | one training document with estimate 0.25 and two test documents, neither holding the term: the second pair gets the factor 0.25 | each test document lacking the term gets `1 - val` for the original `val`, here 0.75 | not executed | TrunkRelevanceModel.FlipCounterexample | TrunkRelevanceModel.Row |
| trunk/src/srmdata/StructuredRelevanceModel.java:207-210 | `compute_avgs` assigns to its boxed parameters, which Java passes by value, so the caller's pavg, meanfreq and collectionFreq stay 0 and every non-posting estimate is 0.0 | title terms "cat" (document 0) and "dog" (document 1), both documents for training: document 1's estimate for "cat" is 0.0 | the averages returned to the caller: document 1 gets the background rate 1/2 | not executed | TrunkRelevanceModel.PassByValueCounterexample | TrunkRelevanceModel.SmoothedEstimate |
| trunk/src/srmdata/StructuredRelevanceModel.java:71-78 | the model map is a `TreeMap` over `DocPair`, which is not Comparable and is given no comparator, so the first `model.get` throws ClassCastException | the two-document index above, document 0 for training and document 1 for testing | a map keyed by the pair's values (q, md), with a fresh `DocPair` for every pair: the one `dp` object per term, mutated before each `model.get` and `model.put` (lines 179-195), would corrupt a HashMap as well | not executed | TrunkRelevanceModel.ClassCastCounterexample | TrunkRelevanceModel.ComputePriors |
