/** What the src multi-label classifier records per test document
    (MultiLabelClassificationNSDL.PredictionResult) and the precision at k it
    reports over all of them (dumpOutput).

    Values are lower-cased before they are kept.  Actual values and their
    tokens are sets; predicted values keep their first-insertion order without
    repeats (a LinkedHashSet), while the predicted token lists get one entry
    per prediction, repeats included.  The result's docID is never assigned
    by the classifier and stays 0.
 */
module Evaluation {
  import opened Wrappers
  import opened Text
  import opened Ranking

  /** The length of the precision array, and the most predictions kept. */
  const MaxResults: nat := 10

  datatype PredictionResult = PredictionResult(
    docID: nat,
    actualValues: set<string>,
    predictedValues: seq<string>,
    actualTokens: set<string>,
    predictedTokens: seq<seq<string>>)

  const EmptyResult: PredictionResult := PredictionResult(0, {}, [], {}, [])

  function TokenSet(tokens: seq<string>): set<string> {
    set t | t in tokens
  }

  /** addActualValue. */
  function AddActual(r: PredictionResult, v: string): (r': PredictionResult)
    ensures r'.predictedValues == r.predictedValues && r'.predictedTokens == r.predictedTokens
    ensures r'.actualValues == r.actualValues + {ToLower(v)}
    ensures r'.actualTokens == r.actualTokens + TokenSet(Tokenize(ToLower(v)))
  {
    var lv := ToLower(v);
    r.(actualValues := r.actualValues + {lv}, actualTokens := r.actualTokens + TokenSet(Tokenize(lv)))
  }

  /** The actuals are sets: adding a value twice is adding it once, and two
      values added in either order give the same result. */
  lemma AddActualSetLike(r: PredictionResult, a: string, b: string)
    ensures AddActual(AddActual(r, a), a) == AddActual(r, a)
    ensures AddActual(AddActual(r, a), b) == AddActual(AddActual(r, b), a)
  {
  }

  /** addPredictedValue: the value joins the ordered set, its tokens are
      appended as one more list. */
  function AddPredicted(r: PredictionResult, v: string): (r': PredictionResult)
    requires Distinct(r.predictedValues)
    ensures Distinct(r'.predictedValues)
    ensures forall u :: u in r'.predictedValues <==> u in r.predictedValues || u == ToLower(v)
    ensures |r'.predictedValues| >= |r.predictedValues| && r'.predictedValues[..|r.predictedValues|] == r.predictedValues
    ensures r'.predictedTokens == r.predictedTokens + [Tokenize(ToLower(v))]
    ensures r'.actualValues == r.actualValues && r'.actualTokens == r.actualTokens
  {
    var lv := ToLower(v);
    var pv := if lv in r.predictedValues then r.predictedValues else r.predictedValues + [lv];
    r.(predictedValues := pv, predictedTokens := r.predictedTokens + [Tokenize(lv)])
  }

  /** isRelevant. */
  predicate IsRelevant(r: PredictionResult, token: string) {
    token in r.actualTokens
  }

  function AddActuals(r: PredictionResult, vs: seq<string>): (r': PredictionResult)
    ensures r'.predictedValues == r.predictedValues && r'.predictedTokens == r.predictedTokens
    decreases |vs|
  {
    if |vs| == 0 then r else AddActuals(AddActual(r, vs[0]), vs[1..])
  }

  function AddPredictions(r: PredictionResult, vs: seq<string>): (r': PredictionResult)
    requires Distinct(r.predictedValues)
    ensures Distinct(r'.predictedValues)
    ensures |r'.predictedTokens| == |r.predictedTokens| + |vs|
    ensures r'.actualValues == r.actualValues && r'.actualTokens == r.actualTokens
    decreases |vs|
  {
    if |vs| == 0 then r else AddPredictions(AddPredicted(r, vs[0]), vs[1..])
  }

  /** The lower-cased values of `vs`. */
  function Lowered(vs: seq<string>): set<string> {
    set v | v in vs :: ToLower(v)
  }

  /** The result for one test document: its actual values, then the predictions. */
  function Record(actual: seq<string>, predicted: seq<string>): (r: PredictionResult)
    ensures Distinct(r.predictedValues)
    ensures |r.predictedTokens| == |predicted|
  {
    AddPredictions(AddActuals(EmptyResult, actual), predicted)
  }

  /** The recorded actual values are the lower-cased actual values, the
      recorded predictions the lower-cased predictions, each once. */
  lemma RecordContents(actual: seq<string>, predicted: seq<string>)
    ensures Record(actual, predicted).actualValues == Lowered(actual)
    ensures forall u :: u in Record(actual, predicted).predictedValues <==> u in Lowered(predicted)
  {
    ActualsCollected(EmptyResult, actual);
    PredictionsCollected(AddActuals(EmptyResult, actual), predicted);
  }

  lemma {:induction false} ActualsCollected(r: PredictionResult, vs: seq<string>)
    ensures AddActuals(r, vs).actualValues == r.actualValues + Lowered(vs)
    decreases |vs|
  {
    if |vs| > 0 {
      ActualsCollected(AddActual(r, vs[0]), vs[1..]);
      LoweredCons(vs);
    }
  }

  lemma {:induction false} PredictionsCollected(r: PredictionResult, vs: seq<string>)
    requires Distinct(r.predictedValues)
    ensures forall u :: u in AddPredictions(r, vs).predictedValues <==> u in r.predictedValues || u in Lowered(vs)
    decreases |vs|
  {
    if |vs| > 0 {
      PredictionsCollected(AddPredicted(r, vs[0]), vs[1..]);
      LoweredCons(vs);
    }
  }

  lemma LoweredCons(vs: seq<string>)
    requires |vs| > 0
    ensures Lowered(vs) == {ToLower(vs[0])} + Lowered(vs[1..])
  {
    assert forall v :: v in vs[1..] ==> v in vs;
    assert forall v :: v in vs && v != vs[0] ==> v in vs[1..];
  }

  // ---------------------------------------------------------------------------
  // Precision at k

  /** relevance: the tokens of one prediction that are actual tokens, repeats
      counted. */
  function Hits(tokens: seq<string>, actual: set<string>): nat
    decreases |tokens|
  {
    if |tokens| == 0 then 0 else (if tokens[0] in actual then 1 else 0) + Hits(tokens[1..], actual)
  }

  /** What a result adds at position k: relevance / rank for its (k+1)-th
      prediction, nothing when it has fewer predictions. */
  function Gain(r: PredictionResult, k: nat): real {
    if k < |r.predictedTokens| then Hits(r.predictedTokens[k], r.actualTokens) as real / (k + 1) as real else 0.0
  }

  function TotalGain(results: seq<PredictionResult>, k: nat): real
    decreases |results|
  {
    if |results| == 0 then 0.0 else Gain(results[0], k) + TotalGain(results[1..], k)
  }

  /** The rank loop of one result, from `rank` on: a result with more
      predictions than slots overruns the array. */
  function AddGains(p: seq<real>, r: PredictionResult, rank: nat): (q: Outcome<seq<real>>)
    requires |p| == MaxResults && rank >= 1
    ensures q.Ok? <==> |r.predictedTokens| <= MaxResults || rank > |r.predictedTokens|
    ensures q.Fail? ==> q.fault == IndexOutOfRange
    ensures q.Ok? ==> |q.value| == MaxResults
    ensures q.Ok? ==> forall k :: 0 <= k < MaxResults ==>
      q.value[k] == p[k] + (if k + 1 >= rank then Gain(r, k) else 0.0)
    decreases |r.predictedTokens| + 1 - rank
  {
    if rank > |r.predictedTokens| then Ok(p)
    else if rank > MaxResults then Fail(IndexOutOfRange)
    else
      var relevance := Hits(r.predictedTokens[rank - 1], r.actualTokens);
      AddGains(p[rank - 1 := p[rank - 1] + relevance as real / rank as real], r, rank + 1)
  }

  /** The sums over every result, before the division. */
  function Accumulate(p: seq<real>, results: seq<PredictionResult>): (q: Outcome<seq<real>>)
    requires |p| == MaxResults
    ensures q.Ok? <==> forall i :: 0 <= i < |results| ==> |results[i].predictedTokens| <= MaxResults
    ensures q.Fail? ==> q.fault == IndexOutOfRange
    ensures q.Ok? ==> |q.value| == MaxResults
    ensures q.Ok? ==> forall k :: 0 <= k < MaxResults ==> q.value[k] == p[k] + TotalGain(results, k)
    decreases |results|
  {
    if |results| == 0 then Ok(p)
    else
      var p' :- AddGains(p, results[0], 1);
      assert forall i :: 1 <= i < |results| ==> results[i] == results[1..][i - 1];
      Accumulate(p', results[1..])
  }

  /** Precision@K: the mean over the results of relevance / rank at each rank.
      With no results the division is 0 / 0. */
  function PrecisionAtK(results: seq<PredictionResult>): (q: Outcome<seq<real>>)
    ensures q.Ok? <==> |results| > 0 && forall i :: 0 <= i < |results| ==> |results[i].predictedTokens| <= MaxResults
    ensures q.Ok? ==> |q.value| == MaxResults
    ensures q.Ok? ==> forall k :: 0 <= k < MaxResults ==> q.value[k] * |results| as real == TotalGain(results, k)
  {
    if |results| == 0 then Fail(NonFinite)
    else
      var sums :- Accumulate(NoGains(), results);
      Ok(Means(sums, results))
  }

  /** The sums over the number of results. */
  function Means(sums: seq<real>, results: seq<PredictionResult>): (q: seq<real>)
    requires |sums| == MaxResults && |results| > 0
    requires forall k :: 0 <= k < MaxResults ==> sums[k] == 0.0 + TotalGain(results, k)
    ensures |q| == MaxResults
    ensures forall k :: 0 <= k < MaxResults ==> q[k] * |results| as real == TotalGain(results, k)
  {
    var n := |results| as real;
    var q := seq(MaxResults, k requires 0 <= k < MaxResults => sums[k] / n);
    assert forall k :: 0 <= k < MaxResults ==> q[k] * n == TotalGain(results, k) by {
      forall k | 0 <= k < MaxResults ensures q[k] * n == TotalGain(results, k) {
        MeanTimesCount(sums[k], n, TotalGain(results, k), q[k]);
      }
    }
    q
  }

  lemma MeanTimesCount(x: real, n: real, t: real, y: real)
    requires n != 0.0 && x == 0.0 + t && y == x / n
    ensures y * n == t
  {
  }

  function NoGains(): (z: seq<real>)
    ensures |z| == MaxResults && forall k :: 0 <= k < MaxResults ==> z[k] == 0.0
  {
    seq(MaxResults, k => 0.0)
  }

  /** A prediction scores at most its token count over its rank. */
  lemma GainBounded(r: PredictionResult, k: nat)
    requires k < |r.predictedTokens|
    ensures 0.0 <= Gain(r, k) <= |r.predictedTokens[k]| as real / (k + 1) as real
  {
    HitsBounded(r.predictedTokens[k], r.actualTokens);
    DivideBounded(Hits(r.predictedTokens[k], r.actualTokens) as real, |r.predictedTokens[k]| as real, (k + 1) as real);
  }

  lemma {:induction false} HitsBounded(tokens: seq<string>, actual: set<string>)
    ensures Hits(tokens, actual) <= |tokens|
    ensures Hits(tokens, actual) == |tokens| <==> forall i :: 0 <= i < |tokens| ==> tokens[i] in actual
    decreases |tokens|
  {
    if |tokens| > 0 {
      HitsBounded(tokens[1..], actual);
      assert forall i :: 1 <= i < |tokens| ==> tokens[i] == tokens[1..][i - 1];
    }
  }

  lemma DivideBounded(x: real, y: real, d: real)
    requires 0.0 <= x <= y && d > 0.0
    ensures 0.0 <= x / d <= y / d
  {
  }
}
