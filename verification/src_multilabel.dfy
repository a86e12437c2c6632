/** The subject predictor of the src snapshot
    (MultiLabelClassificationNSDL.predictfield).  Each test document's row of
    title * desc scores is sorted; the whole row's total rescales the top 100
    (or zeroes them when the total is 0); the top 100 vote with their stored
    subject values; up to ten of the heaviest values are the predictions,
    recorded with the test document's own values in a PredictionResult.
 */
module SrcMultiLabel {
  import opened Wrappers
  import opened Ranking
  import opened ScoreMatrix
  import opened Combination
  import opened Voting
  import opened Evaluation

  /** The number of neighbours that are rescaled and vote. */
  const TopN: nat := 100

  function RowScores(row: seq<Score>): (xs: seq<real>)
    ensures |xs| == |row| && forall k :: 0 <= k < |row| ==> xs[k] == row[k].score
  {
    seq(|row|, k requires 0 <= k < |row| => row[k].score)
  }

  /** The top 100 scores over the total of the whole row; a zero total sets
      them to 0.  A row shorter than 100 overruns the array. */
  function Rescale(row: seq<Score>): (r: Outcome<seq<Score>>)
    ensures r.Ok? <==> |row| >= TopN
    ensures r.Fail? ==> r.fault == IndexOutOfRange
    ensures r.Ok? ==> |r.value| == |row|
    ensures r.Ok? ==> forall k :: 0 <= k < |row| ==>
      r.value[k].docID == row[k].docID && r.value[k].relevance == row[k].relevance
    ensures r.Ok? ==> forall k :: TopN <= k < |row| ==> r.value[k] == row[k]
    ensures r.Ok? && Sum(RowScores(row)) == 0.0 ==> forall k :: 0 <= k < TopN ==> r.value[k].score == 0.0
    ensures r.Ok? && Sum(RowScores(row)) != 0.0 ==>
      forall k :: 0 <= k < TopN ==> r.value[k].score * Sum(RowScores(row)) == row[k].score
  {
    if |row| < TopN then Fail(IndexOutOfRange)
    else
      var total := Sum(RowScores(row));
      var out := seq(|row|, k requires 0 <= k < |row| =>
        if k >= TopN then row[k]
        else if total == 0.0 then row[k].(score := 0.0)
        else row[k].(score := row[k].score / total));
      assert total != 0.0 ==> forall k :: 0 <= k < TopN ==> out[k].score * total == row[k].score by {
        if total != 0.0 {
          forall k | 0 <= k < TopN ensures out[k].score * total == row[k].score {
            Unscale(row[k].score, total);
          }
        }
      }
      Ok(out)
  }

  lemma Unscale(x: real, t: real)
    requires t != 0.0
    ensures (x / t) * t == x
  {
  }

  /** With non-negative scores the rescaled top 100 add up to at most 1: they
      are a share of the whole row. */
  lemma RescaledTopAtMostOne(row: seq<Score>)
    requires forall k :: 0 <= k < |row| ==> row[k].score >= 0.0
    requires Rescale(row).Ok?
    ensures Sum(RowScores(Rescale(row).value[..TopN])) <= 1.0
  {
    var out := Rescale(row).value;
    var total := Sum(RowScores(row));
    var top := RowScores(out[..TopN]);
    var raw := RowScores(row[..TopN]);
    var rest := RowScores(row[TopN..]);
    assert RowScores(row) == raw + rest;
    SumAppend(raw, rest);
    SumNonNegative(rest);
    SumNonNegative(raw);
    if total == 0.0 {
      SumZeros(top);
    } else {
      forall k | 0 <= k < TopN ensures top[k] == raw[k] / total {
        Rescaled(out[k].score, row[k].score, total);
      }
      SumScaled(raw, top, total);
      ShareAtMostOne(Sum(raw), total);
    }
  }

  lemma Rescaled(y: real, x: real, t: real)
    requires t != 0.0 && y * t == x
    ensures y == x / t
  {
  }

  lemma ShareAtMostOne(x: real, t: real)
    requires 0.0 <= x <= t && t != 0.0
    ensures x / t <= 1.0
  {
  }

  lemma {:induction false} SumZeros(xs: seq<real>)
    requires forall k :: 0 <= k < |xs| ==> xs[k] == 0.0
    ensures Sum(xs) == 0.0
    decreases |xs|
  {
    if |xs| > 0 {
      SumZeros(xs[1..]);
    }
  }

  /** The rescaling pass runs over every test document before any vote. */
  function RescaleAll(rows: seq<seq<Score>>): (r: Outcome<seq<seq<Score>>>)
    ensures r.Ok? <==> forall j :: 0 <= j < |rows| ==> |rows[j]| >= TopN
    ensures r.Fail? ==> r.fault == IndexOutOfRange
    ensures r.Ok? ==> |r.value| == |rows| && forall j :: 0 <= j < |rows| ==> r.value[j] == Rescale(rows[j]).value
    decreases |rows|
  {
    if |rows| == 0 then Ok([])
    else
      var first :- Rescale(rows[0]);
      var rest :- RescaleAll(rows[1..]);
      assert forall j :: 1 <= j < |rows| ==> rows[j] == rows[1..][j - 1];
      Ok([first] + rest)
  }

  /** The predictions for one test document: the heaviest values of its top
      100 neighbours, at most ten, with ties kept in the map's key `order`. */
  function Predictions(top: seq<Score>, values: seq<seq<string>>, order: seq<string>): (ps: seq<Candidate>)
    requires |top| >= TopN && DocsWithin(top, |values|) && VoteOrder(order, top, TopN, values)
    ensures |ps| <= MaxResults && |ps| <= |order|
    ensures |ps| == MaxResults || |ps| == |order|
    ensures ps == RelevanceModel(top[..TopN], values, order)[..|ps|]
  {
    assert DocsWithin(top[..TopN], |values|);
    var rm := RelevanceModel(top[..TopN], values, order);
    var max := if |rm| < MaxResults then |rm| else MaxResults;
    rm[..max]
  }

  /** Without weight ties among the voted values, the predictions do not
      depend on the map's key order. */
  lemma PredictionsOrderFree(top: seq<Score>, values: seq<seq<string>>, o1: seq<string>, o2: seq<string>)
    requires |top| >= TopN && DocsWithin(top, |values|)
    requires VoteOrder(o1, top, TopN, values) && VoteOrder(o2, top, TopN, values)
    requires NoTies(top[..TopN], values)
    ensures Predictions(top, values, o1) == Predictions(top, values, o2)
  {
    assert DocsWithin(top[..TopN], |values|);
    HashOrderIrrelevant(top[..TopN], values, o1, o2);
  }

  function ValuesOf(ps: seq<Candidate>): (vs: seq<string>)
    ensures |vs| == |ps| && forall k :: 0 <= k < |ps| ==> vs[k] == ps[k].value
  {
    seq(|ps|, k requires 0 <= k < |ps| => ps[k].value)
  }

  /** predictfield for the subject field, given the title and desc priors,
      the stored values of every training document, every test document's
      values and the key order of each test document's fieldCounts map.
      Java adds each result to a static list; here they are returned. */
  function PredictField(title: Matrix, desc: Matrix, nTrain: nat, nTest: nat,
                        values: seq<seq<string>>, actuals: seq<seq<string>>,
                        orders: seq<seq<string>>): (r: Outcome<seq<PredictionResult>>)
    requires Shaped(title, nTrain, nTest) && Shaped(desc, nTrain, nTest)
    requires |values| == nTrain && |actuals| == nTest
    requires OrdersFor(orders, RankedRows(title, desc, nTrain, nTest), TopN, values)
    ensures r.Ok? <==> nTest == 0 || nTrain >= TopN
    ensures r.Fail? ==> r.fault == IndexOutOfRange
    ensures r.Ok? ==> |r.value| == nTest
    ensures r.Ok? ==> forall j :: 0 <= j < nTest ==>
      |r.value[j].predictedTokens| <= MaxResults && Distinct(r.value[j].predictedValues)
  {
    var rows := RankedRows(title, desc, nTrain, nTest);
    var tops :- RescaleAll(rows);
    RescaledRows(title, desc, nTrain, nTest, values, orders);
    Ok(Results(tops, nTrain, values, actuals, orders))
  }

  /** Every rescaled row has its 100 neighbours, and the key orders still fit it. */
  lemma RescaledRows(title: Matrix, desc: Matrix, nTrain: nat, nTest: nat, values: seq<seq<string>>, orders: seq<seq<string>>)
    requires Shaped(title, nTrain, nTest) && Shaped(desc, nTrain, nTest) && |values| == nTrain
    requires OrdersFor(orders, RankedRows(title, desc, nTrain, nTest), TopN, values)
    requires RescaleAll(RankedRows(title, desc, nTrain, nTest)).Ok?
    ensures Ready(RescaleAll(RankedRows(title, desc, nTrain, nTest)).value, nTrain, values, orders)
  {
    var rows := RankedRows(title, desc, nTrain, nTest);
    var tops := RescaleAll(rows).value;
    forall j | 0 <= j < nTest
      ensures |tops[j]| >= TopN && DocsWithin(tops[j], nTrain) && VoteOrder(orders[j], tops[j], TopN, values)
    {
      RankedRowWithin(title, desc, j, nTrain, nTest);
      RescaledOrder(rows[j], values, orders[j]);
    }
  }

  /** Rows ready to vote: 100 neighbours each, among the training documents,
      with a key order for each. */
  ghost predicate Ready(tops: seq<seq<Score>>, nTrain: nat, values: seq<seq<string>>, orders: seq<seq<string>>) {
    |orders| == |tops| && |values| == nTrain &&
    forall j :: 0 <= j < |tops| ==>
      |tops[j]| >= TopN && DocsWithin(tops[j], nTrain) && VoteOrder(orders[j], tops[j], TopN, values)
  }

  /** One PredictionResult per row. */
  function Results(tops: seq<seq<Score>>, nTrain: nat, values: seq<seq<string>>, actuals: seq<seq<string>>,
                   orders: seq<seq<string>>): (rs: seq<PredictionResult>)
    requires Ready(tops, nTrain, values, orders) && |actuals| == |tops|
    ensures |rs| == |tops|
    ensures forall j :: 0 <= j < |tops| ==>
      rs[j] == Record(actuals[j], ValuesOf(Predictions(tops[j], values, orders[j])))
  {
    seq(|tops|, j requires 0 <= j < |tops| => Record(actuals[j], ValuesOf(Predictions(tops[j], values, orders[j]))))
  }

  /** Rescaling leaves the voting documents, and so the key order, as they were. */
  lemma RescaledOrder(row: seq<Score>, values: seq<seq<string>>, order: seq<string>)
    requires Rescale(row).Ok? && DocsWithin(row, |values|) && VoteOrder(order, row, TopN, values)
    ensures DocsWithin(Rescale(row).value, |values|) && VoteOrder(order, Rescale(row).value, TopN, values)
  {
    var out := Rescale(row).value;
    assert DocsWithin(row[..TopN], |values|);
    LabelsSameDocs(row[..TopN], out[..TopN], values);
    LabelsSameDocs(row, out, values);
  }
}
