/** The subject predictor of the trunk snapshot
    (MultiLabelClassificationNSDL.predictfield).  Unlike the src version the
    scores are not rescaled, nothing is recorded, and exactly six values are
    predicted per test document: fewer than six voted values overrun the
    candidate list.
 */
module TrunkMultiLabel {
  import opened Wrappers
  import opened ScoreMatrix
  import opened Combination
  import opened Voting
  import opened Ranking

  const TopN: nat := 100

  /** The number of predictions printed per test document. */
  const Shown: nat := 6

  /** The six heaviest values voted by the top 100 neighbours, with ties kept
      in the map's key `order`. */
  function PredictTest(top: seq<Score>, values: seq<seq<string>>, order: seq<string>): (r: Outcome<seq<Candidate>>)
    requires DocsWithin(top, |values|) && VoteOrder(order, top, TopN, values)
    ensures r.Ok? <==> EnoughValues(top, values)
    ensures r.Fail? ==> r.fault == IndexOutOfRange
    ensures r.Ok? ==> |top| >= TopN && |order| >= Shown
    ensures r.Ok? ==> r.value == RelevanceModel(top[..TopN], values, order)[..Shown]
  {
    if |top| < TopN then Fail(IndexOutOfRange)
    else
      assert DocsWithin(top[..TopN], |values|);
      var rm := RelevanceModel(top[..TopN], values, order);
      assert |rm| >= Shown <==> EnoughValues(top, values) by {
        EnumerationSize(order, Labels(top[..TopN], values));
      }
      if |rm| < Shown then Fail(IndexOutOfRange) else Ok(rm[..Shown])
  }

  /** Without weight ties among the voted values, the six predictions do not
      depend on the map's key order. */
  lemma PredictTestOrderFree(top: seq<Score>, values: seq<seq<string>>, o1: seq<string>, o2: seq<string>)
    requires DocsWithin(top, |values|) && |top| >= TopN
    requires VoteOrder(o1, top, TopN, values) && VoteOrder(o2, top, TopN, values)
    requires NoTies(top[..TopN], values)
    ensures PredictTest(top, values, o1) == PredictTest(top, values, o2)
  {
    assert DocsWithin(top[..TopN], |values|);
    HashOrderIrrelevant(top[..TopN], values, o1, o2);
  }

  /** Six predictions are always six different values. */
  lemma PredictionsDistinct(top: seq<Score>, values: seq<seq<string>>, order: seq<string>)
    requires DocsWithin(top, |values|) && VoteOrder(order, top, TopN, values)
    requires PredictTest(top, values, order).Ok?
    ensures forall i, j :: 0 <= i < j < Shown ==>
      PredictTest(top, values, order).value[i].value != PredictTest(top, values, order).value[j].value
  {
    assert DocsWithin(top[..TopN], |values|);
    RankedValuesDistinct(top[..TopN], values, order);
  }

  /** The relevance model lists every value once. */
  lemma RankedValuesDistinct(top: seq<Score>, values: seq<seq<string>>, order: seq<string>)
    requires DocsWithin(top, |values|) && Enumerates(order, Labels(top, values))
    ensures forall i, j :: 0 <= i < j < |order| ==>
      RelevanceModel(top, values, order)[i].value != RelevanceModel(top, values, order)[j].value
  {
    var rm := RelevanceModel(top, values, order);
    var cs := Candidates(order, FieldCounts(map[], top, values));
    forall i, j | 0 <= i < j < |order| ensures rm[i].value != rm[j].value {
      var p := PermutedFromDistinct(rm, cs, i, j);
    }
  }

  /** Two different positions of a rearrangement of `cs` come from two
      different positions of `cs`. */
  lemma PermutedFromDistinct(rm: seq<Candidate>, cs: seq<Candidate>, i: nat, j: nat) returns (p: nat)
    requires multiset(rm) == multiset(cs) && i < |rm| && j < |rm| && i != j
    requires forall a, b :: 0 <= a < |cs| && 0 <= b < |cs| && a != b ==> cs[a].value != cs[b].value
    ensures rm[i].value != rm[j].value
  {
    assert Distinct(cs);
    DistinctPermuted(rm, cs);
    p := PermutedFrom(rm, cs, i);
    var q := PermutedFrom(rm, cs, j);
    assert cs[p] != cs[q];
  }

  /** predictfield: the predictions of every test document in order, each
      with the key order of its own fieldCounts map; the first test document
      that overruns stops the run.  The title and desc matrices are given
      inputs: the method that Java calls to compute them,
      `srm.computePriors(testIR, trainIR, field)` returning `double[][]`, is
      not defined in the trunk StructuredRelevanceModel, whose only
      computePriors fills a map and returns nothing (TrunkRelevanceModel). */
  function PredictField(title: Matrix, desc: Matrix, nTrain: nat, nTest: nat, values: seq<seq<string>>,
                        orders: seq<seq<string>>): (r: Outcome<seq<seq<Candidate>>>)
    requires Shaped(title, nTrain, nTest) && Shaped(desc, nTrain, nTest) && |values| == nTrain
    requires OrdersFor(orders, RankedRows(title, desc, nTrain, nTest), TopN, values)
    ensures r.Ok? <==> forall j :: 0 <= j < nTest ==> EnoughValues(RankRow(title, desc, j, nTrain, nTest), values)
    ensures r.Fail? ==> r.fault == IndexOutOfRange
    ensures r.Ok? ==> |r.value| == nTest && forall j :: 0 <= j < nTest ==> |r.value[j]| == Shown
  {
    var rows := RankedRows(title, desc, nTrain, nTest);
    forall j | 0 <= j < nTest ensures DocsWithin(rows[j], nTrain) {
      RankedRowWithin(title, desc, j, nTrain, nTest);
    }
    PredictRows(rows, values, orders)
  }

  /** The top 100 neighbours of a row store at least six different values. */
  ghost predicate EnoughValues(row: seq<Score>, values: seq<seq<string>>) {
    DocsWithin(row, |values|) && |row| >= TopN &&
    (assert DocsWithin(row[..TopN], |values|); |Labels(row[..TopN], values)| >= Shown)
  }

  function PredictRows(rows: seq<seq<Score>>, values: seq<seq<string>>, orders: seq<seq<string>>): (r: Outcome<seq<seq<Candidate>>>)
    requires forall j :: 0 <= j < |rows| ==> DocsWithin(rows[j], |values|)
    requires OrdersFor(orders, rows, TopN, values)
    ensures r.Ok? <==> forall j :: 0 <= j < |rows| ==> EnoughValues(rows[j], values)
    ensures r.Fail? ==> r.fault == IndexOutOfRange
    ensures r.Ok? ==> |r.value| == |rows|
    ensures r.Ok? ==> forall j :: 0 <= j < |rows| ==> r.value[j] == PredictTest(rows[j], values, orders[j]).value
  {
    Sequence(Predicted(rows, values, orders))
  }

  /** Each row's predictions on its own. */
  function Predicted(rows: seq<seq<Score>>, values: seq<seq<string>>, orders: seq<seq<string>>): (outs: seq<Outcome<seq<Candidate>>>)
    requires forall j :: 0 <= j < |rows| ==> DocsWithin(rows[j], |values|)
    requires OrdersFor(orders, rows, TopN, values)
    ensures |outs| == |rows| && forall j :: 0 <= j < |rows| ==> outs[j] == PredictTest(rows[j], values, orders[j])
  {
    seq(|rows|, j requires 0 <= j < |rows| => PredictTest(rows[j], values, orders[j]))
  }
}
