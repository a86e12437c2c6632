/** The per-test-document ranking of training documents that every predictor
    starts from: the title and desc score matrices (rows training documents,
    columns test documents) are multiplied entry by entry into one `Score`
    per training document, and the row is sorted by DescendingScoreComp.
 */
module Combination {
  import opened ScoreMatrix
  import opened Ranking

  /** StructuredRelevanceModel.Score: a training document's combined score and
      the relevance the audience vote gives it. */
  datatype Score = Score(score: real, relevance: real, docID: nat)

  function ScoreKey(s: Score): real { s.score }
  function RelevanceKey(s: Score): real { s.relevance }

  /** Every entry names one of the first `n` training documents. */
  ghost predicate DocsWithin(row: seq<Score>, n: nat) {
    forall k :: 0 <= k < |row| ==> row[k].docID < n
  }

  /** The scores of the training documents for test document `j`, in
      training-document order: title * desc (content is not used). */
  function CombinedRow(title: Matrix, desc: Matrix, j: nat, nTrain: nat, nTest: nat): (row: seq<Score>)
    requires Shaped(title, nTrain, nTest) && Shaped(desc, nTrain, nTest) && j < nTest
    ensures |row| == nTrain
    ensures forall i :: 0 <= i < nTrain ==> row[i] == Score(title[i][j] * desc[i][j], 0.0, i)
  {
    seq(nTrain, i requires 0 <= i < nTrain => Score(title[i][j] * desc[i][j], 0.0, i))
  }

  /** The row sorted by descending score, ties in training-document order. */
  function RankRow(title: Matrix, desc: Matrix, j: nat, nTrain: nat, nTest: nat): (ranked: seq<Score>)
    requires Shaped(title, nTrain, nTest) && Shaped(desc, nTrain, nTest) && j < nTest
    ensures |ranked| == nTrain
    ensures Descending(ranked, ScoreKey)
    ensures multiset(ranked) == multiset(CombinedRow(title, desc, j, nTrain, nTest))
    ensures SameTies(ranked, CombinedRow(title, desc, j, nTrain, nTest), ScoreKey)
  {
    var row := CombinedRow(title, desc, j, nTrain, nTest);
    SortLength(row, ScoreKey);
    SortDesc(row, ScoreKey)
  }

  /** Each ranked entry is some training document with its combined score. */
  lemma RankedEntry(title: Matrix, desc: Matrix, j: nat, nTrain: nat, nTest: nat, k: nat)
    requires Shaped(title, nTrain, nTest) && Shaped(desc, nTrain, nTest) && j < nTest
    requires k < nTrain
    ensures var e := RankRow(title, desc, j, nTrain, nTest)[k];
      e.docID < nTrain && e.score == title[e.docID][j] * desc[e.docID][j] && e.relevance == 0.0
  {
    var ranked := RankRow(title, desc, j, nTrain, nTest);
    var row := CombinedRow(title, desc, j, nTrain, nTest);
    EntryOfRearranged(ranked, row, k);
  }

  /** An entry of a rearrangement of a row numbered by position is the row's
      entry at its own document number. */
  lemma EntryOfRearranged(ranked: seq<Score>, row: seq<Score>, k: nat)
    requires multiset(ranked) == multiset(row) && k < |ranked|
    requires forall i :: 0 <= i < |row| ==> row[i].docID == i
    ensures ranked[k].docID < |row| && ranked[k] == row[ranked[k].docID]
  {
    var i := PermutedFrom(ranked, row, k);
  }

  /** Every training document has a place in the ranking. */
  lemma EveryDocumentRanked(title: Matrix, desc: Matrix, j: nat, nTrain: nat, nTest: nat, i: nat)
    requires Shaped(title, nTrain, nTest) && Shaped(desc, nTrain, nTest) && j < nTest
    requires i < nTrain
    ensures exists k :: 0 <= k < nTrain && RankRow(title, desc, j, nTrain, nTest)[k].docID == i
  {
    var ranked := RankRow(title, desc, j, nTrain, nTest);
    var row := CombinedRow(title, desc, j, nTrain, nTest);
    var k := PermutedFrom(row, ranked, i);
    assert ranked[k].docID == i;
  }

  /** Every ranked row names training documents only. */
  lemma RankedRowWithin(title: Matrix, desc: Matrix, j: nat, nTrain: nat, nTest: nat)
    requires Shaped(title, nTrain, nTest) && Shaped(desc, nTrain, nTest) && j < nTest
    ensures DocsWithin(RankRow(title, desc, j, nTrain, nTest), nTrain)
  {
    forall k | 0 <= k < nTrain ensures RankRow(title, desc, j, nTrain, nTest)[k].docID < nTrain {
      RankedEntry(title, desc, j, nTrain, nTest, k);
    }
  }

  /** The ranked rows of all test documents. */
  function RankedRows(title: Matrix, desc: Matrix, nTrain: nat, nTest: nat): (rows: seq<seq<Score>>)
    requires Shaped(title, nTrain, nTest) && Shaped(desc, nTrain, nTest)
    ensures |rows| == nTest
    ensures forall j :: 0 <= j < nTest ==> rows[j] == RankRow(title, desc, j, nTrain, nTest)
  {
    seq(nTest, j requires 0 <= j < nTest => RankRow(title, desc, j, nTrain, nTest))
  }
}
