/** The prediction step of the single-label relevance model
    (StructuredRelevanceModel.predictField in the src snapshot).  For every
    test document the training documents are ranked by title * desc; the top
    100 scores are divided by their own sum; each of the top 100 votes for
    its audience label (one of six), its relevance is the label's share of
    the votes times its score; the top entries are re-sorted by relevance
    and the first one's stored audience is the prediction.  The result is
    the number of test documents whose prediction equals their own stored
    audience.

    The relevance re-sort is `Arrays.sort(row, 0, topN-1, …)`, whose upper
    bound is exclusive, so the 100th entry keeps its place.  `span` is the
    length of the re-sorted prefix: 99 as written, 100 as evidently meant;
    `SortRangeHarmless` shows the count is the same either way.
 */
module SrcPrediction {
  import opened Wrappers
  import opened Text
  import opened TermIndex
  import opened ScoreMatrix
  import opened Ranking
  import opened Combination

  /** The number of neighbours that are normalized and vote. */
  const TopN: nat := 100

  const NumAudience: nat := 6

  /** The audience labels in the order of their vote slots. */
  const AudienceLabels: seq<string> :=
    ["learner", "educator", "researcher", "general public", "professional/practitioner", "administrator"]

  /** audienceMap.get: the vote slot of a lower-cased label. */
  function AudienceIndex(v: string): (r: Option<nat>)
    ensures r.Some? <==> v in AudienceLabels
    ensures r.Some? ==> r.value < NumAudience && AudienceLabels[r.value] == v
  {
    if v == "learner" then Some(0)
    else if v == "educator" then Some(1)
    else if v == "researcher" then Some(2)
    else if v == "general public" then Some(3)
    else if v == "professional/practitioner" then Some(4)
    else if v == "administrator" then Some(5)
    else None
  }

  /** Each label is found in its own slot. */
  lemma AudienceSlotsRoundTrip(k: nat)
    requires k < NumAudience
    ensures AudienceIndex(AudienceLabels[k]) == Some(k)
  {
  }

  // ---------------------------------------------------------------------------
  // Normalization of the top 100

  function TopScores(row: seq<Score>): (xs: seq<real>)
    requires |row| >= TopN
    ensures |xs| == TopN
    ensures forall k :: 0 <= k < TopN ==> xs[k] == row[k].score
  {
    seq(TopN, k requires 0 <= k < TopN => row[k].score)
  }

  /** The top 100 scores divided by their sum.  Fewer than 100 training
      documents overrun the array; a zero sum divides by zero. */
  function Normalize(row: seq<Score>): (r: Outcome<seq<Score>>)
    ensures r.Ok? <==> |row| >= TopN && Sum(TopScores(row)) != 0.0
    ensures r.Fail? ==> r.fault == (if |row| < TopN then IndexOutOfRange else NonFinite)
    ensures r.Ok? ==> |r.value| == |row| && Sum(TopScores(r.value)) == 1.0
    ensures r.Ok? ==> forall k :: 0 <= k < |row| ==>
      r.value[k].docID == row[k].docID && r.value[k].relevance == row[k].relevance
    ensures r.Ok? ==> forall k :: TopN <= k < |row| ==> r.value[k] == row[k]
    ensures r.Ok? ==> forall k :: 0 <= k < TopN ==> r.value[k].score * Sum(TopScores(row)) == row[k].score
  {
    if |row| < TopN then Fail(IndexOutOfRange)
    else
      var total := Sum(TopScores(row));
      if total == 0.0 then Fail(NonFinite)
      else
        var out := DivideTop(row, total);
        SumScaled(TopScores(row), TopScores(out), total);
        SelfQuotient(total);
        Ok(out)
  }

  /** The top 100 scores over `total`, the rest as they are. */
  function DivideTop(row: seq<Score>, total: real): (out: seq<Score>)
    requires |row| >= TopN && total != 0.0
    ensures |out| == |row|
    ensures forall k :: 0 <= k < |row| ==> out[k].docID == row[k].docID && out[k].relevance == row[k].relevance
    ensures forall k :: TopN <= k < |row| ==> out[k] == row[k]
    ensures forall k :: 0 <= k < TopN ==> out[k].score == row[k].score / total
    ensures forall k :: 0 <= k < TopN ==> out[k].score * total == row[k].score
  {
    var out := seq(|row|, k requires 0 <= k < |row| =>
      if k < TopN then row[k].(score := row[k].score / total) else row[k]);
    assert forall k :: 0 <= k < TopN ==> out[k].score * total == row[k].score by {
      forall k | 0 <= k < TopN ensures out[k].score * total == row[k].score {
        DivideBack(row[k].score, total);
      }
    }
    out
  }

  lemma SelfQuotient(t: real)
    requires t != 0.0
    ensures t / t == 1.0
  {
  }

  lemma DivideBack(x: real, t: real)
    requires t != 0.0
    ensures (x / t) * t == x
  {
  }

  /** Dividing by a positive sum keeps the top 100 ranked and non-negative.
      (Entries below the top 100 keep their raw scores, so the whole row need
      not stay ranked.) */
  lemma NormalizeKeepsRanking(row: seq<Score>)
    requires |row| >= TopN && Descending(row[..TopN], ScoreKey) && NonNegative(row[..TopN])
    requires Normalize(row).Ok?
    ensures Descending(Normalize(row).value[..TopN], ScoreKey)
    ensures NonNegative(Normalize(row).value[..TopN])
  {
    var total := Sum(TopScores(row));
    assert TopScores(row) == seq(TopN, k requires 0 <= k < TopN => row[..TopN][k].score);
    SumNonNegative(TopScores(row));
    ScaledKeepsRanking(row[..TopN], Normalize(row).value[..TopN], total);
  }

  /** Scores divided by one positive total keep their order and sign. */
  lemma ScaledKeepsRanking(row: seq<Score>, out: seq<Score>, total: real)
    requires |out| == |row| && total > 0.0
    requires forall k :: 0 <= k < |row| ==> out[k].score * total == row[k].score
    requires Descending(row, ScoreKey) && NonNegative(row)
    ensures Descending(out, ScoreKey) && NonNegative(out)
  {
    forall k | 0 <= k < |row| ensures out[k].score == row[k].score / total {
      ScaledIsQuotient(out[k].score, row[k].score, total);
    }
    forall i, j | 0 <= i < j < |row| ensures out[i].score >= out[j].score {
      assert ScoreKey(row[i]) >= ScoreKey(row[j]);
      DivideMonotone(row[i].score, row[j].score, total);
    }
    forall k | 0 <= k < |row| ensures out[k].score >= 0.0 {
      DivideMonotone(row[k].score, 0.0, total);
    }
  }

  ghost predicate NonNegative(row: seq<Score>) {
    forall k :: 0 <= k < |row| ==> row[k].score >= 0.0
  }

  lemma ScaledIsQuotient(y: real, x: real, t: real)
    requires t > 0.0 && y * t == x
    ensures y == x / t
  {
  }

  lemma DivideMonotone(x: real, y: real, t: real)
    requires t > 0.0 && x >= y
    ensures x / t >= y / t
  {
  }

  // ---------------------------------------------------------------------------
  // The audience vote

  /** The vote slot of a training document: its stored audience lower-cased
      and looked up.  A missing value, or one outside the six labels, ends
      in a null dereference. */
  function LabelSlot(labels: seq<Option<string>>, d: nat): (r: Outcome<nat>)
    requires d < |labels|
    ensures r.Ok? <==> labels[d].Some? && ToLower(labels[d].value) in AudienceLabels
    ensures r.Ok? ==> r.value < NumAudience && AudienceLabels[r.value] == ToLower(labels[d].value)
    ensures r.Fail? ==> r.fault == NullDereference
  {
    match labels[d]
    case None => Fail(NullDereference)
    case Some(v) =>
      match AudienceIndex(ToLower(v))
      case None => Fail(NullDereference)
      case Some(k) => Ok(k)
  }

  /** The slots of the neighbours, in rank order. */
  function Slots(top: seq<Score>, labels: seq<Option<string>>): (r: Outcome<seq<nat>>)
    requires DocsWithin(top, |labels|)
    ensures r.Ok? <==> forall k :: 0 <= k < |top| ==> LabelSlot(labels, top[k].docID).Ok?
    ensures r.Ok? ==> |r.value| == |top|
    ensures r.Ok? ==> forall k :: 0 <= k < |top| ==> r.value[k] == LabelSlot(labels, top[k].docID).value
    ensures r.Fail? ==> r.fault == NullDereference
    decreases |top|
  {
    if |top| == 0 then Ok([])
    else
      var s :- LabelSlot(labels, top[0].docID);
      var rest := Slots(top[1..], labels);
      assert forall k :: 1 <= k < |top| ==> top[k] == top[1..][k - 1];
      if rest.Fail? then rest else Ok([s] + rest.value)
  }

  lemma SumNatBump(f: seq<nat>, c: nat)
    requires c < |f|
    ensures SumNat(f[c := f[c] + 1]) == SumNat(f) + 1
    decreases |f|
  {
    if c > 0 {
      assert f[c := f[c] + 1][1..] == f[1..][c - 1 := f[1..][c - 1] + 1];
      SumNatBump(f[1..], c - 1);
    }
  }

  /** The `audience_freq[index]++` loop. */
  function Tally(freq: seq<nat>, xs: seq<nat>): (r: seq<nat>)
    requires forall k :: 0 <= k < |xs| ==> xs[k] < |freq|
    ensures |r| == |freq|
    ensures forall c: nat :: c < |freq| ==> r[c] == freq[c] + Count(xs, c)
    ensures SumNat(r) == SumNat(freq) + |xs|
    decreases |xs|
  {
    if |xs| == 0 then freq
    else
      SumNatBump(freq, xs[0]);
      Tally(freq[xs[0] := freq[xs[0]] + 1], xs[1..])
  }

  /** The audience frequencies: the number of neighbours voting for each slot. */
  function Votes(slots: seq<nat>): (freq: seq<nat>)
    ensures |freq| == NumAudience
    ensures forall c: nat :: c < NumAudience ==> freq[c] == Count(slots, c)
  {
    seq(NumAudience, c requires 0 <= c < NumAudience => Count<nat>(slots, c as nat))
  }

  /** The increment loop computes the frequencies, and they add up to the
      number of neighbours (`total_freq`). */
  lemma TallyComputesVotes(slots: seq<nat>)
    requires forall k :: 0 <= k < |slots| ==> slots[k] < NumAudience
    ensures Tally(Zeros(NumAudience), slots) == Votes(slots)
    ensures SumNat(Votes(slots)) == |slots|
  {
    var z := Zeros(NumAudience);
    SumNatZeros(NumAudience);
    var t := Tally(z, slots);
    var v := Votes(slots);
    forall c: nat | c < NumAudience ensures t[c] == v[c] {
      assert t[c] == z[c] + Count(slots, c);
    }
    assert t == v;
  }

  function Zeros(n: nat): (z: seq<nat>)
    ensures |z| == n && forall c :: 0 <= c < n ==> z[c] == 0
  {
    seq(n, c => 0)
  }

  lemma SumNatZeros(n: nat)
    ensures SumNat(Zeros(n)) == 0
  {
    if n > 0 {
      assert Zeros(n)[1..] == Zeros(n - 1);
      SumNatZeros(n - 1);
    }
  }

  /** relevance = (audience_freq[slot] / total_freq) * score. */
  function Weigh(top: seq<Score>, slots: seq<nat>, freq: seq<nat>, total: nat): (r: seq<Score>)
    requires |slots| == |top| && total > 0
    requires forall k :: 0 <= k < |slots| ==> slots[k] < |freq|
    ensures |r| == |top|
    ensures forall k {:trigger r[k]} :: 0 <= k < |top| ==>
      r[k] == top[k].(relevance := (freq[slots[k]] as real / total as real) * top[k].score)
  {
    seq(|top|, k requires 0 <= k < |top| =>
      top[k].(relevance := (freq[slots[k]] as real / total as real) * top[k].score))
  }

  /** The relevance re-sort of the first `span` entries. */
  function Reorder(w: seq<Score>, span: nat): (r: seq<Score>)
    requires span <= |w|
    ensures |r| == |w|
    ensures multiset(r) == multiset(w)
    ensures r[span..] == w[span..]
    ensures Descending(r[..span], RelevanceKey)
  {
    SortLength(w[..span], RelevanceKey);
    var r := SortDesc(w[..span], RelevanceKey) + w[span..];
    assert w == w[..span] + w[span..];
    assert r[..span] == SortDesc(w[..span], RelevanceKey);
    r
  }

  lemma DocsWithinPermuted(a: seq<Score>, b: seq<Score>, n: nat)
    requires multiset(a) == multiset(b) && DocsWithin(b, n)
    ensures DocsWithin(a, n)
  {
    forall k | 0 <= k < |a| ensures a[k].docID < n {
      var i := PermutedFrom(a, b, k);
    }
  }

  /** The top 100 with the relevance their audience's share of the votes
      gives them. */
  function VoteWeights(top: seq<Score>, labels: seq<Option<string>>): (r: Outcome<seq<Score>>)
    requires |top| >= TopN && DocsWithin(top, |labels|)
    ensures r.Ok? <==> forall k :: 0 <= k < TopN ==> LabelSlot(labels, top[k].docID).Ok?
    ensures r.Fail? ==> r.fault == NullDereference
    ensures r.Ok? ==> |r.value| == TopN
    ensures r.Ok? ==> forall k :: 0 <= k < TopN ==> r.value[k].docID == top[k].docID && r.value[k].score == top[k].score
  {
    assert DocsWithin(top[..TopN], |labels|);
    var slots :- Slots(top[..TopN], labels);
    Ok(Weigh(top[..TopN], slots, Votes(slots), TopN))
  }

  /** The neighbours ranked by relevance: vote, weigh, re-sort `span` entries. */
  function RankByRelevance(top: seq<Score>, labels: seq<Option<string>>, span: nat): (r: Outcome<seq<Score>>)
    requires |top| >= TopN && span <= TopN && DocsWithin(top, |labels|)
    ensures r.Ok? <==> VoteWeights(top, labels).Ok?
    ensures r.Fail? ==> r.fault == NullDereference
    ensures r.Ok? ==> |r.value| == |top| && DocsWithin(r.value, |labels|)
  {
    var w :- VoteWeights(top, labels);
    var all := w + top[TopN..];
    WeightedDocsWithin(top, w, |labels|);
    var r := Reorder(all, span);
    DocsWithinPermuted(r, all, |labels|);
    Ok(r)
  }

  lemma WeightedDocsWithin(top: seq<Score>, w: seq<Score>, n: nat)
    requires |top| >= TopN && |w| == TopN && DocsWithin(top, n)
    requires forall k :: 0 <= k < TopN ==> w[k].docID == top[k].docID
    ensures DocsWithin(w + top[TopN..], n)
  {
    var all := w + top[TopN..];
    forall k | 0 <= k < |all| ensures all[k].docID < n {
      if k < TopN {
        assert all[k] == w[k];
      } else {
        assert all[k] == top[k];
      }
    }
  }

  /** Whether the first prediction equals the test document's stored value;
      a test document without one dereferences null. */
  function FirstCorrect(ranked: seq<Score>, labels: seq<Option<string>>, actual: Option<string>): (r: Outcome<bool>)
    requires |ranked| > 0 && ranked[0].docID < |labels|
    ensures r.Ok? <==> actual.Some?
    ensures r.Ok? ==> (r.value <==> labels[ranked[0].docID] == actual)
  {
    match actual
    case None => Fail(NullDereference)
    case Some(a) => Ok(labels[ranked[0].docID] == Some(a))
  }

  function PredictRow(top: seq<Score>, labels: seq<Option<string>>, actual: Option<string>, span: nat): (r: Outcome<bool>)
    requires |top| >= TopN && span <= TopN && DocsWithin(top, |labels|)
  {
    var ranked :- RankByRelevance(top, labels, span);
    FirstCorrect(ranked, labels, actual)
  }

  // ---------------------------------------------------------------------------
  // The whole field

  /** The normalization pass runs over every test document before any vote. */
  function NormalizeAll(rows: seq<seq<Score>>): (r: Outcome<seq<seq<Score>>>)
    ensures r.Ok? <==> forall j :: 0 <= j < |rows| ==> Normalize(rows[j]).Ok?
    ensures r.Ok? ==> |r.value| == |rows| && forall j :: 0 <= j < |rows| ==> r.value[j] == Normalize(rows[j]).value
    decreases |rows|
  {
    if |rows| == 0 then Ok([])
    else
      var first :- Normalize(rows[0]);
      var rest :- NormalizeAll(rows[1..]);
      assert forall j :: 1 <= j < |rows| ==> rows[j] == rows[1..][j - 1];
      Ok([first] + rest)
  }

  ghost predicate RowsFit(tops: seq<seq<Score>>, n: nat) {
    forall j :: 0 <= j < |tops| ==> |tops[j]| >= TopN && DocsWithin(tops[j], n)
  }

  /** numCorrect over the test documents, in order. */
  function CountCorrect(tops: seq<seq<Score>>, labels: seq<Option<string>>, actuals: seq<Option<string>>, span: nat): (r: Outcome<nat>)
    requires |actuals| == |tops| && span <= TopN && RowsFit(tops, |labels|)
    ensures r.Ok? <==> forall j :: 0 <= j < |tops| ==> PredictRow(tops[j], labels, actuals[j], span).Ok?
    ensures r.Ok? ==> r.value <= |tops|
  {
    CountHits(RowPredictions(tops, labels, actuals, span))
  }

  /** Each test document's outcome on its own. */
  function RowPredictions(tops: seq<seq<Score>>, labels: seq<Option<string>>, actuals: seq<Option<string>>, span: nat): (outs: seq<Outcome<bool>>)
    requires |actuals| == |tops| && span <= TopN && RowsFit(tops, |labels|)
    ensures |outs| == |tops| && forall j :: 0 <= j < |tops| ==> outs[j] == PredictRow(tops[j], labels, actuals[j], span)
  {
    seq(|tops|, j requires 0 <= j < |tops| => PredictRow(tops[j], labels, actuals[j], span))
  }

  /** The number of correct outcomes; the first failing test document stops
      the count. */
  function CountHits(outs: seq<Outcome<bool>>): (r: Outcome<nat>)
    ensures r.Ok? <==> forall j :: 0 <= j < |outs| ==> outs[j].Ok?
    ensures r.Ok? ==> r.value <= |outs|
    ensures r.Ok? ==> r.value == Count(outs, Ok(true))
    decreases |outs|
  {
    if |outs| == 0 then Ok(0)
    else
      var hit :- outs[0];
      var rest :- CountHits(outs[1..]);
      Ok((if hit then 1 else 0) + rest)
  }

  /** predictField for one pair of indices, given the title and desc priors,
      the stored audience of every training and every test document. */
  function PredictFieldWith(title: Matrix, desc: Matrix, nTrain: nat, nTest: nat,
                            labels: seq<Option<string>>, actuals: seq<Option<string>>, span: nat): (r: Outcome<nat>)
    requires Shaped(title, nTrain, nTest) && Shaped(desc, nTrain, nTest)
    requires |labels| == nTrain && |actuals| == nTest && span <= TopN
    ensures r.Ok? ==> r.value <= nTest
    ensures nTest > 0 && nTrain < TopN ==> r == Fail(IndexOutOfRange)
  {
    var rows := RankedRows(title, desc, nTrain, nTest);
    var tops :- NormalizeAll(rows);
    assert RowsFit(tops, nTrain) by {
      forall j | 0 <= j < nTest ensures |tops[j]| >= TopN && DocsWithin(tops[j], nTrain) {
        forall k | 0 <= k < |tops[j]| ensures tops[j][k].docID < nTrain {
          RankedEntry(title, desc, j, nTrain, nTest, k);
        }
      }
    }
    CountCorrect(tops, labels, actuals, span)
  }

  /** The count as written: the relevance re-sort covers 99 entries. */
  function PredictField(title: Matrix, desc: Matrix, nTrain: nat, nTest: nat,
                        labels: seq<Option<string>>, actuals: seq<Option<string>>): (r: Outcome<nat>)
    requires Shaped(title, nTrain, nTest) && Shaped(desc, nTrain, nTest)
    requires |labels| == nTrain && |actuals| == nTest
    ensures r.Ok? ==> r.value <= nTest
  {
    PredictFieldWith(title, desc, nTrain, nTest, labels, actuals, TopN - 1)
  }

  // ---------------------------------------------------------------------------
  // The 99-entry re-sort makes no difference

  /** An audience nobody before the last neighbour voted for has one vote. */
  lemma LoneVote(slots: seq<nat>)
    requires |slots| > 0
    requires forall k :: 0 <= k < |slots| - 1 ==> slots[k] != slots[|slots| - 1]
    ensures Count(slots, slots[|slots| - 1]) == 1
  {
    var n := |slots| - 1;
    assert slots == slots[..n] + [slots[n]];
    CountAppend(slots[..n], [slots[n]], slots[n]);
    CountAbsent(slots[..n], slots[n]);
  }

  lemma ScaleMonotone(c: real, a: real, b: real)
    requires c >= 0.0 && a >= b
    ensures c * a >= c * b
  {
  }

  lemma ProductMonotone(c: real, d: real, a: real, b: real)
    requires c >= d >= 0.0 && a >= b >= 0.0
    ensures c * a >= d * b
  {
    ScaleMonotone(c, a, b);
    assert c * b >= d * b;
  }

  lemma ShareAtLeastOne(f: nat)
    requires f >= 1
    ensures f as real / TopN as real >= 1 as real / TopN as real >= 0.0
  {
  }

  /** The 100th neighbour never outranks every one of the first 99: either an
      earlier neighbour shares its audience and scores at least as high, or
      its audience has a single vote, which the first neighbour's audience
      matches or beats. */
  lemma LastVoterDominated(top: seq<Score>, slots: seq<nat>)
    requires |top| == TopN && |slots| == TopN
    requires forall k :: 0 <= k < TopN ==> slots[k] < NumAudience
    requires Descending(top, ScoreKey) && NonNegative(top)
    ensures var w := Weigh(top, slots, Votes(slots), TopN);
      exists k :: 0 <= k < TopN - 1 && w[TopN - 1].relevance <= w[k].relevance
  {
    var w := Weigh(top, slots, Votes(slots), TopN);
    var rel := seq(TopN, k requires 0 <= k < TopN => w[k].relevance);
    var sc := seq(TopN, k requires 0 <= k < TopN => top[k].score);
    var share := Shares(slots);
    WeighedAsShares(top, slots, rel, sc);
    var last := TopN - 1;
    if k :| 0 <= k < last && slots[k] == slots[last] {
      SharedVoteDominated(rel, sc, share, k);
      assert w[last].relevance <= w[k].relevance;
    } else {
      LoneVoteShares(slots);
      LoneVoteDominated(rel, sc, share);
      assert w[last].relevance <= w[0].relevance;
    }
  }

  /** The vote count of each neighbour's audience. */
  function Shares(slots: seq<nat>): (share: seq<nat>)
    requires forall k :: 0 <= k < |slots| ==> slots[k] < NumAudience
    ensures |share| == |slots|
    ensures forall k {:trigger share[k]} :: 0 <= k < |slots| ==> share[k] == Count(slots, slots[k])
  {
    var freq := Votes(slots);
    seq(|slots|, k requires 0 <= k < |slots| => freq[slots[k]])
  }

  lemma WeighedAsShares(top: seq<Score>, slots: seq<nat>, rel: seq<real>, sc: seq<real>)
    requires |top| == TopN && |slots| == TopN
    requires forall k :: 0 <= k < TopN ==> slots[k] < NumAudience
    requires Descending(top, ScoreKey) && NonNegative(top)
    requires |rel| == TopN && forall k :: 0 <= k < TopN ==> rel[k] == Weigh(top, slots, Votes(slots), TopN)[k].relevance
    requires |sc| == TopN && forall k :: 0 <= k < TopN ==> sc[k] == top[k].score
    ensures Weighted(rel, sc, Shares(slots))
  {
    AllWeighed(top, slots, rel, sc);
    ScoresRanked(top, sc);
  }

  lemma AllWeighed(top: seq<Score>, slots: seq<nat>, rel: seq<real>, sc: seq<real>)
    requires |top| == TopN && |slots| == TopN
    requires forall k :: 0 <= k < TopN ==> slots[k] < NumAudience
    requires |rel| == TopN && forall k :: 0 <= k < TopN ==> rel[k] == Weigh(top, slots, Votes(slots), TopN)[k].relevance
    requires |sc| == TopN && forall k :: 0 <= k < TopN ==> sc[k] == top[k].score
    ensures forall k :: 0 <= k < TopN ==> rel[k] == (Shares(slots)[k] as real / TopN as real) * sc[k]
  {
    forall k | 0 <= k < TopN ensures rel[k] == (Shares(slots)[k] as real / TopN as real) * sc[k] {
      WeighedAt(top, slots, rel[k], sc[k], k);
    }
  }

  lemma ScoresRanked(top: seq<Score>, sc: seq<real>)
    requires |top| == TopN && Descending(top, ScoreKey) && NonNegative(top)
    requires |sc| == TopN && forall k :: 0 <= k < TopN ==> sc[k] == top[k].score
    ensures forall i, j :: 0 <= i < j < TopN ==> sc[i] >= sc[j]
    ensures sc[TopN - 1] >= 0.0
  {
    forall i, j | 0 <= i < j < TopN ensures sc[i] >= sc[j] {
      assert ScoreKey(top[i]) >= ScoreKey(top[j]);
    }
  }

  /** One neighbour's relevance is its audience's vote share times its score. */
  lemma WeighedAt(top: seq<Score>, slots: seq<nat>, rel: real, sc: real, k: nat)
    requires |top| == TopN && |slots| == TopN && k < TopN
    requires forall c :: 0 <= c < TopN ==> slots[c] < NumAudience
    requires rel == Weigh(top, slots, Votes(slots), TopN)[k].relevance && sc == top[k].score
    ensures rel == (Shares(slots)[k] as real / TopN as real) * sc
  {
    var freq := Votes(slots);
    assert Shares(slots)[k] == freq[slots[k]];
    SameWeight(rel, freq[slots[k]], top[k].score, Shares(slots)[k], sc);
  }

  lemma SameWeight(x: real, f: nat, s: real, g: nat, t: real)
    requires f == g && s == t && x == (f as real / TopN as real) * s
    ensures x == (g as real / TopN as real) * t
  {
  }

  /** When the last neighbour's audience is its own, it has one vote and the
      first neighbour's audience has at least one. */
  lemma LoneVoteShares(slots: seq<nat>)
    requires |slots| == TopN
    requires forall k :: 0 <= k < TopN ==> slots[k] < NumAudience
    requires forall k :: 0 <= k < TopN - 1 ==> slots[k] != slots[TopN - 1]
    ensures Shares(slots)[TopN - 1] == 1 && Shares(slots)[0] >= 1
  {
    LoneVote(slots);
    CountMember(slots, 0);
  }

  /** Relevance as vote count / 100 times score, over plain sequences. */
  ghost predicate Weighted(rel: seq<real>, sc: seq<real>, share: seq<nat>) {
    |rel| == TopN && |sc| == TopN && |share| == TopN &&
    (forall k :: 0 <= k < TopN ==> rel[k] == (share[k] as real / TopN as real) * sc[k]) &&
    (forall i, j :: 0 <= i < j < TopN ==> sc[i] >= sc[j]) &&
    sc[TopN - 1] >= 0.0
  }

  lemma SharedVoteDominated(rel: seq<real>, sc: seq<real>, share: seq<nat>, k: nat)
    requires Weighted(rel, sc, share) && k < TopN - 1 && share[k] == share[TopN - 1]
    ensures rel[TopN - 1] <= rel[k]
  {
    ShareAtLeastOne(1);
    ScaleMonotone(share[k] as real / TopN as real, sc[k], sc[TopN - 1]);
  }

  lemma LoneVoteDominated(rel: seq<real>, sc: seq<real>, share: seq<nat>)
    requires Weighted(rel, sc, share) && share[TopN - 1] == 1 && share[0] >= 1
    ensures rel[TopN - 1] <= rel[0]
  {
    ShareAtLeastOne(share[0]);
    ProductMonotone(share[0] as real / TopN as real, share[TopN - 1] as real / TopN as real,
                    sc[0], sc[TopN - 1]);
  }

  lemma LastNeighbourDominated(top: seq<Score>, labels: seq<Option<string>>)
    requires |top| >= TopN && DocsWithin(top, |labels|)
    requires Descending(top[..TopN], ScoreKey) && NonNegative(top[..TopN])
    requires VoteWeights(top, labels).Ok?
    ensures exists k :: (0 <= k < TopN - 1 &&
      VoteWeights(top, labels).value[TopN - 1].relevance <= VoteWeights(top, labels).value[k].relevance)
  {
    assert DocsWithin(top[..TopN], |labels|);
    var slots := Slots(top[..TopN], labels).value;
    assert VoteWeights(top, labels).value == Weigh(top[..TopN], slots, Votes(slots), TopN);
    LastVoterDominated(top[..TopN], slots);
  }

  /** For one test document, the first prediction after the 99-entry re-sort
      is the one a 100-entry re-sort gives. */
  lemma RowSortRangeHarmless(top: seq<Score>, labels: seq<Option<string>>, actual: Option<string>)
    requires |top| >= TopN && DocsWithin(top, |labels|)
    requires Descending(top[..TopN], ScoreKey) && NonNegative(top[..TopN])
    ensures PredictRow(top, labels, actual, TopN - 1) == PredictRow(top, labels, actual, TopN)
  {
    if VoteWeights(top, labels).Ok? {
      var w := VoteWeights(top, labels).value;
      var all := w + top[TopN..];
      LastNeighbourDominated(top, labels);
      assert all[..TopN] == w;
      assert all[..TopN][..TopN - 1] == all[..TopN - 1];
      SortPrefixHead(all[..TopN], TopN - 1, RelevanceKey);
      assert Reorder(all, TopN - 1)[0] == Reorder(all, TopN)[0];
    }
  }

  lemma NonNegativeProduct(a: real, b: real)
    requires a >= 0.0 && b >= 0.0
    ensures a * b >= 0.0
  {
  }

  /** A ranked row of non-negative priors keeps its top 100 ranked and
      non-negative through normalization. */
  lemma NormalizedRowRanked(title: Matrix, desc: Matrix, nTrain: nat, nTest: nat, j: nat)
    requires Shaped(title, nTrain, nTest) && Shaped(desc, nTrain, nTest) && j < nTest
    requires NonNegativePriors(title, desc, nTrain, nTest)
    requires Normalize(RankRow(title, desc, j, nTrain, nTest)).Ok?
    ensures var top := Normalize(RankRow(title, desc, j, nTrain, nTest)).value;
      |top| >= TopN && Descending(top[..TopN], ScoreKey) && NonNegative(top[..TopN])
  {
    var row := RankRow(title, desc, j, nTrain, nTest);
    forall k | 0 <= k < TopN ensures row[..TopN][k].score >= 0.0 {
      RankedEntry(title, desc, j, nTrain, nTest, k);
      var d := row[k].docID;
      NonNegativeProduct(title[d][j], desc[d][j]);
    }
    assert Descending(row[..TopN], ScoreKey) by {
      forall a, b | 0 <= a < b < TopN ensures row[..TopN][a].score >= row[..TopN][b].score {
        assert ScoreKey(row[a]) >= ScoreKey(row[b]);
      }
    }
    NormalizeKeepsRanking(row);
  }

  ghost predicate NonNegativePriors(title: Matrix, desc: Matrix, nTrain: nat, nTest: nat)
    requires Shaped(title, nTrain, nTest) && Shaped(desc, nTrain, nTest)
  {
    forall i, j :: 0 <= i < nTrain && 0 <= j < nTest ==> title[i][j] >= 0.0 && desc[i][j] >= 0.0
  }

  ghost predicate TopsRanked(tops: seq<seq<Score>>) {
    forall j :: 0 <= j < |tops| ==>
      |tops[j]| >= TopN && Descending(tops[j][..TopN], ScoreKey) && NonNegative(tops[j][..TopN])
  }

  lemma CountCorrectHarmless(tops: seq<seq<Score>>, labels: seq<Option<string>>, actuals: seq<Option<string>>)
    requires |actuals| == |tops| && RowsFit(tops, |labels|) && TopsRanked(tops)
    ensures CountCorrect(tops, labels, actuals, TopN - 1) == CountCorrect(tops, labels, actuals, TopN)
  {
    var short := RowPredictions(tops, labels, actuals, TopN - 1);
    var full := RowPredictions(tops, labels, actuals, TopN);
    forall j | 0 <= j < |tops| ensures short[j] == full[j] {
      RowSortRangeHarmless(tops[j], labels, actuals[j]);
    }
    assert short == full;
  }

  /** With non-negative priors, re-sorting 99 entries instead of 100 never
      changes the number of correct predictions: the 100th entry could only
      matter if it outranked all others by relevance, and it cannot. */
  lemma SortRangeHarmless(title: Matrix, desc: Matrix, nTrain: nat, nTest: nat,
                          labels: seq<Option<string>>, actuals: seq<Option<string>>)
    requires Shaped(title, nTrain, nTest) && Shaped(desc, nTrain, nTest)
    requires |labels| == nTrain && |actuals| == nTest
    requires NonNegativePriors(title, desc, nTrain, nTest)
    ensures PredictFieldWith(title, desc, nTrain, nTest, labels, actuals, TopN - 1)
         == PredictFieldWith(title, desc, nTrain, nTest, labels, actuals, TopN)
  {
    var rows := RankedRows(title, desc, nTrain, nTest);
    var tops := NormalizeAll(rows);
    if tops.Ok? {
      forall j | 0 <= j < nTest
        ensures |tops.value[j]| >= TopN && Descending(tops.value[j][..TopN], ScoreKey) && NonNegative(tops.value[j][..TopN])
      {
        NormalizedRowRanked(title, desc, nTrain, nTest, j);
      }
      assert RowsFit(tops.value, nTrain) by {
        forall j | 0 <= j < nTest ensures |tops.value[j]| >= TopN && DocsWithin(tops.value[j], nTrain) {
          forall k | 0 <= k < |tops.value[j]| ensures tops.value[j][k].docID < nTrain {
            RankedEntry(title, desc, j, nTrain, nTest, k);
          }
        }
      }
      CountCorrectHarmless(tops.value, labels, actuals);
    }
  }
}
