/** How the documents of an experiment are chosen from the global index.

    The multi-label generators (MultiLabelClassificationNSDL.
    generateMultiLabelDataset, both snapshots) ask the index for every
    document whose five counts lie in given ranges, draw up to 100 test
    documents from those hits at random, and then scan the whole index in
    document order: drawn documents go to the test index, every other one to
    the training index while it is below its quota; the scan stops once both
    indexes are full.  The single-label experiments of the trunk snapshot
    (SRM.generateTestTrainSets, StructuredRelevanceModel.
    generateTestTrainSets_1) instead cut the hits 80/20.

    Randomness is an input: `hits` in shuffled order, and one real in [0, 1)
    per Math.random() call.
 */
module Selection {
  import opened Wrappers

  /** The counts NSDLIndex stores with each document. */
  datatype DocStats = DocStats(numSubject: nat, numAudience: nat, titleLen: nat, contentLen: nat, descLen: nat)

  /** An inclusive NumericRangeQuery range. */
  datatype Bounds = Bounds(lo: nat, hi: nat)

  /** Five ranges that must all hold (a BooleanQuery of MUST clauses). */
  datatype Query = Query(subject: Bounds, audience: Bounds, title: Bounds, content: Bounds, desc: Bounds)

  /** The query of the multi-label generators. */
  const MultiLabelQuery: Query := Query(Bounds(1, 100000), Bounds(1, 10), Bounds(1, 1000000), Bounds(1, 100000000), Bounds(1, 100000000))

  /** The query of the 80/20 splits: exactly one audience value. */
  const SplitQuery: Query := Query(Bounds(1, 100), Bounds(1, 1), Bounds(1, 100000), Bounds(1, 10000000), Bounds(1, 10000000))

  /** numTesting in both snapshots. */
  const NumTesting: nat := 100

  /** numTraining: 20000 in the src snapshot, 5000 in trunk. */
  const SrcNumTraining: nat := 20000
  const TrunkNumTraining: nat := 5000

  /** The most hits the 80/20 splits ask the searcher for. */
  const SplitHitLimit: nat := 20000

  predicate Within(b: Bounds, x: nat) {
    b.lo <= x <= b.hi
  }

  predicate Matches(q: Query, s: DocStats) {
    Within(q.subject, s.numSubject) && Within(q.audience, s.numAudience) && Within(q.title, s.titleLen)
    && Within(q.content, s.contentLen) && Within(q.desc, s.descLen)
  }

  /** The documents the query matches, in increasing id order. */
  function MatchingIds(q: Query, stats: seq<DocStats>): (ids: seq<nat>)
    ensures forall d: nat :: d in ids <==> d < |stats| && Matches(q, stats[d])
    ensures forall i, j :: 0 <= i < j < |ids| ==> ids[i] < ids[j]
    decreases |stats|
  {
    if |stats| == 0 then []
    else
      var n := |stats| - 1;
      var front := MatchingIds(q, stats[..n]);
      assert forall d: nat :: d in front <==> d < n && Matches(q, stats[d]) by {
        forall d: nat ensures d in front <==> d < n && Matches(q, stats[d]) {
          if d < n {
            assert stats[..n][d] == stats[d];
          }
        }
      }
      assert forall i :: 0 <= i < |front| ==> front[i] < n by {
        forall i | 0 <= i < |front| ensures front[i] < n {
          assert front[i] in front;
        }
      }
      if Matches(q, stats[n]) then front + [n] else front
  }

  // ---------------------------------------------------------------------------
  // Drawing the test documents

  /** (int) (Math.random() * n) for a draw u in [0, 1). */
  function Slot(u: real, n: nat): int {
    (u * n as real).Floor
  }

  lemma SlotInRange(u: real, n: nat)
    requires 0.0 <= u < 1.0 && n > 0
    ensures 0 <= Slot(u, n) < n
  {
    assert 0.0 <= u * n as real;
    assert u * n as real < n as real by {
      assert (1.0 - u) * n as real > 0.0;
    }
  }

  ghost predicate Draws(picks: seq<real>) {
    forall k :: 0 <= k < |picks| ==> 0.0 <= picks[k] < 1.0
  }

  /** The test ids: one draw per pick, repeats collapsing in the set.  With
      no hits the first draw indexes an empty array. */
  function DrawTestIds(hits: seq<nat>, picks: seq<real>): (r: Outcome<set<nat>>)
    requires Draws(picks)
    ensures r.Ok? <==> |hits| > 0 || |picks| == 0
    ensures r.Fail? ==> r.fault == IndexOutOfRange
    ensures r.Ok? ==> |r.value| <= |picks|
    ensures r.Ok? ==> forall d :: d in r.value <==>
      exists k :: 0 <= k < |picks| && 0 <= Slot(picks[k], |hits|) < |hits| && hits[Slot(picks[k], |hits|)] == d
    decreases |picks|
  {
    if |picks| == 0 then Ok({})
    else if |hits| == 0 then Fail(IndexOutOfRange)
    else
      SlotInRange(picks[0], |hits|);
      var rest := DrawTestIds(hits, picks[1..]).value;
      var d := hits[Slot(picks[0], |hits|)];
      assert forall e :: e in rest + {d} <==>
        exists k :: 0 <= k < |picks| && 0 <= Slot(picks[k], |hits|) < |hits| && hits[Slot(picks[k], |hits|)] == e by {
        forall e ensures e in rest + {d} <==>
          exists k :: 0 <= k < |picks| && 0 <= Slot(picks[k], |hits|) < |hits| && hits[Slot(picks[k], |hits|)] == e
        {
          if e in rest {
            var k :| 0 <= k < |picks[1..]| && 0 <= Slot(picks[1..][k], |hits|) < |hits| && hits[Slot(picks[1..][k], |hits|)] == e;
            assert picks[1..][k] == picks[k + 1];
          }
          if exists k :: 0 <= k < |picks| && 0 <= Slot(picks[k], |hits|) < |hits| && hits[Slot(picks[k], |hits|)] == e {
            var k :| 0 <= k < |picks| && 0 <= Slot(picks[k], |hits|) < |hits| && hits[Slot(picks[k], |hits|)] == e;
            if k > 0 {
              assert picks[1..][k - 1] == picks[k];
            }
          }
        }
      }
      Ok(rest + {d})
  }

  /** Every drawn id is one of the hits. */
  lemma DrawnAreHits(hits: seq<nat>, picks: seq<real>)
    requires Draws(picks) && DrawTestIds(hits, picks).Ok?
    ensures forall d :: d in DrawTestIds(hits, picks).value ==> d in hits
  {
  }

  // ---------------------------------------------------------------------------
  // The scan over the index

  /** The ids below n that are in s, in increasing order. */
  function Members(s: set<nat>, n: nat): (r: seq<nat>)
    decreases n
  {
    if n == 0 then [] else Members(s, n - 1) + (if n - 1 in s then [n - 1] else [])
  }

  /** The ids below n that are not in s, in increasing order. */
  function Others(s: set<nat>, n: nat): (r: seq<nat>)
    decreases n
  {
    if n == 0 then [] else Others(s, n - 1) + (if n - 1 !in s then [n - 1] else [])
  }

  function Take(xs: seq<nat>, k: nat): (r: seq<nat>)
    ensures |r| == if |xs| < k then |xs| else k
    ensures r == xs[..|r|]
  {
    if |xs| < k then xs else xs[..k]
  }

  /** The set of ids of s below n. */
  function Below(s: set<nat>, n: nat): set<nat> {
    set d | d in s && d < n
  }

  lemma MembersContents(s: set<nat>, n: nat)
    ensures forall d: nat :: d in Members(s, n) <==> d in s && d < n
    ensures forall d: nat :: d in Others(s, n) <==> d !in s && d < n
    ensures |Members(s, n)| == |Below(s, n)|
    ensures |Members(s, n)| + |Others(s, n)| == n
  {
    MembersIn(s, n);
    OthersIn(s, n);
    MembersCount(s, n);
    PartsCount(s, n);
  }

  lemma {:induction false} MembersIn(s: set<nat>, n: nat)
    ensures forall d: nat :: d in Members(s, n) <==> d in s && d < n
    decreases n
  {
    if n > 0 {
      MembersIn(s, n - 1);
    }
  }

  lemma {:induction false} OthersIn(s: set<nat>, n: nat)
    ensures forall d: nat :: d in Others(s, n) <==> d !in s && d < n
    decreases n
  {
    if n > 0 {
      OthersIn(s, n - 1);
    }
  }

  lemma {:induction false} MembersCount(s: set<nat>, n: nat)
    ensures |Members(s, n)| == |Below(s, n)|
    decreases n
  {
    if n > 0 {
      MembersCount(s, n - 1);
      if n - 1 in s {
        assert Below(s, n) == Below(s, n - 1) + {n - 1};
      } else {
        assert Below(s, n) == Below(s, n - 1);
      }
    }
  }

  lemma {:induction false} PartsCount(s: set<nat>, n: nat)
    ensures |Members(s, n)| + |Others(s, n)| == n
    decreases n
  {
    if n > 0 {
      PartsCount(s, n - 1);
    }
  }

  /** Both indexes have reached their quota at document n. */
  ghost predicate Full(s: set<nat>, n: nat, numTraining: nat, numTesting: nat) {
    |Others(s, n)| >= numTraining && |Members(s, n)| >= numTesting
  }

  /** The scan: the test documents and the training documents in the order
      they are added, and the id the scan stopped at. */
  method Scan(total: nat, testIds: set<nat>, numTraining: nat, numTesting: nat)
    returns (test: seq<nat>, train: seq<nat>, stop: nat)
    ensures stop <= total
    ensures stop == total || Full(testIds, stop, numTraining, numTesting)
    ensures forall e :: 0 <= e < stop ==> !Full(testIds, e, numTraining, numTesting)
    ensures test == Members(testIds, stop)
    ensures train == Take(Others(testIds, stop), numTraining)
  {
    test, train, stop := [], [], 0;
    while stop < total
      invariant stop <= total
      invariant test == Members(testIds, stop)
      invariant train == Take(Others(testIds, stop), numTraining)
      invariant forall e :: 0 <= e < stop ==> !Full(testIds, e, numTraining, numTesting)
      decreases total - stop
    {
      if |train| >= numTraining && |test| >= numTesting {
        return;
      }
      if stop in testIds {
        test := test + [stop];
      } else if |train| < numTraining {
        train := train + [stop];
      }
      stop := stop + 1;
    }
  }

  /** A document is never in both indexes. */
  lemma ScanDisjoint(testIds: set<nat>, stop: nat, numTraining: nat)
    ensures forall d :: d in Members(testIds, stop) ==> d !in Take(Others(testIds, stop), numTraining)
  {
    MembersContents(testIds, stop);
  }

  /** When no more ids were drawn than the test quota and all of them are
      documents of the index, the scan never stops before every drawn
      document is in the test index, and the training index gets its quota
      or every other document. */
  lemma ScanKeepsDrawn(total: nat, testIds: set<nat>, numTraining: nat, numTesting: nat, stop: nat)
    requires |testIds| <= numTesting && forall d :: d in testIds ==> d < total
    requires stop <= total && (stop == total || Full(testIds, stop, numTraining, numTesting))
    ensures forall d :: d in testIds <==> d in Members(testIds, stop)
    ensures |Take(Others(testIds, stop), numTraining)| == if total - |testIds| < numTraining then total - |testIds| else numTraining
  {
    MembersContents(testIds, stop);
    MembersContents(testIds, total);
    assert Below(testIds, total) == testIds;
    if stop < total {
      assert Below(testIds, stop) <= testIds;
      assert |Below(testIds, stop)| >= |testIds|;
      SubsetCard(Below(testIds, stop), testIds);
      assert |Others(testIds, stop)| <= |Others(testIds, total)| by {
        OthersGrow(testIds, stop, total);
      }
    }
  }

  /** A subset is no larger, and as large only when it is the whole set. */
  lemma {:induction false} SubsetCard(a: set<nat>, b: set<nat>)
    requires a <= b
    ensures |a| <= |b|
    ensures |a| == |b| ==> a == b
    decreases |b|
  {
    if b != {} {
      var y :| y in b;
      SubsetCard(a - {y}, b - {y});
      if y in a {
        assert a == (a - {y}) + {y};
        assert b == (b - {y}) + {y};
      }
    }
  }

  lemma {:induction false} OthersGrow(s: set<nat>, m: nat, n: nat)
    requires m <= n
    ensures |Others(s, m)| <= |Others(s, n)|
    decreases n - m
  {
    if m < n {
      OthersGrow(s, m, n - 1);
    }
  }

  // ---------------------------------------------------------------------------
  // generateMultiLabelDataset

  datatype Dataset = Dataset(test: seq<nat>, train: seq<nat>)

  /** A shuffle only reorders. */
  ghost predicate Shuffled(hits: seq<nat>, ids: seq<nat>) {
    multiset(hits) == multiset(ids)
  }

  /** One run of generateMultiLabelDataset over an index with the given
      counts: `hits` is the shuffled list of matches, `picks` the draws. */
  method MultiLabelDataset(stats: seq<DocStats>, hits: seq<nat>, picks: seq<real>, numTraining: nat)
    returns (r: Outcome<Dataset>)
    requires Shuffled(hits, MatchingIds(MultiLabelQuery, stats))
    requires |picks| == NumTesting && Draws(picks)
    ensures r.Ok? <==> |hits| > 0
    ensures r.Fail? ==> r.fault == IndexOutOfRange
    ensures r.Ok? ==> forall d :: d in r.value.test <==> d in DrawTestIds(hits, picks).value
    ensures r.Ok? ==> |r.value.test| <= NumTesting
    ensures r.Ok? ==> forall d :: d in r.value.test ==> d < |stats| && Matches(MultiLabelQuery, stats[d])
    ensures r.Ok? ==> forall d :: d in r.value.train ==> d < |stats| && d !in r.value.test
    ensures r.Ok? ==> |r.value.train| <= numTraining
    ensures r.Ok? ==> |r.value.train| == numTraining || |r.value.train| + |DrawTestIds(hits, picks).value| == |stats|
  {
    var drawn := DrawTestIds(hits, picks);
    if drawn.Fail? {
      return Fail(drawn.fault);
    }
    var testIds := drawn.value;
    DrawnMatch(stats, hits, picks);
    var test, train, stop := Scan(|stats|, testIds, numTraining, NumTesting);
    DatasetFacts(stats, testIds, numTraining, stop);
    assert |train| == Min(numTraining, |stats| - |testIds|);
    return Ok(Dataset(test, train));
  }

  /** ScanFacts restated for the drawn ids of a multi-label run. */
  lemma DatasetFacts(stats: seq<DocStats>, testIds: set<nat>, numTraining: nat, stop: nat)
    requires |testIds| <= NumTesting
    requires forall d :: d in testIds ==> d < |stats| && Matches(MultiLabelQuery, stats[d])
    requires stop <= |stats| && (stop == |stats| || Full(testIds, stop, numTraining, NumTesting))
    ensures forall d :: d in Members(testIds, stop) <==> d in testIds
    ensures |Members(testIds, stop)| <= NumTesting
    ensures forall d :: d in Members(testIds, stop) ==> d < |stats| && Matches(MultiLabelQuery, stats[d])
    ensures forall d :: d in Take(Others(testIds, stop), numTraining) ==> d < |stats| && d !in Members(testIds, stop)
    ensures |Take(Others(testIds, stop), numTraining)| == Min(numTraining, |stats| - |testIds|)
  {
    ScanFacts(|stats|, testIds, numTraining, NumTesting, stop);
  }

  function Min(a: int, b: int): int {
    if a < b then a else b
  }

  /** What the scan's stopping rule yields when no more ids were drawn than
      the test quota and all of them are documents of the index: every
      drawn id is tested, each once, and the training documents are the
      others, up to the quota. */
  lemma ScanFacts(total: nat, testIds: set<nat>, numTraining: nat, numTesting: nat, stop: nat)
    requires |testIds| <= numTesting && forall d :: d in testIds ==> d < total
    requires stop <= total && (stop == total || Full(testIds, stop, numTraining, numTesting))
    ensures forall d :: d in Members(testIds, stop) <==> d in testIds
    ensures |Members(testIds, stop)| <= numTesting
    ensures forall d :: d in Take(Others(testIds, stop), numTraining) ==> d < total && d !in testIds
    ensures |Take(Others(testIds, stop), numTraining)| == Min(numTraining, total - |testIds|)
  {
    ScanKeepsDrawn(total, testIds, numTraining, numTesting, stop);
    MembersCount(testIds, stop);
    SubsetCard(Below(testIds, stop), testIds);
    OthersIn(testIds, stop);
    var xs := Others(testIds, stop);
    assert forall d :: d in Take(xs, numTraining) ==> d in xs;
  }

  /** Every drawn document matches the query. */
  lemma DrawnMatch(stats: seq<DocStats>, hits: seq<nat>, picks: seq<real>)
    requires Shuffled(hits, MatchingIds(MultiLabelQuery, stats))
    requires Draws(picks) && |hits| > 0
    ensures forall d :: d in DrawTestIds(hits, picks).value ==> d < |stats| && Matches(MultiLabelQuery, stats[d])
  {
    var ids := MatchingIds(MultiLabelQuery, stats);
    DrawnAreHits(hits, picks);
    forall d | d in DrawTestIds(hits, picks).value
      ensures d < |stats| && Matches(MultiLabelQuery, stats[d])
    {
      assert d in multiset(hits);
      assert d in multiset(ids);
      assert d in ids;
    }
  }

  /** The src snapshot also records the training ids. */
  function TrainIds(d: Dataset): (ids: set<nat>)
    ensures forall x :: x in ids <==> x in d.train
  {
    set x | x in d.train
  }

  // ---------------------------------------------------------------------------
  // The 80/20 splits of the trunk snapshot

  /** (int) (0.8 * n). */
  function MaxTrain(n: nat): int {
    (0.8 * n as real).Floor
  }

  /** The cut is four fifths of the hits, rounded down. */
  lemma MaxTrainFourFifths(n: nat)
    ensures MaxTrain(n) == (4 * n) / 5
  {
    var m := (4 * n) / 5;
    assert 5 * m <= 4 * n < 5 * m + 5;
    assert m as real <= 0.8 * n as real < m as real + 1.0;
  }

  /** What the searcher returns for the split query: at most 20000 matches,
      in id order (every match has the same score). */
  function SplitHits(stats: seq<DocStats>): (hits: seq<nat>)
    ensures |hits| <= SplitHitLimit
    ensures forall d :: d in hits ==> d < |stats| && Matches(SplitQuery, stats[d])
  {
    var ids := MatchingIds(SplitQuery, stats);
    if |ids| <= SplitHitLimit then ids
    else
      assert forall d :: d in ids[..SplitHitLimit] ==> d in ids;
      ids[..SplitHitLimit]
  }

  /** Both splits: the first four fifths of the (shuffled, in SRM) hits
      train, the rest test.  `order` is the hits in shuffled order for SRM
      and the hits themselves for StructuredRelevanceModel. */
  function SplitHitsAt(order: seq<nat>): (r: Dataset)
    ensures r.train + r.test == order
    ensures 5 * |r.train| <= 4 * |order| < 5 * |r.train| + 5
  {
    MaxTrainFourFifths(|order|);
    var cut := MaxTrain(|order|);
    Dataset(order[cut..], order[..cut])
  }

  /** With distinct hits no document is both training and testing, and
      every hit is one of the two. */
  lemma SplitPartitions(order: seq<nat>)
    requires forall i, j :: 0 <= i < j < |order| ==> order[i] != order[j]
    ensures forall d :: d in order <==> d in SplitHitsAt(order).train || d in SplitHitsAt(order).test
    ensures forall d :: d in SplitHitsAt(order).train ==> d !in SplitHitsAt(order).test
  {
    var r := SplitHitsAt(order);
    var cut := |r.train|;
    forall d | d in r.train ensures d !in r.test {
      var i :| 0 <= i < cut && r.train[i] == d;
      forall j | 0 <= j < |r.test| ensures r.test[j] != d {
        assert r.test[j] == order[cut + j] && r.train[i] == order[i];
      }
    }
    forall d | d in order ensures d in r.train || d in r.test {
      var i :| 0 <= i < |order| && order[i] == d;
      if i < cut {
        assert r.train[i] == d;
      } else {
        assert r.test[i - cut] == d;
      }
    }
  }

  /** Both splits of the hits: SRM.generateTestTrainSets with `order` the
      shuffled hits, and StructuredRelevanceModel.generateTestTrainSets_1,
      which does not shuffle, with `order` the hits as returned. */
  function ShuffledSplit(stats: seq<DocStats>, order: seq<nat>): (r: Dataset)
    requires Shuffled(order, SplitHits(stats))
    ensures forall d :: d in r.train || d in r.test ==> d < |stats| && Matches(SplitQuery, stats[d])
    ensures |r.train| + |r.test| == |SplitHits(stats)|
  {
    var r := SplitHitsAt(order);
    var hits := SplitHits(stats);
    assert forall d :: d in r.train || d in r.test ==> d in hits by {
      forall d | d in r.train || d in r.test ensures d in hits {
        assert d in r.train + r.test;
        assert d in multiset(order);
        assert d in multiset(hits);
      }
    }
    assert |order| == |multiset(order)|;
    r
  }
}
