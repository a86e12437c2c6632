/** The label vote of the multi-label classifiers
    (MultiLabelClassificationNSDL.predictfield, both snapshots).  Each of the
    top neighbours credits its score to every value it stores for the
    predicted field (`fieldCounts`; a document may store several values, the
    same one twice, or none).  The values become `Relevance` candidates in the
    order the map hands its keys out, and the candidates are sorted by
    descending weight with a stable sort.

    The key order of a Java HashMap is not specified.  `RelevanceModel` and
    the classifiers take any `order` that lists the keys once each, one order
    per test document (`OrdersFor`); `KeyOrder`, the order in which values
    are first met, is one such order.  The stable sort keeps tied values in
    key order, so on a tie the order decides which values are predicted;
    `HashOrderIrrelevant` shows it cannot matter without ties.
 */
module Voting {
  import opened Ranking
  import opened Combination

  /** MultiLabelClassificationNSDL.Relevance: a stored value and its weight. */
  datatype Candidate = Candidate(value: string, weight: real)

  function WeightKey(c: Candidate): real { c.weight }

  /** The weight a map gives a value, 0 when it has none. */
  function Get(counts: map<string, real>, v: string): real {
    if v in counts then counts[v] else 0.0
  }

  function Elements(vals: seq<string>): set<string> {
    set u | u in vals
  }

  // ---------------------------------------------------------------------------
  // Reference: what the vote adds up to

  /** The weight a value collects: every neighbour's score, once for each
      time the neighbour stores the value. */
  function Weight(top: seq<Score>, values: seq<seq<string>>, v: string): real
    requires DocsWithin(top, |values|)
    decreases |top|
  {
    if |top| == 0 then 0.0
    else
      assert DocsWithin(top[1..], |values|) by { TailWithin(top, |values|); }
      Occurrences(values[top[0].docID], v, top[0].score) + Weight(top[1..], values, v)
  }

  /** `s` once for every time `vals` holds `v`. */
  function Occurrences(vals: seq<string>, v: string, s: real): real
    decreases |vals|
  {
    if |vals| == 0 then 0.0 else (if vals[0] == v then s else 0.0) + Occurrences(vals[1..], v, s)
  }

  /** The values some neighbour stores. */
  function Labels(top: seq<Score>, values: seq<seq<string>>): set<string>
    requires DocsWithin(top, |values|)
    decreases |top|
  {
    if |top| == 0 then {}
    else
      assert DocsWithin(top[1..], |values|) by { TailWithin(top, |values|); }
      Elements(values[top[0].docID]) + Labels(top[1..], values)
  }

  lemma TailWithin(top: seq<Score>, n: nat)
    requires |top| > 0 && DocsWithin(top, n)
    ensures DocsWithin(top[1..], n)
  {
    assert forall k :: 0 <= k < |top| - 1 ==> top[1..][k] == top[k + 1];
  }

  // ---------------------------------------------------------------------------
  // The fieldCounts loops

  /** One stored value credited with a neighbour's score: a new key starts at
      `1.0 * score`, a known one adds the score. */
  function Credit(counts: map<string, real>, v: string, s: real): (r: map<string, real>)
    ensures r.Keys == counts.Keys + {v}
    ensures Get(r, v) == Get(counts, v) + s
    ensures forall u :: u != v ==> Get(r, u) == Get(counts, u)
  {
    if v in counts then counts[v := counts[v] + s] else counts[v := 1.0 * s]
  }

  /** All the values of one neighbour credited, in order. */
  function CreditAll(counts: map<string, real>, vals: seq<string>, s: real): (r: map<string, real>)
    ensures r.Keys == counts.Keys + Elements(vals)
    decreases |vals|
  {
    if |vals| == 0 then counts
    else
      ElementsCons(vals);
      CreditAll(Credit(counts, vals[0], s), vals[1..], s)
  }

  lemma ElementsCons(vals: seq<string>)
    requires |vals| > 0
    ensures Elements(vals) == {vals[0]} + Elements(vals[1..])
  {
    assert forall u :: u in vals[1..] ==> u in vals;
    assert forall u :: u in vals && u != vals[0] ==> u in vals[1..];
  }

  /** A neighbour adds its score to a value once per time it stores it. */
  lemma {:induction false} CreditAllWeight(counts: map<string, real>, vals: seq<string>, s: real, u: string)
    ensures Get(CreditAll(counts, vals, s), u) == Get(counts, u) + Occurrences(vals, u, s)
    decreases |vals|
  {
    if |vals| > 0 {
      CreditAllWeight(Credit(counts, vals[0], s), vals[1..], s, u);
    }
  }

  /** fieldCounts once the neighbours `top` have voted, starting from `counts`:
      every key is a stored value of some neighbour and holds that value's
      weight. */
  function FieldCounts(counts: map<string, real>, top: seq<Score>, values: seq<seq<string>>): (r: map<string, real>)
    requires DocsWithin(top, |values|)
    ensures r.Keys == counts.Keys + Labels(top, values)
    ensures forall u :: Get(r, u) == Get(counts, u) + Weight(top, values, u)
    decreases |top|
  {
    if |top| == 0 then counts
    else
      TailWithin(top, |values|);
      var c1 := CreditAll(counts, values[top[0].docID], top[0].score);
      var r := FieldCounts(c1, top[1..], values);
      assert forall u :: Get(r, u) == Get(counts, u) + Weight(top, values, u) by {
        forall u ensures Get(r, u) == Get(counts, u) + Weight(top, values, u) {
          CreditAllWeight(counts, values[top[0].docID], top[0].score, u);
        }
      }
      r
  }

  // ---------------------------------------------------------------------------
  // The relevance model

  /** `order` lists the keys once each: the map's keySet iteration order. */
  ghost predicate Enumerates(order: seq<string>, keys: set<string>) {
    Distinct(order) &&
    (forall k :: 0 <= k < |order| ==> order[k] in keys) &&
    (forall v :: v in keys ==> v in order)
  }

  /** `acc` followed by the values of `vals` it does not hold yet, each once. */
  function AddNew(acc: seq<string>, vals: seq<string>): (r: seq<string>)
    requires Distinct(acc)
    ensures Distinct(r)
    ensures forall u :: u in r <==> u in acc || u in vals
    decreases |vals|
  {
    if |vals| == 0 then acc
    else if vals[0] in acc then AddNew(acc, vals[1..])
    else AddNew(acc + [vals[0]], vals[1..])
  }

  function FirstSeen(acc: seq<string>, top: seq<Score>, values: seq<seq<string>>): (r: seq<string>)
    requires Distinct(acc) && DocsWithin(top, |values|)
    ensures Distinct(r)
    ensures forall u :: u in r <==> u in acc || u in Labels(top, values)
    decreases |top|
  {
    if |top| == 0 then acc
    else
      TailWithin(top, |values|);
      FirstSeen(AddNew(acc, values[top[0].docID]), top[1..], values)
  }

  /** The voted values in the order they are first met. */
  function KeyOrder(top: seq<Score>, values: seq<seq<string>>): (order: seq<string>)
    requires DocsWithin(top, |values|)
    ensures Enumerates(order, Labels(top, values))
  {
    FirstSeen([], top, values)
  }

  /** `order` is a keySet order of the map the first `n` neighbours of `row`
      vote into; a shorter row never gets that far, and then any order will do. */
  ghost predicate VoteOrder(order: seq<string>, row: seq<Score>, n: nat, values: seq<seq<string>>) {
    |row| >= n && DocsWithin(row[..n], |values|) ==> Enumerates(order, Labels(row[..n], values))
  }

  /** One keySet order per test document's row. */
  ghost predicate OrdersFor(orders: seq<seq<string>>, rows: seq<seq<Score>>, n: nat, values: seq<seq<string>>) {
    |orders| == |rows| && forall j :: 0 <= j < |rows| ==> VoteOrder(orders[j], rows[j], n, values)
  }

  /** A key order is as long as the key set. */
  lemma {:induction false} EnumerationSize(order: seq<string>, keys: set<string>)
    requires Enumerates(order, keys)
    ensures |order| == |keys|
    decreases |order|
  {
    if |order| == 0 {
      assert forall v :: v !in keys;
      assert keys == {};
    } else {
      var rest := order[1..];
      assert forall i :: 0 <= i < |rest| ==> rest[i] == order[i + 1];
      assert forall i :: 0 <= i < |rest| ==> rest[i] != order[0];
      assert forall v :: v in keys - {order[0]} ==> v in rest by {
        forall v | v in keys - {order[0]} ensures v in rest {
          var i :| 0 <= i < |order| && order[i] == v;
          assert rest[i - 1] == v;
        }
      }
      EnumerationSize(rest, keys - {order[0]});
    }
  }

  /** The voted values depend only on which documents vote, not on their
      scores: rescaling a row keeps its labels. */
  lemma {:induction false} LabelsSameDocs(a: seq<Score>, b: seq<Score>, values: seq<seq<string>>)
    requires DocsWithin(a, |values|) && |a| == |b|
    requires forall k :: 0 <= k < |a| ==> a[k].docID == b[k].docID
    ensures DocsWithin(b, |values|) && Labels(a, values) == Labels(b, values)
    decreases |a|
  {
    if |a| > 0 {
      TailWithin(a, |values|);
      assert forall k :: 0 <= k < |a| - 1 ==> a[1..][k].docID == b[1..][k].docID;
      LabelsSameDocs(a[1..], b[1..], values);
    }
  }

  /** The candidates in key order. */
  function Candidates(order: seq<string>, counts: map<string, real>): (cs: seq<Candidate>)
    requires forall k :: 0 <= k < |order| ==> order[k] in counts
    ensures |cs| == |order|
    ensures forall k :: 0 <= k < |order| ==> cs[k] == Candidate(order[k], counts[order[k]])
  {
    seq(|order|, k requires 0 <= k < |order| => Candidate(order[k], counts[order[k]]))
  }

  /** relevanceModel for one test document: the voted values sorted by
      descending weight, ties in key order. */
  function RelevanceModel(top: seq<Score>, values: seq<seq<string>>, order: seq<string>): (rm: seq<Candidate>)
    requires DocsWithin(top, |values|) && Enumerates(order, Labels(top, values))
    ensures |rm| == |order|
    ensures Descending(rm, WeightKey)
    ensures multiset(rm) == multiset(Candidates(order, FieldCounts(map[], top, values)))
  {
    var cs := Candidates(order, FieldCounts(map[], top, values));
    SortLength(cs, WeightKey);
    SortDesc(cs, WeightKey)
  }

  /** Every candidate is a stored value of a neighbour, carrying its weight. */
  lemma RankedCandidate(top: seq<Score>, values: seq<seq<string>>, order: seq<string>, k: nat)
    requires DocsWithin(top, |values|) && Enumerates(order, Labels(top, values))
    requires k < |order|
    ensures var c := RelevanceModel(top, values, order)[k];
      c.value in Labels(top, values) && c.weight == Weight(top, values, c.value)
  {
    var counts := FieldCounts(map[], top, values);
    var i := PermutedFrom(RelevanceModel(top, values, order), Candidates(order, counts), k);
    assert Get(counts, order[i]) == Weight(top, values, order[i]);
  }

  /** Every stored value of a neighbour is a candidate. */
  lemma EveryLabelRanked(top: seq<Score>, values: seq<seq<string>>, order: seq<string>, v: string)
    requires DocsWithin(top, |values|) && Enumerates(order, Labels(top, values))
    requires v in Labels(top, values)
    ensures exists k :: 0 <= k < |order| && RelevanceModel(top, values, order)[k].value == v
  {
    var counts := FieldCounts(map[], top, values);
    var cs := Candidates(order, counts);
    var i :| 0 <= i < |order| && order[i] == v;
    var k := PermutedFrom(cs, RelevanceModel(top, values, order), i);
    assert RelevanceModel(top, values, order)[k].value == v;
  }

  /** The first `n` candidates outweigh every value left out of them: a
      prediction list is always a heaviest set of values. */
  lemma PredictionsOutweigh(top: seq<Score>, values: seq<seq<string>>, order: seq<string>, n: nat, k: nat, v: string)
    requires DocsWithin(top, |values|) && Enumerates(order, Labels(top, values))
    requires k < n <= |order| && v in Labels(top, values)
    requires forall i :: 0 <= i < n ==> RelevanceModel(top, values, order)[i].value != v
    ensures RelevanceModel(top, values, order)[k].weight >= Weight(top, values, v)
  {
    var rm := RelevanceModel(top, values, order);
    EveryLabelRanked(top, values, order, v);
    var m :| 0 <= m < |order| && rm[m].value == v;
    assert n <= m;
    RankedCandidate(top, values, order, m);
    assert WeightKey(rm[k]) >= WeightKey(rm[m]);
  }

  /** No two voted values weigh the same. */
  ghost predicate NoTies(top: seq<Score>, values: seq<seq<string>>)
    requires DocsWithin(top, |values|)
  {
    forall u, v :: u in Labels(top, values) && v in Labels(top, values) && u != v ==>
      Weight(top, values, u) != Weight(top, values, v)
  }

  /** Without ties, the map's key order does not show in the relevance model. */
  lemma HashOrderIrrelevant(top: seq<Score>, values: seq<seq<string>>, o1: seq<string>, o2: seq<string>)
    requires DocsWithin(top, |values|)
    requires Enumerates(o1, Labels(top, values)) && Enumerates(o2, Labels(top, values))
    requires NoTies(top, values)
    ensures RelevanceModel(top, values, o1) == RelevanceModel(top, values, o2)
  {
    var counts := FieldCounts(map[], top, values);
    var c1 := Candidates(o1, counts);
    var c2 := Candidates(o2, counts);
    CandidatesApart(top, values, o1);
    CandidatesApart(top, values, o2);
    assert forall x :: x in c1 <==> x in c2 by {
      forall x ensures x in c1 ==> x in c2 {
        if x in c1 {
          var i :| 0 <= i < |c1| && c1[i] == x;
          var j :| 0 <= j < |o2| && o2[j] == o1[i];
          assert c2[j] == x;
        }
      }
      forall x ensures x in c2 ==> x in c1 {
        if x in c2 {
          var i :| 0 <= i < |c2| && c2[i] == x;
          var j :| 0 <= j < |o1| && o1[j] == o2[i];
          assert c1[j] == x;
        }
      }
    }
    assert Distinct(c1) && Distinct(c2);
    DistinctSameElements(c1, c2);
    var rm1 := RelevanceModel(top, values, o1);
    DistinctKeysPermuted(rm1, c1, WeightKey);
    DescendingUnique(rm1, RelevanceModel(top, values, o2), WeightKey);
  }

  /** Without ties, the candidates have pairwise different weights. */
  lemma CandidatesApart(top: seq<Score>, values: seq<seq<string>>, order: seq<string>)
    requires DocsWithin(top, |values|) && Enumerates(order, Labels(top, values)) && NoTies(top, values)
    ensures DistinctKeys(Candidates(order, FieldCounts(map[], top, values)), WeightKey)
  {
    var counts := FieldCounts(map[], top, values);
    var cs := Candidates(order, counts);
    forall i, j | 0 <= i < |cs| && 0 <= j < |cs| && i != j ensures WeightKey(cs[i]) != WeightKey(cs[j]) {
      assert Get(counts, order[i]) == Weight(top, values, order[i]);
      assert Get(counts, order[j]) == Weight(top, values, order[j]);
    }
  }
}
