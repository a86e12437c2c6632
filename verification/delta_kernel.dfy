/** The delta-kernel scorer of the trunk snapshot (SRM.calculateDeltaKernelScore
    and SRM.main).

    The test document's title, content and desc tokens are collected into
    three sets.  For every training document, in training-list order, each
    field's tokens are counted, each query token of the field contributes
    the Laplace-smoothed rate (count + 1) / (n + 2), and the three field
    scores are combined with the weights 100, 0.01 and 0.01.  The training
    document's audience and subject values are cut at `'`, `:` and `/`, the
    pieces lower-cased and made a set, and every token of the set gains the
    combined score once.  The method itself always returns 0.0; the subject
    scores are only printed.

    The analyzer is not modelled: a document's fields are given as the token
    streams it produces.  HashSet iteration orders are replaced by the order
    in which tokens are first met; the lemmas show that no other order
    changes a score.
 */
module DeltaKernel {
  import opened Text
  import opened Ranking
  import opened Voting

  const TitleWeight: real := 100.0
  const ContentWeight: real := 0.01
  const DescWeight: real := 0.01

  /** main scores at most this many test documents. */
  const TestsScored: nat := 5

  /** A stored document: the analyzed tokens of its three text fields and
      the raw values of its two label fields. */
  datatype Doc = Doc(title: seq<string>, content: seq<string>, desc: seq<string>,
                     audience: seq<string>, subject: seq<string>)

  datatype LabelField = Audience | Subject

  function ValuesOf(d: Doc, f: LabelField): seq<string> {
    match f
    case Audience => d.audience
    case Subject => d.subject
  }

  // ---------------------------------------------------------------------------
  // Token counts of a training field

  /** The count map and token total of a training field (titleMap and
      titleNI): the total is the sum of the counts. */
  method CountTokens(tokens: seq<string>) returns (counts: multiset<string>, ni: nat)
    ensures counts == multiset(tokens)
    ensures ni == |tokens| && ni == |counts|
  {
    counts := multiset{};
    ni := 0;
    var i := 0;
    while i < |tokens|
      invariant 0 <= i <= |tokens|
      invariant counts == multiset(tokens[..i])
      invariant ni == i
    {
      var t := tokens[i];
      if t in counts {
        counts := counts[t := counts[t] + 1];
      } else {
        counts := counts[t := 1];
      }
      assert tokens[..i + 1] == tokens[..i] + [t];
      ni := ni + 1;
      i := i + 1;
    }
    assert tokens[..|tokens|] == tokens;
  }

  // ---------------------------------------------------------------------------
  // Field similarity

  /** One query token's share: (count + 1) / (n + 2) when the training field
      holds it, 1 / (n + 2) when it does not. */
  function Contribution(t: string, counts: multiset<string>, ni: nat): real {
    if t in counts then (counts[t] as real + 1.0) / (ni + 2) as real
    else 1.0 / (ni + 2) as real
  }

  /** The shares of the query tokens `query`, summed in order. */
  function Sim(query: seq<string>, counts: multiset<string>, ni: nat): real
    decreases |query|
  {
    if |query| == 0 then 0.0 else Contribution(query[0], counts, ni) + Sim(query[1..], counts, ni)
  }

  /** titleSimScore (and its content and desc counterparts) of a training
      field against the query set listed by `query`. */
  function FieldSim(query: seq<string>, tokens: seq<string>): real {
    Sim(query, multiset(tokens), |tokens|)
  }

  /** A token occurs at most as often as the field has tokens. */
  lemma {:induction false} CountAtMostLength<T>(xs: seq<T>, x: T)
    ensures multiset(xs)[x] <= |xs|
    decreases |xs|
  {
    CountIsMultiplicity(xs, x);
    if |xs| > 0 {
      CountAtMostLength(xs[1..], x);
      CountIsMultiplicity(xs[1..], x);
    }
  }

  /** Every share lies strictly between 0 and 1. */
  lemma ContributionBounds(t: string, tokens: seq<string>)
    ensures 0.0 < Contribution(t, multiset(tokens), |tokens|) < 1.0
  {
    CountAtMostLength(tokens, t);
    var c := multiset(tokens)[t];
    var n := |tokens|;
    if t in multiset(tokens) {
      ShareBelowOne(c, n);
    } else {
      ShareBelowOne(0, n);
    }
  }

  lemma ShareBelowOne(c: nat, n: nat)
    requires c <= n
    ensures 0.0 < (c as real + 1.0) / (n + 2) as real < 1.0
    ensures 0.0 < 1.0 / (n + 2) as real < 1.0
  {
  }

  /** A field scores 0 against an empty query and otherwise strictly
      between 0 and the number of query tokens. */
  lemma {:induction false} FieldSimBounds(query: seq<string>, tokens: seq<string>)
    ensures |query| == 0 ==> FieldSim(query, tokens) == 0.0
    ensures |query| > 0 ==> 0.0 < FieldSim(query, tokens) < |query| as real
    decreases |query|
  {
    if |query| > 0 {
      ContributionBounds(query[0], tokens);
      FieldSimBounds(query[1..], tokens);
    }
  }

  lemma {:induction false} SimAppend(a: seq<string>, b: seq<string>, counts: multiset<string>, ni: nat)
    ensures Sim(a + b, counts, ni) == Sim(a, counts, ni) + Sim(b, counts, ni)
    decreases |a|
  {
    if |a| == 0 {
      assert a + b == b;
    } else {
      assert (a + b)[1..] == a[1..] + b;
      SimAppend(a[1..], b, counts, ni);
    }
  }

  /** The shares add up alike in any order. */
  lemma {:induction false} SimPermuted(a: seq<string>, b: seq<string>, counts: multiset<string>, ni: nat)
    requires multiset(a) == multiset(b)
    ensures Sim(a, counts, ni) == Sim(b, counts, ni)
    decreases |a|
  {
    if |a| > 0 {
      var x := a[0];
      assert x in multiset(b);
      var i :| 0 <= i < |b| && b[i] == x;
      var rest := b[..i] + b[i + 1..];
      assert b == b[..i] + [x] + b[i + 1..];
      assert a == [x] + a[1..];
      assert multiset(a[1..]) == multiset(a) - multiset{x};
      assert multiset(rest) == multiset(b) - multiset{x};
      SimPermuted(a[1..], rest, counts, ni);
      SimAppend(b[..i] + [x], b[i + 1..], counts, ni);
      SimAppend(b[..i], [x], counts, ni);
      SimAppend(b[..i], b[i + 1..], counts, ni);
      assert [x][1..] == [];
    }
  }

  /** The HashSet's order is irrelevant: any two listings of the same query
      set give a field the same score. */
  lemma FieldSimOrderFree(q1: seq<string>, q2: seq<string>, tokens: seq<string>)
    requires Distinct(q1) && Distinct(q2)
    requires forall t :: t in q1 <==> t in q2
    ensures FieldSim(q1, tokens) == FieldSim(q2, tokens)
  {
    DistinctSameElements(q1, q2);
    SimPermuted(q1, q2, multiset(tokens), |tokens|);
  }

  // ---------------------------------------------------------------------------
  // The query

  /** The query set of a test field (rTitle, rContent, rDesc), listed in the
      order its tokens are first met: each token once. */
  function QuerySet(stream: seq<string>): (q: seq<string>)
    ensures Distinct(q)
    ensures forall t :: t in q <==> t in stream
  {
    AddNew([], stream)
  }

  /** A repeated query token counts once: repeating any token of the test
      field leaves every training field's score unchanged. */
  lemma RepeatIgnored(stream: seq<string>, i: nat, tokens: seq<string>)
    requires i < |stream|
    ensures FieldSim(QuerySet(stream + [stream[i]]), tokens) == FieldSim(QuerySet(stream), tokens)
  {
    FieldSimOrderFree(QuerySet(stream + [stream[i]]), QuerySet(stream), tokens);
  }

  /** simScore = titleWeight * titleSimScore + contentWeight * contentSimScore
      + descWeight * descSimScore. */
  function SimScore(title: real, content: real, desc: real): real {
    TitleWeight * title + ContentWeight * content + DescWeight * desc
  }

  /** The combined score of one training document against a test document. */
  function DocScore(test: Doc, d: Doc): real {
    SimScore(FieldSim(QuerySet(test.title), d.title),
             FieldSim(QuerySet(test.content), d.content),
             FieldSim(QuerySet(test.desc), d.desc))
  }

  /** The most a training document can score: every query token's share
      below 1, weighted. */
  function ScoreCeiling(test: Doc): real {
    SimScore(|QuerySet(test.title)| as real, |QuerySet(test.content)| as real, |QuerySet(test.desc)| as real)
  }

  /** Each training document scores at least 0 and below the ceiling, and
      strictly above 0 once the test document has a token. */
  lemma DocScoreBounds(test: Doc, d: Doc)
    ensures 0.0 <= DocScore(test, d) <= ScoreCeiling(test)
    ensures |test.title| + |test.content| + |test.desc| > 0 ==> 0.0 < DocScore(test, d) < ScoreCeiling(test)
  {
    FieldSimBounds(QuerySet(test.title), d.title);
    FieldSimBounds(QuerySet(test.content), d.content);
    FieldSimBounds(QuerySet(test.desc), d.desc);
    if |test.title| > 0 {
      assert test.title[0] in QuerySet(test.title);
    }
    if |test.content| > 0 {
      assert test.content[0] in QuerySet(test.content);
    }
    if |test.desc| > 0 {
      assert test.desc[0] in QuerySet(test.desc);
    }
  }

  // ---------------------------------------------------------------------------
  // Label tokens

  function LowerAll(ws: seq<string>): (r: seq<string>)
    ensures |r| == |ws| && forall i :: 0 <= i < |ws| ==> r[i] == ToLower(ws[i])
  {
    seq(|ws|, i requires 0 <= i < |ws| => ToLower(ws[i]))
  }

  /** The lower-cased `':/` pieces of every value: audienceVocabSet and
      subjectVocabSet. */
  function LabelTokens(values: seq<string>): set<string>
    decreases |values|
  {
    if |values| == 0 then {} else Elements(LowerAll(LabelPieces(values[0]))) + LabelTokens(values[1..])
  }

  /** The label tokens of `values` not in `acc` appended to it, in the order
      they are first met. */
  function TokensFrom(acc: seq<string>, values: seq<string>): (r: seq<string>)
    requires Distinct(acc)
    ensures Distinct(r)
    ensures forall u :: u in r <==> u in acc || u in LabelTokens(values)
    decreases |values|
  {
    if |values| == 0 then acc
    else TokensFrom(AddNew(acc, LowerAll(LabelPieces(values[0]))), values[1..])
  }

  /** One listing of a document's label set. */
  function TokenList(values: seq<string>): (r: seq<string>)
    ensures Distinct(r)
    ensures forall u :: u in r <==> u in LabelTokens(values)
  {
    TokensFrom([], values)
  }

  /** The score added for each listed token: once per token of a listing
      without repeats. */
  lemma {:induction false} OccurrencesOnce(order: seq<string>, u: string, s: real)
    requires Distinct(order)
    ensures Occurrences(order, u, s) == if u in order then s else 0.0
    decreases |order|
  {
    if |order| > 0 {
      assert Distinct(order[1..]) by {
        assert forall i :: 0 <= i < |order| - 1 ==> order[1..][i] == order[i + 1];
      }
      OccurrencesOnce(order[1..], u, s);
      assert forall v :: v in order[1..] ==> v != order[0] by {
        forall v | v in order[1..] ensures v != order[0] {
          var i :| 0 <= i < |order[1..]| && order[1..][i] == v;
          assert order[i + 1] == v;
        }
      }
      assert forall v :: v in order <==> v == order[0] || v in order[1..] by {
        ElementsCons(order);
      }
    }
  }

  /** One training document's vote: every token of its label set gains the
      document's score exactly once, and nothing else changes. */
  function Vote(scores: map<string, real>, values: seq<string>, s: real): (r: map<string, real>)
    ensures r.Keys == scores.Keys + LabelTokens(values)
    ensures forall u :: Get(r, u) == Get(scores, u) + (if u in LabelTokens(values) then s else 0.0)
  {
    var order := TokenList(values);
    var r := CreditAll(scores, order, s);
    assert Elements(order) == LabelTokens(values);
    assert forall u :: Get(r, u) == Get(scores, u) + (if u in LabelTokens(values) then s else 0.0) by {
      forall u ensures Get(r, u) == Get(scores, u) + (if u in LabelTokens(values) then s else 0.0) {
        CreditAllWeight(scores, order, s, u);
        OccurrencesOnce(order, u, s);
      }
    }
    r
  }

  /** The HashSet's order is irrelevant: crediting any listing of the label
      set without repeats gives the same map. */
  lemma VoteOrderFree(scores: map<string, real>, order: seq<string>, values: seq<string>, s: real)
    requires Distinct(order) && forall u :: u in order <==> u in LabelTokens(values)
    ensures CreditAll(scores, order, s) == Vote(scores, values, s)
  {
    var r1 := CreditAll(scores, order, s);
    var r2 := Vote(scores, values, s);
    assert r1.Keys == r2.Keys by {
      assert Elements(order) == LabelTokens(values);
    }
    forall u | u in r1 ensures r1[u] == r2[u] {
      VoteAt(scores, order, values, s, u);
    }
  }

  lemma VoteAt(scores: map<string, real>, order: seq<string>, values: seq<string>, s: real, u: string)
    requires Distinct(order) && (u in order <==> u in LabelTokens(values))
    ensures Get(CreditAll(scores, order, s), u) == Get(Vote(scores, values, s), u)
  {
    CreditAllWeight(scores, order, s, u);
    OccurrencesOnce(order, u, s);
  }

  // ---------------------------------------------------------------------------
  // The pass over the training documents

  /** Reference: the total a token collects, the score of every training
      document whose label set holds it. */
  function Support(test: Doc, train: seq<Doc>, f: LabelField, u: string): real
    decreases |train|
  {
    if |train| == 0 then 0.0
    else (if u in LabelTokens(ValuesOf(train[0], f)) then DocScore(test, train[0]) else 0.0)
         + Support(test, train[1..], f, u)
  }

  /** The tokens some training document carries. */
  function AllLabelTokens(train: seq<Doc>, f: LabelField): set<string>
    decreases |train|
  {
    if |train| == 0 then {} else LabelTokens(ValuesOf(train[0], f)) + AllLabelTokens(train[1..], f)
  }

  /** The vocabulary score map of one label field after the training
      documents `train`, starting from `scores`. */
  function VoteAll(scores: map<string, real>, test: Doc, train: seq<Doc>, f: LabelField): (r: map<string, real>)
    ensures r.Keys == scores.Keys + AllLabelTokens(train, f)
    ensures forall u :: Get(r, u) == Get(scores, u) + Support(test, train, f, u)
    decreases |train|
  {
    if |train| == 0 then scores
    else VoteAll(Vote(scores, ValuesOf(train[0], f), DocScore(test, train[0])), test, train[1..], f)
  }

  /** What one call computes: the score it returns, and the audience and
      subject vocabulary scores it builds. */
  datatype KernelRun = KernelRun(score: real, audience: map<string, real>, subject: map<string, real>)

  /** calculateDeltaKernelScore for one test document against the training
      documents in training-list order. */
  function DeltaKernelScore(test: Doc, train: seq<Doc>): (r: KernelRun)
    ensures r.score == 0.0
    ensures r.audience.Keys == AllLabelTokens(train, Audience)
    ensures r.subject.Keys == AllLabelTokens(train, Subject)
    ensures forall u :: Get(r.audience, u) == Support(test, train, Audience, u)
    ensures forall u :: Get(r.subject, u) == Support(test, train, Subject, u)
  {
    KernelRun(0.0, VoteAll(map[], test, train, Audience), VoteAll(map[], test, train, Subject))
  }

  /** Every token's vocabulary score is a sum of document scores, so it is
      non-negative. */
  lemma {:induction false} SupportNonNegative(test: Doc, train: seq<Doc>, f: LabelField, u: string)
    ensures Support(test, train, f, u) >= 0.0
    ensures u !in AllLabelTokens(train, f) ==> Support(test, train, f, u) == 0.0
    decreases |train|
  {
    if |train| > 0 {
      DocScoreBounds(test, train[0]);
      SupportNonNegative(test, train[1..], f, u);
    }
  }

  /** main: the first five test documents are scored, in test-list order,
      each against every training document. */
  function ScoreFirstTests(tests: seq<Doc>, train: seq<Doc>): (runs: seq<KernelRun>)
    ensures |runs| == if |tests| < TestsScored then |tests| else TestsScored
    ensures forall k :: 0 <= k < |runs| ==> runs[k].score == 0.0
    ensures forall k, u :: 0 <= k < |runs| ==> Get(runs[k].subject, u) == Support(tests[k], train, Subject, u)
  {
    var n := if |tests| < TestsScored then |tests| else TestsScored;
    seq(n, k requires 0 <= k < n => DeltaKernelScore(tests[k], train))
  }

  // ---------------------------------------------------------------------------
  // The other scorers

  /** calculatePCScore: a stub. */
  function PCScore(r: string, w: string): (s: real)
    ensures s == 0.0
  {
    0.0
  }

  /** calculateDirichletKernelScore: a stub. */
  function DirichletKernelScore(r: string, w: string): (s: real)
    ensures s == 0.0
  {
    0.0
  }
}
