/** The trunk snapshot's StructuredRelevanceModel.computePriors: one pass over
    the vocabulary of a field of the global index, which multiplies, for every
    (test document q, training document md), the term's estimate for md when
    q holds the term and its complement when it does not, into a map keyed by
    the pair.

    The code as written differs from that description in three ways, each
    modelled as written and next to its correction:
    - the map is a TreeMap over DocPair, which is not Comparable, so the first
      lookup throws ClassCastException (ComputePriorsAsWritten);
    - the complement is taken by assigning `val = 1.0 - val`, so every test
      document lacking the term flips the estimate for all later test
      documents of the same training document (RowAsWritten);
    - compute_avgs assigns to its parameters, which Java passes by value, so
      the estimate always sees pavg = meanfreq = collectionFreq = 0
      (EstimateAsWritten).
    The sets of document ids are given as the order their HashSet hands them
    out; every result here is independent of that order except the flip.
 */
module TrunkRelevanceModel {
  import opened Wrappers
  import opened Text
  import opened TermIndex
  import opened Estimator
  import opened Ranking

  /** The model: per (test document, training document) pair, the factors
      multiplied into its entry so far, in order.  The entry's value is
      their product (Value). */
  type Model = map<(nat, nat), seq<real>>

  function Factors(m: Model, q: nat, md: nat): seq<real> {
    if (q, md) in m then m[(q, md)] else []
  }

  /** The left-to-right product; the empty product is the 1.0 a missing
      entry starts from. */
  function Product(xs: seq<real>): real
    decreases |xs|
  {
    if |xs| == 0 then 1.0 else Product(xs[..|xs| - 1]) * xs[|xs| - 1]
  }

  /** model.get(q, md), a missing entry reading as 1.0. */
  function Value(m: Model, q: nat, md: nat): real {
    Product(Factors(m, q, md))
  }

  /** prob = prob * f; model.put(dp, prob) for the pair (q, md). */
  function Times(m: Model, q: nat, md: nat, f: real): (r: Model)
    ensures Factors(r, q, md) == Factors(m, q, md) + [f]
    ensures forall q': nat, d': nat :: (q', d') != (q, md) ==> Factors(r, q', d') == Factors(m, q', d')
    ensures r.Keys == m.Keys + {(q, md)}
  {
    m[(q, md) := Factors(m, q, md) + [f]]
  }

  /** Multiplying an entry by f multiplies its value by f. */
  lemma TimesValue(m: Model, q: nat, md: nat, f: real)
    ensures Value(Times(m, q, md, f), q, md) == Value(m, q, md) * f
  {
    var xs := Factors(m, q, md);
    assert (xs + [f])[..|xs|] == xs;
  }

  /** A term's factor for one pair: its estimate when the test document holds
      the term, the complement when it does not. */
  function Factor(v: real, present: bool): real {
    if present then v else 1.0 - v
  }

  // ---------------------------------------------------------------------------
  // The update of one training document for one term

  /** The tail of a repetition-free sequence is repetition-free and lacks its head. */
  lemma DistinctTail<T>(xs: seq<T>)
    requires Distinct(xs) && |xs| > 0
    ensures Distinct(xs[1..]) && xs[0] !in xs[1..]
    ensures forall x :: x in xs <==> x == xs[0] || x in xs[1..]
  {
    forall i, j | 0 <= i < |xs[1..]| && 0 <= j < |xs[1..]| && i != j
      ensures xs[1..][i] != xs[1..][j]
    {
      assert xs[1..][i] == xs[i + 1] && xs[1..][j] == xs[j + 1];
    }
    forall i | 0 <= i < |xs[1..]| ensures xs[1..][i] != xs[0] {
      assert xs[1..][i] == xs[i + 1];
    }
  }

  /** Multiplies the entry of (tests[k], md) by fs[k], for every k. */
  function RowWith(m: Model, md: nat, tests: seq<nat>, fs: seq<real>): (r: Model)
    requires Distinct(tests) && |fs| == |tests|
    ensures forall k :: 0 <= k < |tests| ==> Factors(r, tests[k], md) == Factors(m, tests[k], md) + [fs[k]]
    ensures forall q: nat, d: nat :: d != md || q !in tests ==> Factors(r, q, d) == Factors(m, q, d)
    ensures forall p :: p in r ==> p in m || (p.1 == md && p.0 in tests)
    decreases |tests|
  {
    if |tests| == 0 then m
    else
      var m' := Times(m, tests[0], md, fs[0]);
      DistinctTail(tests);
      var r := RowWith(m', md, tests[1..], fs[1..]);
      assert forall k :: 0 <= k < |tests| ==> Factors(r, tests[k], md) == Factors(m, tests[k], md) + [fs[k]] by {
        forall k | 0 <= k < |tests| ensures Factors(r, tests[k], md) == Factors(m, tests[k], md) + [fs[k]] {
          if k > 0 {
            assert tests[1..][k - 1] == tests[k] && fs[1..][k - 1] == fs[k];
            assert tests[k] != tests[0];
          }
        }
      }
      r
  }

  /** The intended factors: each test document's own factor of the estimate. */
  function RowFactors(val: real, docs: set<nat>, tests: seq<nat>): (fs: seq<real>)
    ensures |fs| == |tests|
    ensures forall k :: 0 <= k < |tests| ==> fs[k] == Factor(val, tests[k] in docs)
  {
    seq(|tests|, k requires 0 <= k < |tests| => Factor(val, tests[k] in docs))
  }

  /** The inner loop over the test documents for training document md with
      the complement taken per test document. */
  function Row(m: Model, md: nat, val: real, docs: set<nat>, tests: seq<nat>): (r: Model)
    requires Distinct(tests)
    ensures forall k :: 0 <= k < |tests| ==> Factors(r, tests[k], md) == Factors(m, tests[k], md) + [Factor(val, tests[k] in docs)]
    ensures forall q: nat, d: nat :: d != md || q !in tests ==> Factors(r, q, d) == Factors(m, q, d)
    ensures forall p :: p in r ==> p in m || (p.1 == md && p.0 in tests)
  {
    RowWith(m, md, tests, RowFactors(val, docs, tests))
  }

  /** The inner loop as written: a test document lacking the term replaces
      `val` by its complement, and later test documents see the replaced
      value. */
  function RowAsWritten(m: Model, md: nat, val: real, docs: set<nat>, tests: seq<nat>): Model
    decreases |tests|
  {
    if |tests| == 0 then m
    else
      var q := tests[0];
      var v := if q in docs then val else 1.0 - val;
      RowAsWritten(Times(m, q, md, v), md, v, docs, tests[1..])
  }

  /** The factors the as-written loop multiplies in, one per test document:
      each is the factor of the estimate as the documents before left it. */
  function AsWrittenFactors(val: real, docs: set<nat>, tests: seq<nat>): (fs: seq<real>)
    ensures |fs| == |tests|
    decreases |tests|
  {
    if |tests| == 0 then []
    else
      var v := Factor(val, tests[0] in docs);
      [v] + AsWrittenFactors(v, docs, tests[1..])
  }

  /** The as-written loop is the loop that multiplies those factors in. */
  lemma {:induction false} RowAsWrittenFactors(m: Model, md: nat, val: real, docs: set<nat>, tests: seq<nat>)
    requires Distinct(tests)
    ensures RowAsWritten(m, md, val, docs, tests) == RowWith(m, md, tests, AsWrittenFactors(val, docs, tests))
    decreases |tests|
  {
    if |tests| > 0 {
      var v := Factor(val, tests[0] in docs);
      DistinctTail(tests);
      RowAsWrittenFactors(Times(m, tests[0], md, v), md, v, docs, tests[1..]);
      assert AsWrittenFactors(val, docs, tests)[1..] == AsWrittenFactors(v, docs, tests[1..]);
    }
  }

  /** The number of documents of qs lacking the term. */
  function Lacking(docs: set<nat>, qs: seq<nat>): nat
    decreases |qs|
  {
    if |qs| == 0 then 0 else (if qs[0] in docs then 0 else 1) + Lacking(docs, qs[1..])
  }

  /** Each test document lacking the term complements the estimate for every
      later one: the k-th factor is the intended one after an even number of
      such documents, and its complement after an odd number. */
  lemma {:induction false} AsWrittenFactorParity(val: real, docs: set<nat>, tests: seq<nat>, k: nat)
    requires k < |tests|
    ensures AsWrittenFactors(val, docs, tests)[k] ==
      if Lacking(docs, tests[..k]) % 2 == 0 then Factor(val, tests[k] in docs) else 1.0 - Factor(val, tests[k] in docs)
    decreases |tests|
  {
    if k > 0 {
      var v := Factor(val, tests[0] in docs);
      AsWrittenFactorParity(v, docs, tests[1..], k - 1);
      assert tests[1..][k - 1] == tests[k];
      assert tests[..k][1..] == tests[1..][..k - 1];
      assert AsWrittenFactors(val, docs, tests)[k] == AsWrittenFactors(v, docs, tests[1..])[k - 1];
    }
  }

  /** As written, the k-th test document's entry receives the intended
      factor when an even number of the test documents before it lack the
      term, and the complement of the intended factor otherwise. */
  lemma RowAsWrittenParity(m: Model, md: nat, val: real, docs: set<nat>, tests: seq<nat>, k: nat)
    requires Distinct(tests) && k < |tests|
    ensures Factors(RowAsWritten(m, md, val, docs, tests), tests[k], md) ==
      Factors(m, tests[k], md) + [if Lacking(docs, tests[..k]) % 2 == 0 then Factor(val, tests[k] in docs)
                                  else 1.0 - Factor(val, tests[k] in docs)]
  {
    RowAsWrittenFactors(m, md, val, docs, tests);
    AsWrittenFactorParity(val, docs, tests, k);
  }

  /** When every test document holds the term, the as-written loop is the
      intended one. */
  lemma {:induction false} RowAsWrittenAllPresent(m: Model, md: nat, val: real, docs: set<nat>, tests: seq<nat>)
    requires Distinct(tests)
    requires forall k :: 0 <= k < |tests| ==> tests[k] in docs
    ensures RowAsWritten(m, md, val, docs, tests) == Row(m, md, val, docs, tests)
    decreases |tests|
  {
    if |tests| > 0 {
      DistinctTail(tests);
      assert forall k :: 0 <= k < |tests[1..]| ==> tests[1..][k] == tests[k + 1];
      RowAsWrittenAllPresent(Times(m, tests[0], md, val), md, val, docs, tests[1..]);
      assert RowFactors(val, docs, tests)[1..] == RowFactors(val, docs, tests[1..]);
    }
  }

  /** Two test documents, neither holding the term, and the estimate 0.25 for
      the one training document: as written the second entry becomes 0.25,
      the intended value is 0.75. */
  lemma FlipCounterexample()
    ensures Value(RowAsWritten(map[], 0, 0.25, {}, [0, 1]), 1, 0) == 0.25
    ensures Value(Row(map[], 0, 0.25, {}, [0, 1]), 1, 0) == 0.75
  {
    FlipOnSecond(map[], 0, 0.25, {}, 0, 1);
    SingleFactor(0.25);
    SingleFactor(0.75);
  }

  /** The second of two test documents lacking the term: as written its
      factor is the estimate itself, intended is the complement. */
  lemma FlipOnSecond(m: Model, md: nat, val: real, docs: set<nat>, q0: nat, q1: nat)
    requires q0 != q1 && q0 !in docs && q1 !in docs && (q1, md) !in m
    ensures Factors(RowAsWritten(m, md, val, docs, [q0, q1]), q1, md) == [val]
    ensures Factors(Row(m, md, val, docs, [q0, q1]), q1, md) == [1.0 - val]
  {
    var m1 := Times(m, q0, md, 1.0 - val);
    assert [q0, q1][1..] == [q1] && [q1][1..] == [];
    assert RowAsWritten(m, md, val, docs, [q0, q1]) == RowAsWritten(m1, md, 1.0 - val, docs, [q1]);
    assert RowAsWritten(m1, md, 1.0 - val, docs, [q1]) == Times(m1, q1, md, 1.0 - (1.0 - val));
    assert Distinct([q0, q1]);
    assert [q0, q1][1] == q1;
  }

  lemma SingleFactor(x: real)
    ensures Product([x]) == x
  {
    assert [x][..0] == [];
  }

  // ---------------------------------------------------------------------------
  // The update of every pair for one term, and the pass over the terms

  /** The loop over the training documents for one term: each training
      document's row, with the term's estimate for it. */
  function Update(m: Model, mle: map<nat, real>, docs: set<nat>, models: seq<nat>, tests: seq<nat>): (r: Model)
    requires Distinct(models) && Distinct(tests)
    requires forall j :: 0 <= j < |models| ==> models[j] in mle
    ensures Updated(r, m, mle, docs, models, tests)
    decreases |models|
  {
    if |models| == 0 then m
    else
      DistinctTail(models);
      var r := Update(Row(m, models[0], mle[models[0]], docs, tests), mle, docs, models[1..], tests);
      UpdateStep(r, m, mle, docs, models, tests);
      r
  }

  /** r is m with one factor of the term multiplied into every (test,
      training) pair: the estimate for the training document when the test
      document holds the term, its complement when it does not; every other
      pair is left alone. */
  ghost predicate Updated(r: Model, m: Model, mle: map<nat, real>, docs: set<nat>, models: seq<nat>, tests: seq<nat>)
    requires forall j :: 0 <= j < |models| ==> models[j] in mle
  {
    && (forall j, k :: 0 <= j < |models| && 0 <= k < |tests| ==>
         Factors(r, tests[k], models[j]) == Factors(m, tests[k], models[j]) + [Factor(mle[models[j]], tests[k] in docs)])
    && (forall q: nat, d: nat :: q !in tests || d !in models ==> Factors(r, q, d) == Factors(m, q, d))
    && (forall p :: p in r ==> p in m || (p.0 in tests && p.1 in models))
  }

  /** The first training document's row, then the others. */
  lemma UpdateStep(r: Model, m: Model, mle: map<nat, real>, docs: set<nat>, models: seq<nat>, tests: seq<nat>)
    requires Distinct(models) && Distinct(tests) && |models| > 0
    requires forall j :: 0 <= j < |models| ==> models[j] in mle
    requires Distinct(models[1..]) && models[0] !in models[1..]
    requires forall x :: x in models <==> x == models[0] || x in models[1..]
    requires Updated(r, Row(m, models[0], mle[models[0]], docs, tests), mle, docs, models[1..], tests)
    ensures Updated(r, m, mle, docs, models, tests)
  {
    var m1 := Row(m, models[0], mle[models[0]], docs, tests);
    forall j, k | 0 <= j < |models| && 0 <= k < |tests|
      ensures Factors(r, tests[k], models[j]) == Factors(m, tests[k], models[j]) + [Factor(mle[models[j]], tests[k] in docs)]
    {
      if j > 0 {
        assert models[1..][j - 1] == models[j];
        assert models[j] != models[0];
      }
    }
  }

  /** What the pass over the vocabulary keeps of one term: its estimate for
      every training document and the documents holding it. */
  datatype TermEvidence = TermEvidence(mle: map<nat, real>, docs: set<nat>)

  ghost predicate Covers(evs: seq<TermEvidence>, models: seq<nat>) {
    forall k, j :: 0 <= k < |evs| && 0 <= j < |models| ==> models[j] in evs[k].mle
  }

  /** The factors of every term, in vocabulary order, for the pair (q, md). */
  function TermFactors(evs: seq<TermEvidence>, q: nat, md: nat): (fs: seq<real>)
    requires forall k :: 0 <= k < |evs| ==> md in evs[k].mle
    ensures |fs| == |evs|
    ensures forall k :: 0 <= k < |evs| ==> fs[k] == Factor(evs[k].mle[md], q in evs[k].docs)
    decreases |evs|
  {
    if |evs| == 0 then []
    else [Factor(evs[0].mle[md], q in evs[0].docs)] + TermFactors(evs[1..], q, md)
  }

  lemma CoversTail(evs: seq<TermEvidence>, models: seq<nat>)
    requires Covers(evs, models) && |evs| > 0
    ensures Covers(evs[1..], models)
    ensures forall j :: 0 <= j < |models| ==> models[j] in evs[0].mle
  {
    assert forall k :: 0 <= k < |evs[1..]| ==> evs[1..][k] == evs[k + 1];
  }

  /** One term's factor followed by the other terms' factors. */
  lemma FoldStep(xs: seq<real>, ys: seq<real>, zs: seq<real>, evs: seq<TermEvidence>, q: nat, md: nat)
    requires |evs| > 0 && forall k :: 0 <= k < |evs| ==> md in evs[k].mle
    requires ys == xs + [Factor(evs[0].mle[md], q in evs[0].docs)]
    requires zs == ys + TermFactors(evs[1..], q, md)
    ensures zs == xs + TermFactors(evs, q, md)
  {
    TermFactorsCons(evs, q, md);
    ConcatAssoc(xs, [Factor(evs[0].mle[md], q in evs[0].docs)], TermFactors(evs[1..], q, md));
  }

  lemma TermFactorsCons(evs: seq<TermEvidence>, q: nat, md: nat)
    requires |evs| > 0 && forall k :: 0 <= k < |evs| ==> md in evs[k].mle
    ensures TermFactors(evs, q, md) == [Factor(evs[0].mle[md], q in evs[0].docs)] + TermFactors(evs[1..], q, md)
  {
  }

  lemma ConcatAssoc<T>(a: seq<T>, b: seq<T>, c: seq<T>)
    ensures (a + b) + c == a + (b + c)
  {
  }

  /** The outer loop over the terms. */
  function FoldTerms(m: Model, evs: seq<TermEvidence>, models: seq<nat>, tests: seq<nat>): (r: Model)
    requires Distinct(models) && Distinct(tests) && Covers(evs, models)
    ensures forall j, k :: 0 <= j < |models| && 0 <= k < |tests| ==>
      Factors(r, tests[k], models[j]) == Factors(m, tests[k], models[j]) + TermFactors(evs, tests[k], models[j])
    ensures forall q: nat, d: nat :: q !in tests || d !in models ==> Factors(r, q, d) == Factors(m, q, d)
    ensures forall p :: p in r ==> p in m || (p.0 in tests && p.1 in models)
    decreases |evs|
  {
    if |evs| == 0 then m
    else
      CoversTail(evs, models);
      var m' := Update(m, evs[0].mle, evs[0].docs, models, tests);
      var r := FoldTerms(m', evs[1..], models, tests);
      forall j, k | 0 <= j < |models| && 0 <= k < |tests|
        ensures Factors(r, tests[k], models[j]) == Factors(m, tests[k], models[j]) + TermFactors(evs, tests[k], models[j])
      {
        FoldStep(Factors(m, tests[k], models[j]), Factors(m', tests[k], models[j]), Factors(r, tests[k], models[j]), evs, tests[k], models[j]);
      }
      r
  }

  // ---------------------------------------------------------------------------
  // Document lengths, averages and the estimate

  /** The field whose term vectors give the document lengths. */
  const Title: string := "title"

  /** doc_length: the number of distinct terms of each training document's
      title vector; a document without one dereferences null.  Java loops over
      the class field trainDocIds rather than the modelDocIds parameter; the
      only call (predictAudience) passes trainDocIds for it, so both
      are `models` here. */
  function DocLengths(ix: Index, models: seq<nat>): (r: Outcome<map<nat, nat>>)
    requires forall k :: 0 <= k < |models| ==> models[k] < |ix.vectors|
    ensures r.Ok? <==> forall k :: 0 <= k < |models| ==> VectorOf(ix, models[k], Title).Some?
    ensures r.Fail? ==> r.fault == NullDereference
    ensures r.Ok? ==> forall d :: d in r.value <==> d in models
    ensures r.Ok? ==> forall k :: 0 <= k < |models| ==> r.value[models[k]] == DistinctTermCount(ix, models[k], Title)
    decreases |models|
  {
    if |models| == 0 then Ok(map[])
    else if VectorOf(ix, models[0], Title).None? then Fail(NullDereference)
    else
      assert forall k :: 1 <= k < |models| ==> models[k] == models[1..][k - 1];
      var rest :- DocLengths(ix, models[1..]);
      Ok(rest[models[0] := DistinctTermCount(ix, models[0], Title)])
  }

  /** collectionSize as counted here: the number of admissible terms of the
      field, not their occurrences. */
  function TermCount(ix: Index, field: string): nat {
    |Vocabulary(ix, field)|
  }

  /** The postings of the training documents, in posting order. */
  function InModel(ps: seq<Posting>, models: seq<nat>): (r: seq<Posting>)
    ensures |r| <= |ps|
    ensures forall p :: p in r <==> p in ps && p.doc in models
    decreases |ps|
  {
    if |ps| == 0 then []
    else (if ps[0].doc in models then [ps[0]] else []) + InModel(ps[1..], models)
  }

  lemma InModelWithin(ps: seq<Posting>, models: seq<nat>, n: nat)
    requires PostingsWithin(ps, n)
    ensures PostingsWithin(InModel(ps, models), n)
  {
    var r := InModel(ps, models);
    forall k | 0 <= k < |r| ensures r[k].doc < n {
      assert r[k] in ps;
    }
  }

  /** The document length of one vector, as compute_avgs reads it: a missing
      vector dereferences null. */
  function VectorLength(ix: Index, d: nat, field: string): (r: Outcome<nat>)
    requires d < |ix.vectors|
    ensures r.Ok? <==> VectorOf(ix, d, field).Some?
    ensures r.Fail? ==> r.fault == NullDereference
    ensures r.Ok? ==> r.value == DistinctTermCount(ix, d, field)
  {
    match VectorOf(ix, d, field)
    case None => Fail(NullDereference)
    case Some(v) => Ok(|v|)
  }

  /** Every posting document has a vector for the field. */
  ghost predicate HasVectors(ix: Index, ps: seq<Posting>, field: string)
    requires PostingsWithin(ps, |ix.vectors|)
  {
    forall k :: 0 <= k < |ps| ==> VectorOf(ix, ps[k].doc, field).Some?
  }

  /** Every posting document has a non-empty vector for the field. */
  ghost predicate HasLengths(ix: Index, ps: seq<Posting>, field: string)
    requires PostingsWithin(ps, |ix.vectors|)
  {
    forall k :: 0 <= k < |ps| ==> DistinctTermCount(ix, ps[k].doc, field) > 0
  }

  lemma WithinTail(ps: seq<Posting>, n: nat)
    requires PostingsWithin(ps, n) && |ps| > 0
    ensures PostingsWithin(ps[1..], n) && ps[0].doc < n
    ensures forall k :: 1 <= k < |ps| ==> ps[k] == ps[1..][k - 1]
  {
  }

  /** The sum of tf / dl over the postings; a missing vector dereferences
      null, an empty one divides by zero. */
  function PmlTotal(ix: Index, ps: seq<Posting>, field: string): (r: Outcome<real>)
    requires PostingsWithin(ps, |ix.vectors|)
    ensures r.Ok? <==> HasLengths(ix, ps, field)
    ensures r.Fail? ==> r.fault == NullDereference || r.fault == NonFinite
    ensures r.Fail? && r.fault == NullDereference ==> !HasVectors(ix, ps, field)
    ensures r.Ok? ==> r.value >= 0.0
    decreases |ps|
  {
    if |ps| == 0 then Ok(0.0)
    else
      WithinTail(ps, |ix.vectors|);
      var dl :- VectorLength(ix, ps[0].doc, field);
      if dl == 0 then Fail(NonFinite)
      else
        var rest :- PmlTotal(ix, ps[1..], field);
        Ok(ps[0].freq as real / dl as real + rest)
  }

  /** compute_avgs with its results returned: pavg is the mean of tf / dl and
      meanfreq the mean of tf over the training documents' postings, and
      collectionFreq their total tf.  Without such postings the means are
      0 / 0; nothing reads them then, and they are given as 0. */
  function Avgs(ix: Index, ps: seq<Posting>, field: string): (r: Outcome<Averages>)
    requires PostingsWithin(ps, |ix.vectors|)
    ensures r.Ok? <==> HasLengths(ix, ps, field)
    ensures r.Fail? ==> r.fault == NullDereference || r.fault == NonFinite
    ensures r.Fail? && r.fault == NullDereference ==> !HasVectors(ix, ps, field)
    ensures r.Ok? ==> r.value.collectionFreq == SumFreq(ps)
    ensures r.Ok? ==> r.value.meanfreq * |ps| as real == SumFreq(ps) as real
    ensures r.Ok? ==> r.value.pavg * |ps| as real == PmlTotal(ix, ps, field).value
    ensures r.Ok? ==> r.value.pavg >= 0.0 && r.value.meanfreq >= 0.0
    ensures r.Ok? && SumFreq(ps) > 0 ==> r.value.meanfreq > 0.0
  {
    if |ps| == 0 then Ok(Averages(0.0, 0.0, 0))
    else
      var total :- PmlTotal(ix, ps, field);
      var n := |ps|;
      var pavg := Mean(total, n);
      var meanfreq := Mean(SumFreq(ps) as real, n);
      Ok(Averages(pavg, meanfreq, SumFreq(ps)))
  }

  /** x over a positive count n. */
  function Mean(x: real, n: nat): (m: real)
    requires n > 0
    ensures m * n as real == x
    ensures x >= 0.0 ==> m >= 0.0
    ensures x > 0.0 ==> m > 0.0
  {
    x / n as real
  }

  /** compute_avgs as written: it reads every vector, so a missing one still
      dereferences null, but the values it computes are assigned to its own
      parameters and never reach the caller, whose zeros are returned. */
  function AvgsAsWritten(ix: Index, ps: seq<Posting>, field: string): (r: Outcome<Averages>)
    requires PostingsWithin(ps, |ix.vectors|)
    ensures r.Ok? <==> HasVectors(ix, ps, field)
    ensures r.Fail? ==> r.fault == NullDereference
    ensures r.Ok? ==> r.value == Averages(0.0, 0.0, 0)
    decreases |ps|
  {
    if |ps| == 0 then Ok(Averages(0.0, 0.0, 0))
    else
      WithinTail(ps, |ix.vectors|);
      var _ :- VectorLength(ix, ps[0].doc, field);
      AvgsAsWritten(ix, ps[1..], field)
  }

  /** A corrected average succeeds only where the as-written one does. */
  lemma AvgsNeedVectors(ix: Index, ps: seq<Posting>, field: string)
    requires PostingsWithin(ps, |ix.vectors|)
    requires Avgs(ix, ps, field).Ok?
    ensures AvgsAsWritten(ix, ps, field).Ok?
  {
    forall k | 0 <= k < |ps| ensures VectorOf(ix, ps[k].doc, field).Some? {
      assert DistinctTermCount(ix, ps[k].doc, field) > 0;
    }
  }

  /** The frequency of the posting of d, 0 when d has none. */
  function FreqOf(ps: seq<Posting>, d: nat): (f: nat)
    ensures Ascending(ps) ==> forall k :: 0 <= k < |ps| && ps[k].doc == d ==> f == ps[k].freq
    decreases |ps|
  {
    if |ps| == 0 then 0
    else if ps[0].doc == d then ps[0].freq
    else
      assert Ascending(ps) ==> Ascending(ps[1..]);
      assert forall k :: 1 <= k < |ps| ==> ps[k] == ps[1..][k - 1];
      FreqOf(ps[1..], d)
  }

  /** The estimate of a posting document: pml^(1-R) * pavg^R with
      pml = tf / dl. */
  function PostingEstimate(pow: Pow, tf: nat, dl: nat, av: Averages): real
    requires dl > 0 && av.meanfreq >= 0.0
  {
    Smoothed(pow, tf as real / dl as real, av.pavg, ShrinkWeight(pow, av.meanfreq, tf))
  }

  /** Every training document with a posting has a non-zero length. */
  predicate Measurable(ps: seq<Posting>, models: seq<nat>, lens: map<nat, nat>)
    requires forall d :: d in models ==> d in lens
  {
    forall k :: 0 <= k < |ps| && ps[k].doc in models ==> lens[ps[k].doc] > 0
  }

  /** compute_mlestimate given the averages: the posting documents among the
      training documents get their smoothed estimate, the other training
      documents collectionFreq / collectionSize.  A zero length divides by
      zero. */
  function Estimate(pow: Pow, ps: seq<Posting>, models: seq<nat>, lens: map<nat, nat>, av: Averages, cs: nat): (r: Outcome<map<nat, real>>)
    requires cs > 0 && av.meanfreq >= 0.0
    requires forall d :: d in models ==> d in lens
    ensures r.Ok? <==> Measurable(ps, models, lens)
    ensures r.Fail? ==> r.fault == NonFinite
    ensures r.Ok? ==> forall d :: d in r.value <==> d in models
    ensures r.Ok? && Ascending(ps) ==> forall k :: 0 <= k < |ps| && ps[k].doc in models ==>
      r.value[ps[k].doc] == PostingEstimate(pow, ps[k].freq, lens[ps[k].doc], av)
    ensures r.Ok? ==> forall d :: d in models && d !in DocSet(ps) ==> r.value[d] == av.collectionFreq as real / cs as real
  {
    if !Measurable(ps, models, lens) then Fail(NonFinite)
    else
      var background := av.collectionFreq as real / cs as real;
      Ok(map d | d in models :: if d in DocSet(ps) then PostingEstimate(pow, FreqOf(ps, d), lens[d], av) else background)
  }

  // ---------------------------------------------------------------------------
  // computePriors

  /** One term's evidence, with the averages returned by compute_avgs. */
  function TermEvidenceFor(pow: Pow, ix: Index, field: string, models: seq<nat>, lens: map<nat, nat>, cs: nat, t: Term): (r: Outcome<TermEvidence>)
    requires WellFormed(ix) && cs > 0
    requires forall d :: d in models ==> d in lens
    ensures r.Ok? ==> (forall d :: d in r.value.mle <==> d in models) && r.value.docs == DocSet(PostingsOf(ix, t))
    ensures r.Fail? ==> r.fault == NullDereference || r.fault == NonFinite
  {
    var ps := PostingsOf(ix, t);
    InModelWithin(ps, models, |ix.vectors|);
    var av :- Avgs(ix, InModel(ps, models), field);
    var mle :- Estimate(pow, ps, models, lens, av, cs);
    Ok(TermEvidence(mle, DocSet(ps)))
  }

  /** The evidence of every term, each on its own. */
  function Outcomes(pow: Pow, ix: Index, field: string, models: seq<nat>, lens: map<nat, nat>, cs: nat, terms: seq<Term>): (outs: seq<Outcome<TermEvidence>>)
    requires WellFormed(ix) && (|terms| > 0 ==> cs > 0)
    requires forall d :: d in models ==> d in lens
    ensures |outs| == |terms|
    ensures forall k :: 0 <= k < |terms| ==> outs[k] == TermEvidenceFor(pow, ix, field, models, lens, cs, terms[k])
  {
    seq(|terms|, k requires 0 <= k < |terms| => TermEvidenceFor(pow, ix, field, models, lens, cs, terms[k]))
  }

  /** The evidence of every term, in order; the first failure stops the pass. */
  function Collect(pow: Pow, ix: Index, field: string, models: seq<nat>, lens: map<nat, nat>, cs: nat, terms: seq<Term>): (r: Outcome<seq<TermEvidence>>)
    requires WellFormed(ix) && (|terms| > 0 ==> cs > 0)
    requires forall d :: d in models ==> d in lens
    ensures r.Ok? <==> forall k :: 0 <= k < |terms| ==> TermEvidenceFor(pow, ix, field, models, lens, cs, terms[k]).Ok?
    ensures r.Fail? ==> r.fault == NullDereference || r.fault == NonFinite
    ensures r.Ok? ==> |r.value| == |terms| && Covers(r.value, models)
    ensures r.Ok? ==> forall k :: 0 <= k < |terms| ==> r.value[k] == TermEvidenceFor(pow, ix, field, models, lens, cs, terms[k]).value
  {
    Sequence(Outcomes(pow, ix, field, models, lens, cs, terms))
  }

  /** The document lengths, then the evidence of the vocabulary of the field. */
  function Evidence(pow: Pow, ix: Index, field: string, models: seq<nat>): (r: Outcome<seq<TermEvidence>>)
    requires WellFormed(ix)
    requires forall k :: 0 <= k < |models| ==> models[k] < ix.numDocs
    ensures r.Ok? ==> |r.value| == |Vocabulary(ix, field)| && Covers(r.value, models)
    ensures r.Ok? ==> forall k :: 0 <= k < |r.value| ==> r.value[k].docs == DocSet(PostingsOf(ix, Vocabulary(ix, field)[k]))
    ensures r.Fail? ==> r.fault == NullDereference || r.fault == NonFinite
  {
    var lens :- DocLengths(ix, models);
    Collect(pow, ix, field, models, lens, TermCount(ix, field), Vocabulary(ix, field))
  }

  /** computePriors with the three corrections: entries keyed by value, the
      complement taken per test document, and the averages returned.  The
      entry of every (test document, training document) pair holds one
      factor per term of the vocabulary, in vocabulary order: the term's
      estimate for the training document when the test document holds the
      term, its complement otherwise.  No other pair has an entry. */
  function ComputePriors(pow: Pow, ix: Index, field: string, models: seq<nat>, tests: seq<nat>): (r: Outcome<Model>)
    requires WellFormed(ix) && Distinct(models) && Distinct(tests)
    requires forall k :: 0 <= k < |models| ==> models[k] < ix.numDocs
    ensures r.Ok? <==> Evidence(pow, ix, field, models).Ok?
    ensures r.Fail? ==> r.fault == NullDereference || r.fault == NonFinite
    ensures r.Ok? ==> forall j, k :: 0 <= j < |models| && 0 <= k < |tests| ==>
      Factors(r.value, tests[k], models[j]) == TermFactors(Evidence(pow, ix, field, models).value, tests[k], models[j])
    ensures r.Ok? ==> forall q: nat, d: nat :: q !in tests || d !in models ==> Factors(r.value, q, d) == []
  {
    var evs :- Evidence(pow, ix, field, models);
    Ok(FoldTerms(map[], evs, models, tests))
  }

  // ---------------------------------------------------------------------------
  // computePriors as written

  /** compute_mlestimate as written: compute_avgs reads the vectors but the
      estimate sees pavg = meanfreq = collectionFreq = 0.  Then R = 0^tf, so
      every posting document gets its unsmoothed tf / dl, and every other
      training document 0 / collectionSize = 0. */
  function EstimateAsWritten(pow: Pow, ix: Index, field: string, models: seq<nat>, lens: map<nat, nat>, cs: nat, t: Term): (r: Outcome<map<nat, real>>)
    requires WellFormed(ix) && cs > 0
    requires forall d :: d in models ==> d in lens
    ensures r.Ok? <==> (InModelWithin(PostingsOf(ix, t), models, |ix.vectors|);
                        HasVectors(ix, InModel(PostingsOf(ix, t), models), field) && Measurable(PostingsOf(ix, t), models, lens))
    ensures r.Fail? ==> r.fault == NullDereference || r.fault == NonFinite
    ensures r.Ok? ==> forall d :: d in r.value <==> d in models
    ensures r.Ok? && JavaPow(pow) ==> forall k :: 0 <= k < |PostingsOf(ix, t)| && PostingsOf(ix, t)[k].doc in models ==>
      r.value[PostingsOf(ix, t)[k].doc] == PostingsOf(ix, t)[k].freq as real / lens[PostingsOf(ix, t)[k].doc] as real
    ensures r.Ok? ==> forall d :: d in models && d !in DocSet(PostingsOf(ix, t)) ==> r.value[d] == 0.0
  {
    var ps := PostingsOf(ix, t);
    InModelWithin(ps, models, |ix.vectors|);
    var av :- AvgsAsWritten(ix, InModel(ps, models), field);
    var r := Estimate(pow, ps, models, lens, av, cs);
    assert r.Ok? && JavaPow(pow) ==> forall k :: 0 <= k < |ps| && ps[k].doc in models ==>
      r.value[ps[k].doc] == ps[k].freq as real / lens[ps[k].doc] as real by {
      if r.Ok? && JavaPow(pow) {
        ZeroAveragesEstimate(pow, ps, models, lens, cs);
      }
    }
    ZeroBackground(pow, ps, models, lens, cs);
    r
  }

  lemma ZeroBackground(pow: Pow, ps: seq<Posting>, models: seq<nat>, lens: map<nat, nat>, cs: nat)
    requires cs > 0
    requires forall d :: d in models ==> d in lens
    ensures Estimate(pow, ps, models, lens, Averages(0.0, 0.0, 0), cs).Ok? ==>
      forall d :: d in models && d !in DocSet(ps) ==> Estimate(pow, ps, models, lens, Averages(0.0, 0.0, 0), cs).value[d] == 0.0
  {
    assert 0 as real / cs as real == 0.0;
  }

  lemma ZeroAveragesEstimate(pow: Pow, ps: seq<Posting>, models: seq<nat>, lens: map<nat, nat>, cs: nat)
    requires JavaPow(pow) && Ascending(ps) && cs > 0
    requires forall d :: d in models ==> d in lens
    requires Estimate(pow, ps, models, lens, Averages(0.0, 0.0, 0), cs).Ok?
    ensures forall k :: 0 <= k < |ps| && ps[k].doc in models ==>
      Estimate(pow, ps, models, lens, Averages(0.0, 0.0, 0), cs).value[ps[k].doc] == ps[k].freq as real / lens[ps[k].doc] as real
  {
    forall k | 0 <= k < |ps| && ps[k].doc in models
      ensures Estimate(pow, ps, models, lens, Averages(0.0, 0.0, 0), cs).value[ps[k].doc] == ps[k].freq as real / lens[ps[k].doc] as real
    {
      UnsmoothedEstimate(pow, ps[k].freq, lens[ps[k].doc]);
    }
  }

  /** With zero averages the estimate is tf / dl: R = 0^tf / 1 is 0 for
      tf > 0, leaving pml^1 * 0^0; for tf = 0 it is 1, leaving pml^0 * 0^1 = 0. */
  lemma UnsmoothedEstimate(pow: Pow, tf: nat, dl: nat)
    requires JavaPow(pow) && dl > 0
    ensures PostingEstimate(pow, tf, dl, Averages(0.0, 0.0, 0)) == tf as real / dl as real
  {
    var pml := tf as real / dl as real;
    assert 0.0 / (1.0 + 0.0) == 0.0;
    if tf > 0 {
      assert pow(0.0, tf as real) == 0.0;
      assert ShrinkWeight(pow, 0.0, tf) == 0.0;
      assert pow(pml, 1.0 - 0.0) == pml;
    } else {
      assert pow(0.0, tf as real) == 1.0;
      assert ShrinkWeight(pow, 0.0, tf) == 1.0;
      assert pow(0.0, 1.0) == 0.0;
      assert pml == 0.0;
    }
  }

  /** The pass over the terms as written.  Each term's estimate is computed;
      then, with a training and a test document, the first model.get on the
      TreeMap throws ClassCastException because DocPair is not Comparable.
      Without one the loops are empty and nothing is ever stored. */
  function TermsAsWritten(pow: Pow, ix: Index, field: string, models: seq<nat>, tests: seq<nat>, lens: map<nat, nat>, cs: nat, terms: seq<Term>): (r: Outcome<Model>)
    requires WellFormed(ix) && (|terms| > 0 ==> cs > 0)
    requires forall d :: d in models ==> d in lens
    ensures r.Ok? ==> r.value == map[]
    ensures r.Fail? ==> r.fault == NullDereference || r.fault == NonFinite || r.fault == ClassCast
    ensures |terms| > 0 && |models| > 0 && |tests| > 0 ==> r.Fail?
    ensures |terms| > 0 && |models| > 0 && |tests| > 0 && EstimateAsWritten(pow, ix, field, models, lens, cs, terms[0]).Ok? ==>
      r == Fail(ClassCast)
    decreases |terms|
  {
    if |terms| == 0 then Ok(map[])
    else
      var _ :- EstimateAsWritten(pow, ix, field, models, lens, cs, terms[0]);
      if |models| > 0 && |tests| > 0 then Fail(ClassCast)
      else TermsAsWritten(pow, ix, field, models, tests, lens, cs, terms[1..])
  }

  /** computePriors as written: the document lengths, then the pass over the
      vocabulary.  It never stores an entry, and with a term, a training
      document and a test document it always fails: a training document
      without a title vector dereferences null first, then the first term's
      estimate can fault, and otherwise the first model.get throws
      ClassCastException. */
  function ComputePriorsAsWritten(pow: Pow, ix: Index, field: string, models: seq<nat>, tests: seq<nat>): (r: Outcome<Model>)
    requires WellFormed(ix)
    requires forall k :: 0 <= k < |models| ==> models[k] < ix.numDocs
    ensures r.Ok? ==> r.value == map[]
    ensures r.Fail? ==> r.fault == NullDereference || r.fault == NonFinite || r.fault == ClassCast
    ensures |Vocabulary(ix, field)| > 0 && |models| > 0 && |tests| > 0 ==> r.Fail?
    ensures DocLengths(ix, models).Fail? ==> r == Fail(NullDereference)
    ensures (|Vocabulary(ix, field)| > 0 && |models| > 0 && |tests| > 0 && DocLengths(ix, models).Ok? &&
             EstimateAsWritten(pow, ix, field, models, DocLengths(ix, models).value, TermCount(ix, field), Vocabulary(ix, field)[0]).Ok?)
      ==> r == Fail(ClassCast)
  {
    var lens :- DocLengths(ix, models);
    TermsAsWritten(pow, ix, field, models, tests, lens, TermCount(ix, field), Vocabulary(ix, field))
  }

  /** Wherever the corrected computation succeeds on a non-empty vocabulary,
      training set and test set, the code as written throws
      ClassCastException. */
  lemma ClassCastWhereCorrectedSucceeds(pow: Pow, ix: Index, field: string, models: seq<nat>, tests: seq<nat>)
    requires WellFormed(ix) && Distinct(models) && Distinct(tests)
    requires forall k :: 0 <= k < |models| ==> models[k] < ix.numDocs
    requires |Vocabulary(ix, field)| > 0 && |models| > 0 && |tests| > 0
    requires ComputePriors(pow, ix, field, models, tests).Ok?
    ensures ComputePriorsAsWritten(pow, ix, field, models, tests) == Fail(ClassCast)
  {
    var lens := DocLengths(ix, models).value;
    var cs := TermCount(ix, field);
    var t := Vocabulary(ix, field)[0];
    var ev := TermEvidenceFor(pow, ix, field, models, lens, cs, t);
    assert Outcomes(pow, ix, field, models, lens, cs, Vocabulary(ix, field))[0] == ev;
    assert ev.Ok?;
    var ps := PostingsOf(ix, t);
    InModelWithin(ps, models, |ix.vectors|);
    AvgsNeedVectors(ix, InModel(ps, models), field);
    assert EstimateAsWritten(pow, ix, field, models, lens, cs, t).Ok?;
  }

  // ---------------------------------------------------------------------------
  // Properties of the corrected computation

  /** The evidence of a term is the estimate with the term's averages. */
  lemma EvidenceIsEstimate(pow: Pow, ix: Index, field: string, models: seq<nat>, lens: map<nat, nat>, cs: nat, t: Term)
    requires WellFormed(ix) && cs > 0
    requires forall d :: d in models ==> d in lens
    requires TermEvidenceFor(pow, ix, field, models, lens, cs, t).Ok?
    ensures (InModelWithin(PostingsOf(ix, t), models, |ix.vectors|);
      && Avgs(ix, InModel(PostingsOf(ix, t), models), field).Ok?
      && Estimate(pow, PostingsOf(ix, t), models, lens, Avgs(ix, InModel(PostingsOf(ix, t), models), field).value, cs).Ok?
      && TermEvidenceFor(pow, ix, field, models, lens, cs, t).value.mle ==
         Estimate(pow, PostingsOf(ix, t), models, lens, Avgs(ix, InModel(PostingsOf(ix, t), models), field).value, cs).value)
  {
    InModelWithin(PostingsOf(ix, t), models, |ix.vectors|);
  }

  /** With training documents holding the term, the returned averages smooth
      the estimate: every training document without the term gets the
      positive background rate, and every posting's weight R lies strictly
      between 0 and 1. */
  lemma SmoothedEstimate(pow: Pow, ix: Index, field: string, ps: seq<Posting>, models: seq<nat>, lens: map<nat, nat>, cs: nat)
    requires PostingsWithin(ps, |ix.vectors|) && cs > 0
    requires forall d :: d in models ==> d in lens
    requires (InModelWithin(ps, models, |ix.vectors|); Avgs(ix, InModel(ps, models), field).Ok?)
    requires SumFreq(InModel(ps, models)) > 0
    requires Estimate(pow, ps, models, lens, Avgs(ix, InModel(ps, models), field).value, cs).Ok?
    ensures forall d :: d in models && d !in DocSet(ps) ==>
      Estimate(pow, ps, models, lens, Avgs(ix, InModel(ps, models), field).value, cs).value[d] > 0.0
    ensures JavaPow(pow) ==>
      forall tf: nat :: 0.0 < ShrinkWeight(pow, Avgs(ix, InModel(ps, models), field).value.meanfreq, tf) < 1.0
  {
    var mine := InModel(ps, models);
    var av := Avgs(ix, mine, field).value;
    PositiveRate(SumFreq(mine), cs);
    if JavaPow(pow) {
      forall tf: nat ensures 0.0 < ShrinkWeight(pow, av.meanfreq, tf) < 1.0 {
        ShrinkWeightBounds(pow, av.meanfreq, tf);
      }
    }
  }

  lemma PositiveRate(cf: nat, cs: nat)
    requires cf > 0 && cs > 0
    ensures cf as real / cs as real > 0.0
  {
  }

  /** Estimates within [0, 1] keep every entry of the model within [0, 1]. */
  lemma PriorsAreProbabilities(pow: Pow, ix: Index, field: string, models: seq<nat>, tests: seq<nat>)
    requires WellFormed(ix) && Distinct(models) && Distinct(tests)
    requires forall k :: 0 <= k < |models| ==> models[k] < ix.numDocs
    requires ComputePriors(pow, ix, field, models, tests).Ok?
    requires Estimates(Evidence(pow, ix, field, models).value, models)
    ensures forall q: nat, d: nat :: 0.0 <= Value(ComputePriors(pow, ix, field, models, tests).value, q, d) <= 1.0
  {
    var evs := Evidence(pow, ix, field, models).value;
    assert ComputePriors(pow, ix, field, models, tests).value == FoldTerms(map[], evs, models, tests);
    FoldProbabilities(evs, models, tests);
  }

  /** Every estimate of every term for every training document lies in [0, 1]. */
  ghost predicate Estimates(evs: seq<TermEvidence>, models: seq<nat>)
    requires Covers(evs, models)
  {
    forall k, j :: 0 <= k < |evs| && 0 <= j < |models| ==> 0.0 <= evs[k].mle[models[j]] <= 1.0
  }

  lemma FoldProbabilities(evs: seq<TermEvidence>, models: seq<nat>, tests: seq<nat>)
    requires Distinct(models) && Distinct(tests) && Covers(evs, models)
    requires Estimates(evs, models)
    ensures forall q: nat, d: nat :: 0.0 <= Value(FoldTerms(map[], evs, models, tests), q, d) <= 1.0
  {
    var r := FoldTerms(map[], evs, models, tests);
    forall q: nat, d: nat ensures 0.0 <= Value(r, q, d) <= 1.0 {
      if q in tests && d in models {
        var j :| 0 <= j < |models| && models[j] == d;
        var k :| 0 <= k < |tests| && tests[k] == q;
        var fs := TermFactors(evs, q, d);
        assert Factors(r, q, d) == fs;
        forall i | 0 <= i < |fs| ensures 0.0 <= fs[i] <= 1.0 {
          assert 0.0 <= evs[i].mle[models[j]] <= 1.0;
        }
        ProductUnit(fs);
      } else {
        assert Factors(r, q, d) == [];
      }
    }
  }

  lemma {:induction false} ProductUnit(xs: seq<real>)
    requires forall i :: 0 <= i < |xs| ==> 0.0 <= xs[i] <= 1.0
    ensures 0.0 <= Product(xs) <= 1.0
    decreases |xs|
  {
    if |xs| > 0 {
      ProductUnit(xs[..|xs| - 1]);
      MulUnit(Product(xs[..|xs| - 1]), xs[|xs| - 1]);
    }
  }

  lemma MulUnit(a: real, b: real)
    requires 0.0 <= a <= 1.0 && 0.0 <= b <= 1.0
    ensures 0.0 <= a * b <= 1.0
  {
    if a != 0.0 && b != 0.0 {
      assert 0.0 < a * b;
      assert a * b <= a;
    }
  }

  // ---------------------------------------------------------------------------
  // Independence of the HashSet orders

  /** Two enumerations of the same set of document ids. */
  ghost predicate SameMembers(a: seq<nat>, b: seq<nat>) {
    forall x :: x in a <==> x in b
  }

  lemma {:induction false} InModelSameMembers(ps: seq<Posting>, m1: seq<nat>, m2: seq<nat>)
    requires SameMembers(m1, m2)
    ensures InModel(ps, m1) == InModel(ps, m2)
    decreases |ps|
  {
    if |ps| > 0 {
      InModelSameMembers(ps[1..], m1, m2);
    }
  }

  lemma EstimateSameMembers(pow: Pow, ps: seq<Posting>, m1: seq<nat>, m2: seq<nat>, lens: map<nat, nat>, av: Averages, cs: nat)
    requires cs > 0 && av.meanfreq >= 0.0
    requires forall d :: d in m1 ==> d in lens
    requires SameMembers(m1, m2)
    ensures Estimate(pow, ps, m1, lens, av, cs) == Estimate(pow, ps, m2, lens, av, cs)
  {
    assert Measurable(ps, m1, lens) == Measurable(ps, m2, lens);
    if Measurable(ps, m1, lens) {
      var bg := av.collectionFreq as real / cs as real;
      var e1 := map d | d in m1 :: if d in DocSet(ps) then PostingEstimate(pow, FreqOf(ps, d), lens[d], av) else bg;
      var e2 := map d | d in m2 :: if d in DocSet(ps) then PostingEstimate(pow, FreqOf(ps, d), lens[d], av) else bg;
      assert e1.Keys == e2.Keys;
      assert e1 == e2;
    }
  }

  lemma TermEvidenceSameMembers(pow: Pow, ix: Index, field: string, m1: seq<nat>, m2: seq<nat>, lens: map<nat, nat>, cs: nat, t: Term)
    requires WellFormed(ix) && cs > 0
    requires forall d :: d in m1 ==> d in lens
    requires SameMembers(m1, m2)
    ensures TermEvidenceFor(pow, ix, field, m1, lens, cs, t) == TermEvidenceFor(pow, ix, field, m2, lens, cs, t)
  {
    var ps := PostingsOf(ix, t);
    InModelSameMembers(ps, m1, m2);
    InModelWithin(ps, m1, |ix.vectors|);
    var av := Avgs(ix, InModel(ps, m1), field);
    if av.Ok? {
      EstimateSameMembers(pow, ps, m1, m2, lens, av.value, cs);
    }
  }

  lemma DocLengthsSameMembers(ix: Index, m1: seq<nat>, m2: seq<nat>)
    requires forall k :: 0 <= k < |m1| ==> m1[k] < |ix.vectors|
    requires forall k :: 0 <= k < |m2| ==> m2[k] < |ix.vectors|
    requires SameMembers(m1, m2)
    ensures DocLengths(ix, m1) == DocLengths(ix, m2)
  {
    var r1, r2 := DocLengths(ix, m1), DocLengths(ix, m2);
    LengthsAgree(ix, m1, m2, r1, r2);
  }

  /** Two outcomes that succeed exactly when every listed document has a
      title vector, and then map the listed documents to their lengths, are
      equal when the lists have the same members. */
  lemma LengthsAgree(ix: Index, m1: seq<nat>, m2: seq<nat>, r1: Outcome<map<nat, nat>>, r2: Outcome<map<nat, nat>>)
    requires forall k :: 0 <= k < |m1| ==> m1[k] < |ix.vectors|
    requires forall k :: 0 <= k < |m2| ==> m2[k] < |ix.vectors|
    requires SameMembers(m1, m2)
    requires r1.Ok? <==> forall k :: 0 <= k < |m1| ==> VectorOf(ix, m1[k], Title).Some?
    requires r2.Ok? <==> forall k :: 0 <= k < |m2| ==> VectorOf(ix, m2[k], Title).Some?
    requires r1.Fail? ==> r1.fault == NullDereference
    requires r2.Fail? ==> r2.fault == NullDereference
    requires r1.Ok? ==> (forall d :: d in r1.value <==> d in m1) && forall k :: 0 <= k < |m1| ==> r1.value[m1[k]] == DistinctTermCount(ix, m1[k], Title)
    requires r2.Ok? ==> (forall d :: d in r2.value <==> d in m2) && forall k :: 0 <= k < |m2| ==> r2.value[m2[k]] == DistinctTermCount(ix, m2[k], Title)
    ensures r1 == r2
  {
    if r1.Ok? {
      forall k | 0 <= k < |m2| ensures VectorOf(ix, m2[k], Title).Some? {
        assert m2[k] in m1;
        var i :| 0 <= i < |m1| && m1[i] == m2[k];
      }
      forall d | d in r1.value ensures d in r2.value && r1.value[d] == r2.value[d] {
        var i :| 0 <= i < |m1| && m1[i] == d;
        assert d in m2;
        var k :| 0 <= k < |m2| && m2[k] == d;
      }
      assert r2.Ok?;
      assert r1.value.Keys == r2.value.Keys;
      assert r1.value == r2.value;
    } else if r2.Ok? {
      forall k | 0 <= k < |m1| ensures VectorOf(ix, m1[k], Title).Some? {
        assert m1[k] in m2;
        var i :| 0 <= i < |m2| && m2[i] == m1[k];
      }
    }
  }

  lemma EvidenceSameMembers(pow: Pow, ix: Index, field: string, m1: seq<nat>, m2: seq<nat>)
    requires WellFormed(ix)
    requires forall k :: 0 <= k < |m1| ==> m1[k] < ix.numDocs
    requires forall k :: 0 <= k < |m2| ==> m2[k] < ix.numDocs
    requires SameMembers(m1, m2)
    ensures Evidence(pow, ix, field, m1) == Evidence(pow, ix, field, m2)
  {
    DocLengthsSameMembers(ix, m1, m2);
    var lens := DocLengths(ix, m1);
    if lens.Ok? {
      var cs, terms := TermCount(ix, field), Vocabulary(ix, field);
      var o1 := Outcomes(pow, ix, field, m1, lens.value, cs, terms);
      var o2 := Outcomes(pow, ix, field, m2, lens.value, cs, terms);
      forall k | 0 <= k < |terms| ensures o1[k] == o2[k] {
        TermEvidenceSameMembers(pow, ix, field, m1, m2, lens.value, cs, terms[k]);
      }
      assert o1 == o2;
    }
  }

  /** The corrected model does not depend on the order in which the HashSets
      hand out the training and test documents: two enumerations of the same
      sets succeed or fail alike and give every pair the same factors. */
  lemma PriorsIgnoreOrder(pow: Pow, ix: Index, field: string, m1: seq<nat>, m2: seq<nat>, t1: seq<nat>, t2: seq<nat>)
    requires WellFormed(ix) && Distinct(m1) && Distinct(m2) && Distinct(t1) && Distinct(t2)
    requires forall k :: 0 <= k < |m1| ==> m1[k] < ix.numDocs
    requires forall k :: 0 <= k < |m2| ==> m2[k] < ix.numDocs
    requires SameMembers(m1, m2) && SameMembers(t1, t2)
    ensures ComputePriors(pow, ix, field, m1, t1) == ComputePriors(pow, ix, field, m2, t2) ||
      (ComputePriors(pow, ix, field, m1, t1).Ok? && ComputePriors(pow, ix, field, m2, t2).Ok? &&
       forall q: nat, d: nat :: Factors(ComputePriors(pow, ix, field, m1, t1).value, q, d) == Factors(ComputePriors(pow, ix, field, m2, t2).value, q, d))
  {
    EvidenceSameMembers(pow, ix, field, m1, m2);
    var ev := Evidence(pow, ix, field, m1);
    if ev.Ok? {
      var r1 := FoldTerms(map[], ev.value, m1, t1);
      var r2 := FoldTerms(map[], ev.value, m2, t2);
      assert ComputePriors(pow, ix, field, m1, t1) == Ok(r1);
      assert ComputePriors(pow, ix, field, m2, t2) == Ok(r2);
      forall q: nat, d: nat ensures Factors(r1, q, d) == Factors(r2, q, d) {
        if q in t1 && d in m1 {
          var j1 :| 0 <= j1 < |m1| && m1[j1] == d;
          var k1 :| 0 <= k1 < |t1| && t1[k1] == q;
          var j2 :| 0 <= j2 < |m2| && m2[j2] == d;
          var k2 :| 0 <= k2 < |t2| && t2[k2] == q;
          assert Factors(r1, q, d) == TermFactors(ev.value, q, d);
          assert Factors(r2, q, d) == TermFactors(ev.value, q, d);
        }
      }
    }
  }

  // ---------------------------------------------------------------------------
  // A two-document index

  const Cat: Term := Term(Title, "cat")
  const Dog: Term := Term(Title, "dog")

  /** Document 0 has the title "cat", document 1 the title "dog". */
  function Example(): Index {
    Index(2, [TermEntry(Cat, [Posting(0, 1)]), TermEntry(Dog, [Posting(1, 1)])], [map[Title := [1]], map[Title := [1]]])
  }

  lemma ExampleFacts()
    ensures WellFormed(Example())
    ensures Vocabulary(Example(), Title) == [Cat, Dog]
    ensures PostingsOf(Example(), Cat) == [Posting(0, 1)]
    ensures DocLengths(Example(), [0, 1]) == Ok(map[0 := 1, 1 := 1])
    ensures DocLengths(Example(), [0]) == Ok(map[0 := 1])
  {
    var es := Example().entries;
    assert !ContainsNumber("cat") && !ContainsNumber("dog");
    assert es[1..][1..] == [];
    assert FieldTerms(es[1..], Title) == [Dog];
    var r := DocLengths(Example(), [0, 1]).value;
    assert r.Keys == {0, 1};
    assert r == map[0 := 1, 1 := 1];
  }

  /** The shape of the two-document index the counterexamples rely on. */
  ghost predicate CatAndDog(ix: Index, cat: Term, dog: Term) {
    && WellFormed(ix) && ix.numDocs == 2
    && Vocabulary(ix, Title) == [cat, dog]
    && PostingsOf(ix, cat) == [Posting(0, 1)] && PostingsOf(ix, dog) == [Posting(1, 1)]
    && VectorOf(ix, 0, Title) == Some([1]) && VectorOf(ix, 1, Title) == Some([1])
  }

  lemma ExampleShape()
    ensures CatAndDog(Example(), Cat, Dog)
  {
    ExampleFacts();
    var ix := Example();
    assert ix.entries[1..][0].term == Dog;
    assert PostingsOf(ix, Dog) == [Posting(1, 1)];
  }

  /** With "cat" and both documents in training, the code as written
      estimates 0 for document 1, which lacks the term; the corrected
      averages give it the background rate 1 / 2 (one occurrence among two
      vocabulary terms). */
  lemma PassByValueCounterexample(pow: Pow)
    requires JavaPow(pow)
    ensures EstimateAsWritten(pow, Example(), Title, [0, 1], map[0 := 1, 1 := 1], 2, Cat) == Ok(map[0 := 1.0, 1 := 0.0])
    ensures TermEvidenceFor(pow, Example(), Title, [0, 1], map[0 := 1, 1 := 1], 2, Cat).Ok?
    ensures TermEvidenceFor(pow, Example(), Title, [0, 1], map[0 := 1, 1 := 1], 2, Cat).value.mle[1] == 0.5
  {
    ExampleShape();
    AsWrittenCatEstimate(pow, Example(), Cat, Dog);
    CorrectedCatEstimate(pow, Example(), Cat, Dog);
  }

  lemma AsWrittenCatEstimate(pow: Pow, ix: Index, cat: Term, dog: Term)
    requires JavaPow(pow) && CatAndDog(ix, cat, dog)
    ensures EstimateAsWritten(pow, ix, Title, [0, 1], map[0 := 1, 1 := 1], 2, cat) == Ok(map[0 := 1.0, 1 := 0.0])
  {
    CatAsWrittenOk(pow, ix, cat, dog);
    CatAsWrittenValues(pow, ix, cat, dog);
    TwoEntries(EstimateAsWritten(pow, ix, Title, [0, 1], map[0 := 1, 1 := 1], 2, cat).value, 1.0, 0.0);
  }

  lemma CatAsWrittenOk(pow: Pow, ix: Index, cat: Term, dog: Term)
    requires CatAndDog(ix, cat, dog)
    ensures EstimateAsWritten(pow, ix, Title, [0, 1], map[0 := 1, 1 := 1], 2, cat).Ok?
  {
    var ps := PostingsOf(ix, cat);
    assert InModel(ps, [0, 1]) == ps;
    assert HasVectors(ix, ps, Title);
    assert Measurable(ps, [0, 1], map[0 := 1, 1 := 1]);
  }

  lemma CatAsWrittenValues(pow: Pow, ix: Index, cat: Term, dog: Term)
    requires JavaPow(pow) && CatAndDog(ix, cat, dog)
    requires EstimateAsWritten(pow, ix, Title, [0, 1], map[0 := 1, 1 := 1], 2, cat).Ok?
    ensures EstimateAsWritten(pow, ix, Title, [0, 1], map[0 := 1, 1 := 1], 2, cat).value.Keys == {0, 1}
    ensures EstimateAsWritten(pow, ix, Title, [0, 1], map[0 := 1, 1 := 1], 2, cat).value[0] == 1.0
    ensures EstimateAsWritten(pow, ix, Title, [0, 1], map[0 := 1, 1 := 1], 2, cat).value[1] == 0.0
  {
    var a := EstimateAsWritten(pow, ix, Title, [0, 1], map[0 := 1, 1 := 1], 2, cat).value;
    var ps := PostingsOf(ix, cat);
    assert ps[0].doc == 0 && ps[0].freq == 1;
    assert 1 !in DocSet(ps);
  }

  lemma TwoEntries(a: map<nat, real>, x: real, y: real)
    requires a.Keys == {0, 1} && a[0] == x && a[1] == y
    ensures a == map[0 := x, 1 := y]
  {
  }

  lemma CorrectedCatEstimate(pow: Pow, ix: Index, cat: Term, dog: Term)
    requires CatAndDog(ix, cat, dog)
    ensures TermEvidenceFor(pow, ix, Title, [0, 1], map[0 := 1, 1 := 1], 2, cat).Ok?
    ensures TermEvidenceFor(pow, ix, Title, [0, 1], map[0 := 1, 1 := 1], 2, cat).value.mle[1] == 0.5
  {
    var ps := [Posting(0, 1)];
    assert InModel(ps, [0, 1]) == ps;
    assert DocSet(ps) == {0};
    assert HasLengths(ix, ps, Title);
    var av := Avgs(ix, ps, Title);
    assert av.Ok? && av.value.collectionFreq == 1;
    EvidenceIsEstimate(pow, ix, Title, [0, 1], map[0 := 1, 1 := 1], 2, cat);
  }

  /** With document 0 for training and document 1 for testing, the code as
      written throws ClassCastException while the corrected computation
      gives the pair one factor per vocabulary term. */
  lemma ClassCastCounterexample(pow: Pow, ix: Index)
    requires ix == Example()
    ensures CatAndDog(ix, Cat, Dog)
    ensures ComputePriorsAsWritten(pow, ix, Title, [0], [1]) == Fail(ClassCast)
    ensures ComputePriors(pow, ix, Title, [0], [1]).Ok?
    ensures |Factors(ComputePriors(pow, ix, Title, [0], [1]).value, 1, 0)| == 2
  {
    ExampleShape();
    ClassCastOnCatAndDog(pow, ix, Cat, Dog, [0], [1]);
  }

  lemma ClassCastOnCatAndDog(pow: Pow, ix: Index, cat: Term, dog: Term, models: seq<nat>, tests: seq<nat>)
    requires CatAndDog(ix, cat, dog) && models == [0] && tests == [1]
    ensures ComputePriorsAsWritten(pow, ix, Title, models, tests) == Fail(ClassCast)
    ensures ComputePriors(pow, ix, Title, models, tests).Ok?
    ensures |Factors(ComputePriors(pow, ix, Title, models, tests).value, 1, 0)| == 2
  {
    CatAndDogEvidence(pow, ix, cat, dog);
    PairFactorCount(pow, ix, Title, models, tests);
    ClassCastWhereCorrectedSucceeds(pow, ix, Title, models, tests);
  }

  /** With document 0 for training, every term of the two-document index has
      its evidence. */
  lemma CatAndDogEvidence(pow: Pow, ix: Index, cat: Term, dog: Term)
    requires CatAndDog(ix, cat, dog)
    ensures Evidence(pow, ix, Title, [0]).Ok?
  {
    var lens := map[0 := 1];
    var r := DocLengths(ix, [0]);
    assert r.Ok? && r.value.Keys == {0};
    assert r == Ok(lens);
    TrainingEvidence(pow, ix, cat, dog);
    var outs := Outcomes(pow, ix, Title, [0], lens, 2, [cat, dog]);
    assert outs[0].Ok? && outs[1].Ok?;
  }

  /** The corrected model gives a (test, training) pair one factor per
      vocabulary term. */
  lemma PairFactorCount(pow: Pow, ix: Index, field: string, models: seq<nat>, tests: seq<nat>)
    requires WellFormed(ix) && Distinct(models) && Distinct(tests) && |models| > 0 && |tests| > 0
    requires forall k :: 0 <= k < |models| ==> models[k] < ix.numDocs
    requires Evidence(pow, ix, field, models).Ok?
    ensures ComputePriors(pow, ix, field, models, tests).Ok?
    ensures |Factors(ComputePriors(pow, ix, field, models, tests).value, tests[0], models[0])| == |Vocabulary(ix, field)|
  {
  }

  /** Both terms have evidence when document 0 is the training set. */
  lemma TrainingEvidence(pow: Pow, ix: Index, cat: Term, dog: Term)
    requires CatAndDog(ix, cat, dog)
    ensures TermEvidenceFor(pow, ix, Title, [0], map[0 := 1], 2, cat).Ok?
    ensures TermEvidenceFor(pow, ix, Title, [0], map[0 := 1], 2, dog).Ok?
  {
    assert InModel([Posting(0, 1)], [0]) == [Posting(0, 1)];
    assert InModel([Posting(1, 1)], [0]) == [];
    assert HasLengths(ix, [Posting(0, 1)], Title);
  }
}
