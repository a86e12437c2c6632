/** The parallel prior computation of the trunk snapshot (PriorCalculator).

    For one field it builds the (training document x test document) matrix
    of products of per-term Bernoulli factors.  The vocabulary (admissible
    terms of the test index, then of the training index) is cut into
    NumThreads chunks of ceil(n / NumThreads) terms; each worker folds its
    chunk into a private all-1.0 matrix, and the partial matrices are
    multiplied entry by entry.  Thread start and join are not modelled: the
    workers share nothing but read-only inputs, so each is a pure function of
    its chunk.

    The main theorem, `ChunkedIsSequential`, says that for any number of
    workers the result is the sequential fold over the whole vocabulary,
    except that the run stops (System.exit) exactly when that fold has an
    entry equal to 0.0.
 */
module PriorCalculator {
  import opened Wrappers
  import opened TermIndex
  import opened Estimator
  import opened ScoreMatrix
  import opened ChunkedFold
  import opened Readers

  /** numThreads */
  const NumThreads: nat := 4

  // ---------------------------------------------------------------------------
  // Vocabulary

  /** allTerms: the test index's terms are enumerated first, then the training
      index's; both passes keep the admissible terms of the field. */
  function AllTerms(ctx: Context): (r: seq<Term>)
    ensures AllAdmissible(r, ctx.field)
    ensures forall t :: t in r <==> Admissible(t, ctx.field) && (InIndex(ctx.test, t) || InIndex(ctx.train, t))
  {
    var a := Vocabulary(ctx.test, ctx.field);
    var b := Vocabulary(ctx.train, ctx.field);
    assert forall t :: t in a + b <==> t in a || t in b;
    a + b
  }

  /** A term both indices hold is collected twice, so its factor enters the
      product twice. */
  lemma SharedTermTwice(ctx: Context, t: Term)
    requires Admissible(t, ctx.field) && InIndex(ctx.test, t) && InIndex(ctx.train, t)
    ensures exists i, j :: 0 <= i < j < |AllTerms(ctx)| && AllTerms(ctx)[i] == t && AllTerms(ctx)[j] == t
  {
    var a := Vocabulary(ctx.test, ctx.field);
    var b := Vocabulary(ctx.train, ctx.field);
    var i1 :| 0 <= i1 < |ctx.test.entries| && ctx.test.entries[i1].term == t;
    var i2 :| 0 <= i2 < |ctx.train.entries| && ctx.train.entries[i2].term == t;
    assert t in a && t in b;
    var i :| 0 <= i < |a| && a[i] == t;
    var j :| 0 <= j < |b| && b[j] == t;
    assert AllTerms(ctx) == a + b;
    assert AllTerms(ctx)[i] == t && AllTerms(ctx)[|a| + j] == t;
  }

  // ---------------------------------------------------------------------------
  // compute_avgs

  /** Every posting document has a term vector with at least one term. */
  ghost predicate Healthy(ix: Index, ps: seq<Posting>, field: string) {
    forall k :: 0 <= k < |ps| ==> ps[k].doc < |ix.vectors| && DistinctTermCount(ix, ps[k].doc, field) > 0
  }

  lemma HealthyCons(ix: Index, ps: seq<Posting>, field: string)
    requires |ps| > 0
    ensures Healthy(ix, ps, field) <==>
      ps[0].doc < |ix.vectors| && DistinctTermCount(ix, ps[0].doc, field) > 0 && Healthy(ix, ps[1..], field)
  {
    assert forall k :: 1 <= k < |ps| ==> ps[k] == ps[1..][k - 1];
  }

  /** Why a posting stops compute_avgs: getTermFreqVector gave null (the
      size() call throws) or a vector with no terms (System.exit). */
  function VectorFault(ix: Index, d: nat, field: string): Fault
    requires d < |ix.vectors|
  {
    if VectorOf(ix, d, field).None? then NullDereference else ProcessExit
  }

  /** The run stops at posting k: the postings before it are fine, it is not. */
  ghost predicate StopsAt(ix: Index, ps: seq<Posting>, field: string, k: nat, f: Fault) {
    && k < |ps| && ps[k].doc < |ix.vectors|
    && Healthy(ix, ps[..k], field)
    && DistinctTermCount(ix, ps[k].doc, field) == 0
    && f == VectorFault(ix, ps[k].doc, field)
  }

  /** The sum of tf / dl over the postings, dl the document's distinct-term count. */
  function PmlSum(ix: Index, ps: seq<Posting>, field: string): (r: Outcome<real>)
    requires PostingsWithin(ps, |ix.vectors|)
    ensures r.Ok? <==> Healthy(ix, ps, field)
    ensures r.Ok? ==> r.value >= 0.0
    ensures r.Fail? ==> exists k :: StopsAt(ix, ps, field, k, r.fault)
    decreases |ps|
  {
    if |ps| == 0 then Ok(0.0)
    else
      var d := ps[0].doc;
      var dl := DistinctTermCount(ix, d, field);
      HealthyCons(ix, ps, field);
      if dl == 0 then
        assert ps[..0] == [];
        assert StopsAt(ix, ps, field, 0, VectorFault(ix, d, field));
        Fail(VectorFault(ix, d, field))
      else
        var rest := PmlSum(ix, ps[1..], field);
        match rest
        case Fail(f) =>
          assert exists k :: StopsAt(ix, ps, field, k, f) by {
            var k: nat :| StopsAt(ix, ps[1..], field, k, f);
            assert ps[..k + 1][1..] == ps[1..][..k];
            HealthyCons(ix, ps[..k + 1], field);
            assert StopsAt(ix, ps, field, k + 1, f);
          }
          Fail(f)
        case Ok(s) => Ok(ps[0].freq as real / dl as real + s)
  }

  /** compute_avgs: (0, 0, 0) for no postings, else the mean of tf / dl, the
      mean tf and the total tf; it stops at the first posting document
      without a usable term vector. */
  function ComputeAvgs(ix: Index, ps: seq<Posting>, field: string): (r: Outcome<Averages>)
    requires PostingsWithin(ps, |ix.vectors|)
    ensures r.Ok? <==> Healthy(ix, ps, field)
    ensures r.Fail? ==> exists k :: StopsAt(ix, ps, field, k, r.fault)
    ensures r.Ok? ==> r.value.collectionFreq == SumFreq(ps)
    ensures r.Ok? ==> r.value.meanfreq * |ps| as real == SumFreq(ps) as real
    ensures r.Ok? ==> r.value.pavg * |ps| as real == PmlSum(ix, ps, field).value
    ensures r.Ok? && |ps| == 0 ==> r.value.pavg == 0.0 && r.value.meanfreq == 0.0
    ensures r.Ok? ==> r.value.pavg >= 0.0 && r.value.meanfreq >= 0.0
  {
    var s :- PmlSum(ix, ps, field);
    if |ps| == 0 then Ok(Averages(0.0, 0.0, 0))
    else
      var count := |ps| as real;
      Ok(Averages(s / count, SumFreq(ps) as real / count, SumFreq(ps)))
  }

  // ---------------------------------------------------------------------------
  // compute_mlestimate

  /** The estimate written for one posting document: pml^(1-R) * pavg^R with
      pml = tf / dl. */
  function PostingValue(pow: Pow, ix: Index, field: string, av: Averages, p: Posting): real
    requires p.doc < |ix.vectors| && DistinctTermCount(ix, p.doc, field) > 0
    requires av.meanfreq >= 0.0
  {
    var pml := p.freq as real / DistinctTermCount(ix, p.doc, field) as real;
    Smoothed(pow, pml, av.pavg, ShrinkWeight(pow, av.meanfreq, p.freq))
  }

  /** compute_mlestimate on the training index: nothing (null) when the term
      never occurs, otherwise a buffer holding the smoothed estimate at each
      posting document and the background rate wherever that left 0.0. */
  function MlEstimate(pow: Pow, ix: Index, field: string, t: Term): (r: Outcome<Option<seq<real>>>)
    requires WellFormed(ix) && Admissible(t, field)
    ensures r.Ok? <==> Healthy(ix, PostingsOf(ix, t), field)
    ensures r.Fail? ==> exists k :: StopsAt(ix, PostingsOf(ix, t), field, k, r.fault)
    ensures r.Ok? ==> (r.value.None? <==> SumFreq(PostingsOf(ix, t)) == 0)
    ensures r.Ok? && r.value.Some? ==> |r.value.value| == ix.numDocs
    ensures r.Ok? && r.value.Some? ==> forall d :: 0 <= d < ix.numDocs ==> r.value.value[d] != 0.0
    ensures r.Ok? && r.value.Some? ==>
      forall d :: 0 <= d < ix.numDocs && d !in DocSet(PostingsOf(ix, t)) ==> r.value.value[d] == Background(ix, field, t)
    ensures r.Ok? && r.value.Some? ==>
      var ps := PostingsOf(ix, t);
      var av := ComputeAvgs(ix, ps, field).value;
      forall k :: 0 <= k < |ps| ==>
        var v := PostingValue(pow, ix, field, av, ps[k]);
        r.value.value[ps[k].doc] == (if v == 0.0 then Background(ix, field, t) else v)
  {
    var ps := PostingsOf(ix, t);
    var av :- ComputeAvgs(ix, ps, field);
    if av.collectionFreq == 0 then Ok(None)
    else
      BackgroundRate(ix, field, t);
      var vals := seq(|ps|, k requires 0 <= k < |ps| => PostingValue(pow, ix, field, av, ps[k]));
      var buf := Scatter(Zeros(ix.numDocs), ps, vals);
      Ok(Some(FillZeros(buf, Background(ix, field, t))))
  }

  /** With any occurrence the mean frequency is positive, so the shrinkage
      weight of every posting lies strictly between 0 and 1. */
  lemma EstimateWeights(pow: Pow, ix: Index, field: string, t: Term)
    requires WellFormed(ix) && Admissible(t, field) && JavaPow(pow)
    requires Healthy(ix, PostingsOf(ix, t), field) && SumFreq(PostingsOf(ix, t)) > 0
    ensures var ps := PostingsOf(ix, t);
            var av := ComputeAvgs(ix, ps, field).value;
            forall k :: 0 <= k < |ps| ==> 0.0 < ShrinkWeight(pow, av.meanfreq, ps[k].freq) < 1.0
  {
    var ps := PostingsOf(ix, t);
    var av := ComputeAvgs(ix, ps, field).value;
    assert |ps| > 0;
    assert av.meanfreq > 0.0;
    forall k | 0 <= k < |ps|
      ensures 0.0 < ShrinkWeight(pow, av.meanfreq, ps[k].freq) < 1.0
    {
      ShrinkWeightBounds(pow, av.meanfreq, ps[k].freq);
    }
  }

  // ---------------------------------------------------------------------------
  // One term's factor and a worker's fold

  /** The estimate of the term over the training documents together with the
      term's presence array over the test documents. */
  function TermEvidence(ctx: Context, t: Term): (r: Outcome<Option<Evidence>>)
    requires Valid(ctx) && Admissible(t, ctx.field)
    ensures r.Ok? <==> Healthy(ctx.train, PostingsOf(ctx.train, t), ctx.field)
    ensures r.Ok? ==> (r.value.None? <==> SumFreq(PostingsOf(ctx.train, t)) == 0)
    ensures r.Ok? && r.value.Some? ==>
      && r.value.value.mle == MlEstimate(ctx.pow, ctx.train, ctx.field, t).value.value
      && |r.value.value.mle| == Rows(ctx)
      && |r.value.value.presence| == Cols(ctx)
      && forall q :: 0 <= q < Cols(ctx) ==> (r.value.value.presence[q] == 0 <==> q in DocSet(PostingsOf(ctx.test, t)))
  {
    var mle :- MlEstimate(ctx.pow, ctx.train, ctx.field, t);
    match mle
    case None => Ok(None)
    case Some(m) => Ok(Some(Evidence(m, PresenceArray(ctx.test.numDocs, PostingsOf(ctx.test, t)))))
  }

  /** The evidence function the workers use: defined on the admissible terms. */
  function EvidenceFor(ctx: Context): (ev: Term --> Outcome<Option<Evidence>>)
    ensures forall t :: Valid(ctx) && Admissible(t, ctx.field) ==> ev.requires(t) && ev(t) == TermEvidence(ctx, t)
  {
    t requires Valid(ctx) && Admissible(t, ctx.field) => TermEvidence(ctx, t)
  }

  lemma VocabularyDefined(ctx: Context)
    requires Valid(ctx)
    ensures Defined(EvidenceFor(ctx), AllTerms(ctx))
  {
  }

  /** computePriors with p workers. */
  function ComputePriorsWith(ctx: Context, p: nat): (r: Outcome<Matrix>)
    requires Valid(ctx) && p > 0
    ensures r.Ok? ==> Shaped(r.value, Rows(ctx), Cols(ctx))
    ensures r.Fail? ==> r.fault == ProcessExit
  {
    VocabularyDefined(ctx);
    Chunked(EvidenceFor(ctx), AllTerms(ctx), p, Rows(ctx), Cols(ctx))
  }

  /** computePriors as the program runs it, with four worker threads. */
  function ComputePriors(ctx: Context): (r: Outcome<Matrix>)
    requires Valid(ctx)
    ensures r.Ok? ==> Shaped(r.value, Rows(ctx), Cols(ctx))
  {
    ComputePriorsWith(ctx, NumThreads)
  }

  /** The reference: one worker folding the whole vocabulary. */
  function SequentialPriors(ctx: Context): (r: Outcome<Matrix>)
    requires Valid(ctx)
    ensures r.Ok? <==> forall k :: 0 <= k < |AllTerms(ctx)| ==> Healthy(ctx.train, PostingsOf(ctx.train, AllTerms(ctx)[k]), ctx.field)
    ensures r.Ok? ==> Shaped(r.value, Rows(ctx), Cols(ctx))
  {
    VocabularyDefined(ctx);
    Sequential(EvidenceFor(ctx), AllTerms(ctx), Rows(ctx), Cols(ctx))
  }

  /** The four-thread run yields the sequential fold of the whole vocabulary,
      and stops exactly when that fold stops or has an entry 0.0; the same
      holds for any number of workers. */
  lemma PriorsAreSequential(ctx: Context, p: nat)
    requires Valid(ctx) && p > 0
    ensures ComputePriorsWith(ctx, p) == ZeroGuard(SequentialPriors(ctx), Rows(ctx), Cols(ctx))
    ensures ComputePriors(ctx) == ZeroGuard(SequentialPriors(ctx), Rows(ctx), Cols(ctx))
  {
    VocabularyDefined(ctx);
    ChunkedIsSequential(EvidenceFor(ctx), AllTerms(ctx), p, Rows(ctx), Cols(ctx));
    ChunkedIsSequential(EvidenceFor(ctx), AllTerms(ctx), NumThreads, Rows(ctx), Cols(ctx));
  }

  /** A term without training occurrences has no estimate, so it leaves a
      worker's matrix unchanged wherever it sits in the range; in particular
      a term found only in the test index contributes nothing. */
  lemma UnseenTermIsNeutral(ctx: Context, m: Matrix, a: seq<Term>, t: Term, b: seq<Term>)
    requires Valid(ctx) && AllAdmissible(a + [t] + b, ctx.field) && Shaped(m, Rows(ctx), Cols(ctx))
    requires PostingsOf(ctx.train, t) == []
    ensures Defined(EvidenceFor(ctx), a + b)
    ensures WorkerFold(EvidenceFor(ctx), m, a + [t] + b, Rows(ctx), Cols(ctx))
         == WorkerFold(EvidenceFor(ctx), m, a + b, Rows(ctx), Cols(ctx))
  {
    assert (a + [t] + b)[|a|] == t;
    assert Healthy(ctx.train, PostingsOf(ctx.train, t), ctx.field);
    assert TermEvidence(ctx, t) == Ok(None);
    WorkerSkipsNone(EvidenceFor(ctx), m, a, t, b, Rows(ctx), Cols(ctx));
  }
}
