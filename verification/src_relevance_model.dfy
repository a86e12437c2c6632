/** The single-threaded prior computation of the src snapshot
    (StructuredRelevanceModel.computePriors).

    It differs from the trunk's parallel calculator in three ways: a
    document's length is its total number of occurrences in the field, the
    vocabulary is the training index's admissible terms only, and the
    estimate buffer is allocated once and threaded through the whole
    vocabulary.  compute_mlestimate writes into that buffer and returns null
    for a term without occurrences, but the caller tests the buffer, not the
    returned value, so no term is ever skipped: a term without occurrences
    is scored with whatever the previous term left, and a term with
    occurrences only overwrites its own posting documents and the entries
    still exactly 0.0.

    `ComputePriorsAsWritten` is that computation; `ComputePriorsCorrected`
    gives every term a fresh buffer and skips the terms without occurrences.
    `StaleBufferCounterexample` exhibits two-document indices on which they
    differ, and `StaleBufferHarmlessWhenCovered` shows they agree when every
    term occurs in every training document.
 */
module SrcRelevanceModel {
  import opened Wrappers
  import opened TermIndex
  import opened Estimator
  import opened ScoreMatrix
  import opened ChunkedFold
  import opened Readers
  import opened Text

  /** doc_lengths: every training document's total occurrences in the field. */
  function DocLengths(ix: Index, field: string): (lens: seq<nat>)
    requires WellFormed(ix)
    ensures |lens| == ix.numDocs
    ensures forall d :: 0 <= d < ix.numDocs ==> lens[d] == TotalOccurrences(ix, d, field)
  {
    seq(ix.numDocs, d requires 0 <= d < ix.numDocs => TotalOccurrences(ix, d, field))
  }

  /** Every posting document has a positive length, so tf / length is finite. */
  ghost predicate Measured(lens: seq<nat>, ps: seq<Posting>) {
    forall k :: 0 <= k < |ps| ==> ps[k].doc < |lens| && lens[ps[k].doc] > 0
  }

  /** The lengths serve a term's postings exactly when every posting document
      has a vector in the field with at least one occurrence. */
  lemma DocLengthsMeasured(ix: Index, field: string, ps: seq<Posting>)
    requires WellFormed(ix) && PostingsWithin(ps, ix.numDocs)
    ensures Measured(DocLengths(ix, field), ps)
        <==> forall k :: 0 <= k < |ps| ==> VectorOf(ix, ps[k].doc, field).Some? && SumNat(VectorOf(ix, ps[k].doc, field).value) > 0
  {
    var lens := DocLengths(ix, field);
    forall k | 0 <= k < |ps|
      ensures lens[ps[k].doc] > 0 <==> VectorOf(ix, ps[k].doc, field).Some? && SumNat(VectorOf(ix, ps[k].doc, field).value) > 0
    {
      assert lens[ps[k].doc] == TotalOccurrences(ix, ps[k].doc, field);
    }
  }

  lemma MeasuredCons(lens: seq<nat>, ps: seq<Posting>)
    requires |ps| > 0
    ensures Measured(lens, ps) <==> ps[0].doc < |lens| && lens[ps[0].doc] > 0 && Measured(lens, ps[1..])
  {
    assert forall k :: 1 <= k < |ps| ==> ps[k] == ps[1..][k - 1];
  }

  // ---------------------------------------------------------------------------
  // compute_avgs

  /** The sum of tf / doc_lengths[d] over the postings; a zero length makes
      the double quotient infinite (or NaN), which the model does not follow. */
  function PmlSum(lens: seq<nat>, ps: seq<Posting>): (r: Outcome<real>)
    requires PostingsWithin(ps, |lens|)
    ensures r.Ok? <==> Measured(lens, ps)
    ensures r.Fail? ==> r.fault == NonFinite
    ensures r.Ok? ==> r.value >= 0.0
    decreases |ps|
  {
    if |ps| == 0 then Ok(0.0)
    else
      MeasuredCons(lens, ps);
      var dl := lens[ps[0].doc];
      if dl == 0 then Fail(NonFinite)
      else
        var s :- PmlSum(lens, ps[1..]);
        Ok(ps[0].freq as real / dl as real + s)
  }

  /** compute_avgs: (0, 0, 0) for no postings, else the mean of tf / length,
      the mean tf and the total tf. */
  function ComputeAvgs(lens: seq<nat>, ps: seq<Posting>): (r: Outcome<Averages>)
    requires PostingsWithin(ps, |lens|)
    ensures r.Ok? <==> Measured(lens, ps)
    ensures r.Fail? ==> r.fault == NonFinite
    ensures r.Ok? ==> r.value.collectionFreq == SumFreq(ps)
    ensures r.Ok? ==> r.value.meanfreq * |ps| as real == SumFreq(ps) as real
    ensures r.Ok? ==> r.value.pavg * |ps| as real == PmlSum(lens, ps).value
    ensures r.Ok? && |ps| == 0 ==> r.value.pavg == 0.0 && r.value.meanfreq == 0.0
    ensures r.Ok? ==> r.value.pavg >= 0.0 && r.value.meanfreq >= 0.0
  {
    var s :- PmlSum(lens, ps);
    if |ps| == 0 then Ok(Averages(0.0, 0.0, 0))
    else
      var count := |ps| as real;
      Ok(Averages(s / count, SumFreq(ps) as real / count, SumFreq(ps)))
  }

  // ---------------------------------------------------------------------------
  // compute_mlestimate

  /** No posting has term frequency 0 (the run exits on one). */
  predicate PositiveFreqs(ps: seq<Posting>) {
    forall k | 0 <= k < |ps| :: ps[k].freq > 0
  }

  /** The estimate written for one posting document: pml^(1-R) * pavg^R with
      pml = tf / length. */
  function PostingValue(pow: Pow, lens: seq<nat>, av: Averages, p: Posting): real
    requires p.doc < |lens| && lens[p.doc] > 0
    requires av.meanfreq >= 0.0
  {
    var pml := p.freq as real / lens[p.doc] as real;
    Smoothed(pow, pml, av.pavg, ShrinkWeight(pow, av.meanfreq, p.freq))
  }

  /** A term compute_mlestimate gets through: no occurrence at all, or no
      posting with frequency 0 and finite averages. */
  ghost predicate Estimable(ix: Index, field: string, t: Term)
    requires WellFormed(ix)
  {
    var ps := PostingsOf(ix, t);
    SumFreq(ps) == 0 || (PositiveFreqs(ps) && Measured(DocLengths(ix, field), ps))
  }

  /** compute_mlestimate into the caller's buffer `buf`: null (and `buf`
      untouched) when the term never occurs; otherwise `buf` with every
      posting document overwritten by its estimate and then every entry still
      exactly 0.0 given the background rate.  An entry the term does not
      reach keeps the value it had. */
  function EstimateInto(pow: Pow, ix: Index, field: string, t: Term, buf: seq<real>): (r: Outcome<Option<seq<real>>>)
    requires WellFormed(ix) && Admissible(t, field) && |buf| == ix.numDocs
    ensures r.Ok? <==> Estimable(ix, field, t)
    ensures r.Fail? ==> (r.fault == ProcessExit <==> !PositiveFreqs(PostingsOf(ix, t)))
    ensures r.Fail? ==> r.fault == NonFinite || r.fault == ProcessExit
    ensures r.Ok? ==> (r.value.None? <==> SumFreq(PostingsOf(ix, t)) == 0)
    ensures r.Ok? && r.value.Some? ==> |r.value.value| == ix.numDocs
    ensures r.Ok? && r.value.Some? ==> forall d :: 0 <= d < ix.numDocs ==> r.value.value[d] != 0.0
    ensures r.Ok? && r.value.Some? ==>
      forall d :: 0 <= d < ix.numDocs && d !in DocSet(PostingsOf(ix, t)) ==>
        r.value.value[d] == (if buf[d] == 0.0 then Background(ix, field, t) else buf[d])
    ensures r.Ok? && r.value.Some? ==>
      var ps := PostingsOf(ix, t);
      var lens := DocLengths(ix, field);
      var av := ComputeAvgs(lens, ps).value;
      forall k :: 0 <= k < |ps| ==>
        var v := PostingValue(pow, lens, av, ps[k]);
        r.value.value[ps[k].doc] == (if v == 0.0 then Background(ix, field, t) else v)
  {
    var ps := PostingsOf(ix, t);
    var lens := DocLengths(ix, field);
    if SumFreq(ps) == 0 then Ok(None)
    else if !PositiveFreqs(ps) then Fail(ProcessExit)
    else
      var av :- ComputeAvgs(lens, ps);
      BackgroundRate(ix, field, t);
      var vals := seq(|ps|, k requires 0 <= k < |ps| => PostingValue(pow, lens, av, ps[k]));
      Ok(Some(FillZeros(Scatter(buf, ps, vals), Background(ix, field, t))))
  }

  /** The intended estimate: compute_mlestimate into a fresh all-0.0 buffer,
      so every document outside the postings gets the background rate. */
  function FreshEstimate(pow: Pow, ix: Index, field: string, t: Term): (r: Outcome<Option<seq<real>>>)
    requires WellFormed(ix) && Admissible(t, field)
    ensures r.Ok? <==> Estimable(ix, field, t)
    ensures r.Ok? ==> (r.value.None? <==> SumFreq(PostingsOf(ix, t)) == 0)
    ensures r.Ok? && r.value.Some? ==> |r.value.value| == ix.numDocs
    ensures r.Ok? && r.value.Some? ==>
      forall d :: 0 <= d < ix.numDocs && d !in DocSet(PostingsOf(ix, t)) ==> r.value.value[d] == Background(ix, field, t)
  {
    EstimateInto(pow, ix, field, t, Zeros(ix.numDocs))
  }

  /** When the postings reach every document, what the buffer held before
      does not matter. */
  lemma CoveredIgnoresBuffer(pow: Pow, ix: Index, field: string, t: Term, buf: seq<real>)
    requires WellFormed(ix) && Admissible(t, field) && |buf| == ix.numDocs
    requires forall d :: 0 <= d < ix.numDocs ==> d in DocSet(PostingsOf(ix, t))
    ensures EstimateInto(pow, ix, field, t, buf) == FreshEstimate(pow, ix, field, t)
  {
    var ps := PostingsOf(ix, t);
    var lens := DocLengths(ix, field);
    if SumFreq(ps) > 0 && PositiveFreqs(ps) && Measured(lens, ps) {
      var av := ComputeAvgs(lens, ps).value;
      var vals := seq(|ps|, k requires 0 <= k < |ps| => PostingValue(pow, lens, av, ps[k]));
      ScatterCovered(buf, Zeros(ix.numDocs), ps, vals);
    }
  }

  // ---------------------------------------------------------------------------
  // computePriors

  /** termDocsArr of a term over the test documents. */
  function Presence(ctx: Context, t: Term): (a: seq<nat>)
    requires Valid(ctx)
    ensures |a| == Cols(ctx)
    ensures forall q :: 0 <= q < Cols(ctx) ==> (a[q] == 0 <==> q in DocSet(PostingsOf(ctx.test, t)))
  {
    PresenceArray(Cols(ctx), PostingsOf(ctx.test, t))
  }

  /** The training vocabulary: the admissible terms of the training index. */
  function TrainTerms(ctx: Context): (r: seq<Term>)
    ensures AllAdmissible(r, ctx.field)
    ensures forall t :: t in r <==> Admissible(t, ctx.field) && InIndex(ctx.train, t)
  {
    Vocabulary(ctx.train, ctx.field)
  }

  ghost predicate AllEstimable(ctx: Context, terms: seq<Term>)
    requires Valid(ctx)
  {
    forall k :: 0 <= k < |terms| ==> Estimable(ctx.train, ctx.field, terms[k])
  }

  /** The loop over the vocabulary as written: the buffer `buf` carries over
      from term to term, and every term multiplies the matrix by the factors
      of whatever the buffer holds after its compute_mlestimate. */
  function FoldFrom(ctx: Context, m: Matrix, buf: seq<real>, terms: seq<Term>): (r: Outcome<Matrix>)
    requires Valid(ctx) && Shaped(m, Rows(ctx), Cols(ctx)) && |buf| == Rows(ctx)
    requires AllAdmissible(terms, ctx.field)
    ensures r.Ok? <==> AllEstimable(ctx, terms)
    ensures r.Ok? ==> Shaped(r.value, Rows(ctx), Cols(ctx))
    decreases |terms|
  {
    if |terms| == 0 then Ok(m)
    else
      var t := terms[0];
      assert AllEstimable(ctx, terms) <==> Estimable(ctx.train, ctx.field, t) && AllEstimable(ctx, terms[1..]) by {
        assert forall k :: 1 <= k < |terms| ==> terms[k] == terms[1..][k - 1];
      }
      var written :- EstimateInto(ctx.pow, ctx.train, ctx.field, t, buf);
      var next := if written.None? then buf else written.value;
      var m1 := Apply(m, Some(Evidence(next, Presence(ctx, t))), Rows(ctx), Cols(ctx));
      FoldFrom(ctx, m1, next, terms[1..])
  }

  /** computePriors as written: an all-1.0 matrix, one all-0.0 buffer for the
      whole training vocabulary. */
  function ComputePriorsAsWritten(ctx: Context): (r: Outcome<Matrix>)
    requires Valid(ctx)
    ensures r.Ok? <==> AllEstimable(ctx, TrainTerms(ctx))
    ensures r.Ok? ==> Shaped(r.value, Rows(ctx), Cols(ctx))
  {
    FoldFrom(ctx, Ones(Rows(ctx), Cols(ctx)), Zeros(Rows(ctx)), TrainTerms(ctx))
  }

  /** A term's evidence with a fresh buffer: nothing for a term without
      occurrences. */
  function FreshEvidence(ctx: Context, t: Term): (r: Outcome<Option<Evidence>>)
    requires Valid(ctx) && Admissible(t, ctx.field)
    ensures r.Ok? <==> Estimable(ctx.train, ctx.field, t)
    ensures r.Ok? ==> (r.value.None? <==> SumFreq(PostingsOf(ctx.train, t)) == 0)
    ensures r.Ok? && r.value.Some? ==>
      && r.value.value == Evidence(FreshEstimate(ctx.pow, ctx.train, ctx.field, t).value.value, Presence(ctx, t))
      && |r.value.value.mle| == Rows(ctx)
  {
    var mle :- FreshEstimate(ctx.pow, ctx.train, ctx.field, t);
    match mle
    case None => Ok(None)
    case Some(v) => Ok(Some(Evidence(v, Presence(ctx, t))))
  }

  function EvidenceFor(ctx: Context): (ev: Term --> Outcome<Option<Evidence>>)
    ensures forall t :: Valid(ctx) && Admissible(t, ctx.field) ==> ev.requires(t) && ev(t) == FreshEvidence(ctx, t)
  {
    t requires Valid(ctx) && Admissible(t, ctx.field) => FreshEvidence(ctx, t)
  }

  /** computePriors as evidently intended: each term scored with its own
      estimate, terms without occurrences skipped. */
  function ComputePriorsCorrected(ctx: Context): (r: Outcome<Matrix>)
    requires Valid(ctx)
    ensures r.Ok? <==> AllEstimable(ctx, TrainTerms(ctx))
    ensures r.Ok? ==> Shaped(r.value, Rows(ctx), Cols(ctx))
  {
    var terms := TrainTerms(ctx);
    assert Defined(EvidenceFor(ctx), terms);
    WorkerFold(EvidenceFor(ctx), Ones(Rows(ctx), Cols(ctx)), terms, Rows(ctx), Cols(ctx))
  }

  /** Every entry of the corrected matrix is the product, over the training
      vocabulary, of that term's own factor for the entry. */
  lemma CorrectedIsProduct(ctx: Context, i: nat, j: nat)
    requires Valid(ctx) && AllEstimable(ctx, TrainTerms(ctx))
    requires i < Rows(ctx) && j < Cols(ctx)
    ensures Defined(EvidenceFor(ctx), TrainTerms(ctx)) && AllOk(EvidenceFor(ctx), TrainTerms(ctx))
    ensures ComputePriorsCorrected(ctx).value[i][j] == Product(EvidenceSeq(EvidenceFor(ctx), TrainTerms(ctx)), i, j)
  {
    var terms := TrainTerms(ctx);
    var ev := EvidenceFor(ctx);
    var o := Ones(Rows(ctx), Cols(ctx));
    WorkerFoldIsFold(ev, o, terms, Rows(ctx), Cols(ctx));
    FoldIsProduct(EvidenceSeq(ev, terms), Rows(ctx), Cols(ctx), i, j);
  }

  /** In the corrected computation a term without training occurrences
      leaves the matrix unchanged wherever it sits in the vocabulary. */
  lemma CorrectedSkipsUnseen(ctx: Context, m: Matrix, a: seq<Term>, t: Term, b: seq<Term>)
    requires Valid(ctx) && AllAdmissible(a + [t] + b, ctx.field) && Shaped(m, Rows(ctx), Cols(ctx))
    requires SumFreq(PostingsOf(ctx.train, t)) == 0
    ensures Defined(EvidenceFor(ctx), a + b)
    ensures WorkerFold(EvidenceFor(ctx), m, a + [t] + b, Rows(ctx), Cols(ctx))
         == WorkerFold(EvidenceFor(ctx), m, a + b, Rows(ctx), Cols(ctx))
  {
    assert (a + [t] + b)[|a|] == t;
    assert Estimable(ctx.train, ctx.field, t);
    WorkerSkipsNone(EvidenceFor(ctx), m, a, t, b, Rows(ctx), Cols(ctx));
  }

  /** Every term occurs (with positive total frequency) in every training
      document. */
  ghost predicate CoversAll(ctx: Context, terms: seq<Term>)
    requires Valid(ctx)
  {
    && (forall k :: 0 <= k < |terms| ==> SumFreq(PostingsOf(ctx.train, terms[k])) > 0)
    && (forall k, d :: 0 <= k < |terms| && 0 <= d < Rows(ctx) ==> d in DocSet(PostingsOf(ctx.train, terms[k])))
  }

  lemma {:induction false} FoldFromCovered(ctx: Context, m: Matrix, buf: seq<real>, terms: seq<Term>)
    requires Valid(ctx) && Shaped(m, Rows(ctx), Cols(ctx)) && |buf| == Rows(ctx)
    requires AllAdmissible(terms, ctx.field) && CoversAll(ctx, terms) && Rows(ctx) > 0
    ensures Defined(EvidenceFor(ctx), terms)
    ensures FoldFrom(ctx, m, buf, terms) == WorkerFold(EvidenceFor(ctx), m, terms, Rows(ctx), Cols(ctx))
    decreases |terms|
  {
    var ev := EvidenceFor(ctx);
    assert Defined(ev, terms);
    if |terms| > 0 {
      var t := terms[0];
      var rest := terms[1..];
      assert forall k :: 0 <= k < |rest| ==> rest[k] == terms[k + 1];
      assert SumFreq(PostingsOf(ctx.train, t)) > 0;
      CoveredIgnoresBuffer(ctx.pow, ctx.train, ctx.field, t, buf);
      var e := EstimateInto(ctx.pow, ctx.train, ctx.field, t, buf);
      if e.Ok? {
        var m1 := Apply(m, Some(Evidence(e.value.value, Presence(ctx, t))), Rows(ctx), Cols(ctx));
        FoldFromCovered(ctx, m1, e.value.value, rest);
        assert ev(t) == Ok(Some(Evidence(e.value.value, Presence(ctx, t))));
        assert FoldFrom(ctx, m, buf, terms) == FoldFrom(ctx, m1, e.value.value, rest);
        assert WorkerFold(ev, m, terms, Rows(ctx), Cols(ctx)) == WorkerFold(ev, m1, rest, Rows(ctx), Cols(ctx));
      } else {
        assert FoldFrom(ctx, m, buf, terms) == Fail(e.fault);
        assert WorkerFold(ev, m, terms, Rows(ctx), Cols(ctx)) == Fail(e.fault);
      }
    }
  }

  /** When every training term occurs in every training document, the stale
      buffer is overwritten everywhere, and the as-written computation is the
      corrected one. */
  lemma StaleBufferHarmlessWhenCovered(ctx: Context)
    requires Valid(ctx) && CoversAll(ctx, TrainTerms(ctx)) && Rows(ctx) > 0
    ensures ComputePriorsAsWritten(ctx) == ComputePriorsCorrected(ctx)
  {
    FoldFromCovered(ctx, Ones(Rows(ctx), Cols(ctx)), Zeros(Rows(ctx)), TrainTerms(ctx));
  }

  // ---------------------------------------------------------------------------
  // The stale buffer, on a concrete pair of indices

  /** Two training documents whose title fields hold "a a" and "b", and one
      test document whose title holds "a". */
  function StaleExample(pow: Pow): Context {
    Context(pow, StaleTestIndex(), StaleTrainIndex(), "title")
  }

  function StaleTestIndex(): Index {
    Index(1, [TermEntry(Term("title", "a"), [Posting(0, 1)])], [map[]])
  }

  function StaleTrainIndex(): Index {
    Index(2, [TermEntry(Term("title", "a"), [Posting(0, 2)]), TermEntry(Term("title", "b"), [Posting(1, 1)])],
          [map["title" := [2]], map["title" := [1]]])
  }

  lemma StaleTestFacts()
    ensures WellFormed(StaleTestIndex())
    ensures PostingsOf(StaleTestIndex(), Term("title", "a")) == [Posting(0, 1)]
    ensures PostingsOf(StaleTestIndex(), Term("title", "b")) == []
  {
  }

  lemma StaleTrainFacts()
    ensures WellFormed(StaleTrainIndex())
    ensures Vocabulary(StaleTrainIndex(), "title") == [Term("title", "a"), Term("title", "b")]
    ensures PostingsOf(StaleTrainIndex(), Term("title", "a")) == [Posting(0, 2)]
    ensures PostingsOf(StaleTrainIndex(), Term("title", "b")) == [Posting(1, 1)]
  {
    assert !ContainsNumber("a") && !ContainsNumber("b");
  }

  lemma ExampleIndices(pow: Pow)
    ensures Valid(StaleExample(pow))
    ensures TrainTerms(StaleExample(pow)) == [Term("title", "a"), Term("title", "b")]
    ensures PostingsOf(StaleExample(pow).train, Term("title", "a")) == [Posting(0, 2)]
    ensures PostingsOf(StaleExample(pow).train, Term("title", "b")) == [Posting(1, 1)]
    ensures Presence(StaleExample(pow), Term("title", "a")) == [0]
    ensures Presence(StaleExample(pow), Term("title", "b")) == [1]
  {
    StaleTestFacts();
    StaleTrainFacts();
    PresenceOfOne(StaleExample(pow), Term("title", "a"), [Posting(0, 1)]);
    PresenceOfOne(StaleExample(pow), Term("title", "b"), []);
  }

  /** Over a single test document, presence is 0 exactly when it holds the term. */
  lemma PresenceOfOne(ctx: Context, t: Term, ps: seq<Posting>)
    requires Valid(ctx) && Cols(ctx) == 1 && PostingsOf(ctx.test, t) == ps && |ps| <= 1
    ensures Presence(ctx, t) == (if |ps| == 1 then [0] else [1])
  {
    var a := Presence(ctx, t);
    if |ps| == 1 {
      assert 0 in DocSet(ps);
    } else {
      assert 0 !in DocSet(ps);
    }
  }

  lemma ExampleRates()
    ensures WellFormed(StaleTrainIndex())
    ensures DocLengths(StaleTrainIndex(), "title") == [2, 1]
    ensures Background(StaleTrainIndex(), "title", Term("title", "a")) == 2.0 / 3.0
    ensures Background(StaleTrainIndex(), "title", Term("title", "b")) == 1.0 / 3.0
  {
    var ix := StaleTrainIndex();
    StaleTrainFacts();
    assert TotalOccurrences(ix, 0, "title") == 2;
    assert TotalOccurrences(ix, 1, "title") == 1;
    assert CollectionSize(ix, "title") == 3;
  }

  /** A term with a single posting that makes up its whole document
      (pml = pavg = 1) gets the estimate 1^(1-R) * 1^R = 1 there. */
  lemma SinglePostingEstimate(pow: Pow, ix: Index, field: string, t: Term, buf: seq<real>, d: nat, tf: nat)
    requires JavaPow(pow) && WellFormed(ix) && Admissible(t, field) && |buf| == ix.numDocs
    requires PostingsOf(ix, t) == [Posting(d, tf)] && tf > 0
    requires d < ix.numDocs && DocLengths(ix, field)[d] == tf
    ensures EstimateInto(pow, ix, field, t, buf) == Ok(Some(FillZeros(buf[d := 1.0], Background(ix, field, t))))
  {
    var ps := PostingsOf(ix, t);
    var lens := DocLengths(ix, field);
    assert SumFreq(ps) == tf;
    assert PmlSum(lens, ps[1..]) == Ok(0.0);
    var av := ComputeAvgs(lens, ps).value;
    assert av.pavg == 1.0;
    assert PostingValue(pow, lens, av, ps[0]) == 1.0;
    var vals := seq(|ps|, k requires 0 <= k < |ps| => PostingValue(pow, lens, av, ps[k]));
    assert vals == [1.0];
    assert Scatter(buf, ps, vals) == buf[d := 1.0];
  }

  /** What the estimates of the example need to know of its training index. */
  ghost predicate StaleTrain(ix: Index) {
    && WellFormed(ix) && ix.numDocs == 2
    && Admissible(Term("title", "a"), "title") && Admissible(Term("title", "b"), "title")
    && PostingsOf(ix, Term("title", "a")) == [Posting(0, 2)]
    && PostingsOf(ix, Term("title", "b")) == [Posting(1, 1)]
    && DocLengths(ix, "title") == [2, 1]
    && Background(ix, "title", Term("title", "a")) == 2.0 / 3.0
    && Background(ix, "title", Term("title", "b")) == 1.0 / 3.0
  }

  lemma ExampleTrain(pow: Pow)
    ensures StaleTrain(StaleExample(pow).train)
  {
    ExampleIndices(pow);
    ExampleRates();
  }

  lemma EstimateAOn(pow: Pow, ix: Index)
    requires JavaPow(pow) && StaleTrain(ix)
    ensures EstimateInto(pow, ix, "title", Term("title", "a"), Zeros(2)) == Ok(Some([1.0, 2.0 / 3.0]))
    ensures FreshEstimate(pow, ix, "title", Term("title", "a")) == Ok(Some([1.0, 2.0 / 3.0]))
  {
    SinglePostingEstimate(pow, ix, "title", Term("title", "a"), Zeros(2), 0, 2);
    assert Zeros(2)[0 := 1.0] == [1.0, 0.0];
    assert FillZeros([1.0, 0.0], 2.0 / 3.0) == [1.0, 2.0 / 3.0];
  }

  lemma EstimateBOn(pow: Pow, ix: Index, buf: seq<real>)
    requires JavaPow(pow) && StaleTrain(ix) && buf == [1.0, 2.0 / 3.0]
    ensures EstimateInto(pow, ix, "title", Term("title", "b"), buf) == Ok(Some([1.0, 1.0]))
  {
    SinglePostingEstimate(pow, ix, "title", Term("title", "b"), buf, 1, 1);
    assert buf[1 := 1.0] == [1.0, 1.0];
    assert FillZeros([1.0, 1.0], 1.0 / 3.0) == [1.0, 1.0];
  }

  lemma FreshBOn(pow: Pow, ix: Index)
    requires JavaPow(pow) && StaleTrain(ix)
    ensures FreshEstimate(pow, ix, "title", Term("title", "b")) == Ok(Some([1.0 / 3.0, 1.0]))
  {
    SinglePostingEstimate(pow, ix, "title", Term("title", "b"), Zeros(2), 1, 1);
    assert Zeros(2)[1 := 1.0] == [0.0, 1.0];
    assert FillZeros([0.0, 1.0], 1.0 / 3.0) == [1.0 / 3.0, 1.0];
  }

  lemma ExampleEstimateA(pow: Pow)
    requires JavaPow(pow)
    ensures Valid(StaleExample(pow))
    ensures EstimateInto(pow, StaleExample(pow).train, "title", Term("title", "a"), Zeros(2)) == Ok(Some([1.0, 2.0 / 3.0]))
    ensures FreshEstimate(pow, StaleExample(pow).train, "title", Term("title", "a")) == Ok(Some([1.0, 2.0 / 3.0]))
  {
    ExampleIndices(pow);
    ExampleTrain(pow);
    EstimateAOn(pow, StaleExample(pow).train);
  }

  lemma ExampleEstimateB(pow: Pow)
    requires JavaPow(pow)
    ensures Valid(StaleExample(pow))
    ensures EstimateInto(pow, StaleExample(pow).train, "title", Term("title", "b"), [1.0, 2.0 / 3.0]) == Ok(Some([1.0, 1.0]))
  {
    ExampleIndices(pow);
    ExampleTrain(pow);
    EstimateBOn(pow, StaleExample(pow).train, [1.0, 2.0 / 3.0]);
  }

  lemma ExampleFreshB(pow: Pow)
    requires JavaPow(pow)
    ensures Valid(StaleExample(pow))
    ensures FreshEstimate(pow, StaleExample(pow).train, "title", Term("title", "b")) == Ok(Some([1.0 / 3.0, 1.0]))
  {
    ExampleIndices(pow);
    ExampleTrain(pow);
    FreshBOn(pow, StaleExample(pow).train);
  }

  /** The matrix of one test document against two training documents after
      two terms, the first held by the test document and the second not. */
  function TwoTermMatrix(mleA: seq<real>, mleB: seq<real>): (m: Matrix)
    ensures Shaped(m, 2, 1)
  {
    var m1 := Apply(Ones(2, 1), Some(Evidence(mleA, [0])), 2, 1);
    Apply(m1, Some(Evidence(mleB, [1])), 2, 1)
  }

  lemma TwoTermEntry(mleA: seq<real>, mleB: seq<real>, x: real, y: real)
    requires |mleA| == 2 && |mleB| == 2 && mleA[0] == x && mleB[0] == y
    ensures TwoTermMatrix(mleA, mleB)[0][0] == x * (1.0 - y)
  {
    var m1 := Apply(Ones(2, 1), Some(Evidence(mleA, [0])), 2, 1);
    assert Factor(Some(Evidence(mleA, [0])), 0, 0) == x;
    assert Factor(Some(Evidence(mleB, [1])), 0, 0) == 1.0 - y;
    assert m1[0][0] == x;
  }

  /** The as-written loop over a two-term vocabulary, both terms occurring. */
  lemma AsWrittenTwoTerms(ctx: Context, a: Term, b: Term, bufA: seq<real>, bufB: seq<real>)
    requires Valid(ctx) && TrainTerms(ctx) == [a, b]
    requires Rows(ctx) == 2 && Cols(ctx) == 1 && Presence(ctx, a) == [0] && Presence(ctx, b) == [1]
    requires EstimateInto(ctx.pow, ctx.train, ctx.field, a, Zeros(2)) == Ok(Some(bufA))
    requires EstimateInto(ctx.pow, ctx.train, ctx.field, b, bufA) == Ok(Some(bufB))
    ensures ComputePriorsAsWritten(ctx) == Ok(TwoTermMatrix(bufA, bufB))
  {
    var m1 := Apply(Ones(2, 1), Some(Evidence(bufA, [0])), 2, 1);
    var m2 := Apply(m1, Some(Evidence(bufB, [1])), 2, 1);
    assert [a, b] == [a] + [b] && [b] == [b] + [];
    FoldFromStep(ctx, Ones(2, 1), Zeros(2), a, [b], bufA);
    FoldFromStep(ctx, m1, bufA, b, [], bufB);
  }

  /** One step of the as-written loop, for a term with occurrences. */
  lemma FoldFromStep(ctx: Context, m: Matrix, buf: seq<real>, t: Term, rest: seq<Term>, next: seq<real>)
    requires Valid(ctx) && Shaped(m, Rows(ctx), Cols(ctx)) && |buf| == Rows(ctx)
    requires Admissible(t, ctx.field) && AllAdmissible(rest, ctx.field)
    requires EstimateInto(ctx.pow, ctx.train, ctx.field, t, buf) == Ok(Some(next))
    ensures AllAdmissible([t] + rest, ctx.field) && |next| == Rows(ctx)
    ensures FoldFrom(ctx, m, buf, [t] + rest)
         == FoldFrom(ctx, Apply(m, Some(Evidence(next, Presence(ctx, t))), Rows(ctx), Cols(ctx)), next, rest)
  {
    var terms := [t] + rest;
    assert terms[0] == t && terms[1..] == rest;
  }

  /** The corrected loop over a two-term vocabulary, both terms occurring. */
  lemma CorrectedTwoTerms(ctx: Context, a: Term, b: Term, mleA: seq<real>, mleB: seq<real>)
    requires Valid(ctx) && TrainTerms(ctx) == [a, b]
    requires Rows(ctx) == 2 && Cols(ctx) == 1 && Presence(ctx, a) == [0] && Presence(ctx, b) == [1]
    requires FreshEstimate(ctx.pow, ctx.train, ctx.field, a) == Ok(Some(mleA))
    requires FreshEstimate(ctx.pow, ctx.train, ctx.field, b) == Ok(Some(mleB))
    ensures ComputePriorsCorrected(ctx) == Ok(TwoTermMatrix(mleA, mleB))
  {
    var ev := EvidenceFor(ctx);
    assert ev(a) == Ok(Some(Evidence(mleA, [0])));
    assert ev(b) == Ok(Some(Evidence(mleB, [1])));
    WorkerFoldTwo(ev, Ones(2, 1), a, b, Some(Evidence(mleA, [0])), Some(Evidence(mleB, [1])), 2, 1);
  }

  /** The worker's loop over a two-term vocabulary. */
  lemma WorkerFoldTwo<T>(ev: T --> Outcome<Option<Evidence>>, m: Matrix, a: T, b: T,
                         ea: Option<Evidence>, eb: Option<Evidence>, rows: nat, cols: nat)
    requires Shaped(m, rows, cols) && ev.requires(a) && ev.requires(b)
    requires ev(a) == Ok(ea) && ev(b) == Ok(eb)
    ensures Defined(ev, [a, b])
    ensures WorkerFold(ev, m, [a, b], rows, cols) == Ok(Apply(Apply(m, ea, rows, cols), eb, rows, cols))
  {
    var m1 := Apply(m, ea, rows, cols);
    assert [a, b][0] == a && [a, b][1..] == [b] && [b][0] == b && [b][1..] == [];
    assert WorkerFold(ev, m1, [b], rows, cols) == WorkerFold(ev, Apply(m1, eb, rows, cols), [], rows, cols);
  }

  lemma ExampleAsWrittenMatrix(pow: Pow)
    requires JavaPow(pow)
    ensures Valid(StaleExample(pow))
    ensures ComputePriorsAsWritten(StaleExample(pow)) == Ok(TwoTermMatrix([1.0, 2.0 / 3.0], [1.0, 1.0]))
  {
    var ctx := StaleExample(pow);
    ExampleIndices(pow);
    ExampleEstimateA(pow);
    ExampleEstimateB(pow);
    AsWrittenTwoTerms(ctx, Term("title", "a"), Term("title", "b"), [1.0, 2.0 / 3.0], [1.0, 1.0]);
  }

  lemma ExampleCorrectedMatrix(pow: Pow)
    requires JavaPow(pow)
    ensures Valid(StaleExample(pow))
    ensures ComputePriorsCorrected(StaleExample(pow)) == Ok(TwoTermMatrix([1.0, 2.0 / 3.0], [1.0 / 3.0, 1.0]))
  {
    var ctx := StaleExample(pow);
    ExampleIndices(pow);
    ExampleEstimateA(pow);
    ExampleFreshB(pow);
    CorrectedTwoTerms(ctx, Term("title", "a"), Term("title", "b"), [1.0, 2.0 / 3.0], [1.0 / 3.0, 1.0]);
  }

  /** Training document 0 never holds "b", so its estimate for "b" should be
      the background rate 1/3 and the test document's score against it
      1 * (1 - 1/3).  As written, the buffer still holds 1.0 from "a" there,
      and the score is 1 * (1 - 1) = 0. */
  lemma ExampleEntries()
    ensures TwoTermMatrix([1.0, 2.0 / 3.0], [1.0, 1.0])[0][0] == 0.0
    ensures TwoTermMatrix([1.0, 2.0 / 3.0], [1.0 / 3.0, 1.0])[0][0] == 2.0 / 3.0
  {
    TwoTermEntry([1.0, 2.0 / 3.0], [1.0, 1.0], 1.0, 1.0);
    TwoTermEntry([1.0, 2.0 / 3.0], [1.0 / 3.0, 1.0], 1.0, 1.0 / 3.0);
  }

  lemma StaleBufferCounterexample(pow: Pow)
    requires JavaPow(pow)
    ensures Valid(StaleExample(pow))
    ensures var w := ComputePriorsAsWritten(StaleExample(pow)); w.Ok? && w.value[0][0] == 0.0
    ensures var c := ComputePriorsCorrected(StaleExample(pow)); c.Ok? && c.value[0][0] == 2.0 / 3.0
  {
    ExampleAsWrittenMatrix(pow);
    ExampleCorrectedMatrix(pow);
    ExampleEntries();
  }
}
