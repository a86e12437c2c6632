/** The work split of the parallel prior computation, independent of how a
    term's evidence is computed.

    The vocabulary of n terms is cut into p chunks of ceil(n / p) terms;
    worker k, started only when k * chunkSize < n, folds its inclusive range
    into a private all-1.0 matrix and the partial matrices are multiplied
    entry by entry in worker order.  A worker that meets an exception ends
    the process, and so does a partial matrix holding an entry 0.0.

    `ChunkedIsSequential` shows that for any p >= 1 this is the fold of the
    whole vocabulary by one worker, guarded by the 0.0 check.  The evidence of
    a term is a parameter `ev`, a partial function defined on the terms the
    caller hands over.
 */
module ChunkedFold {
  import opened Wrappers
  import opened ScoreMatrix

  // ---------------------------------------------------------------------------
  // Ranges

  /** (int) Math.ceil((double) numTerms / numThreads): the least c with
      c * p >= n. */
  function ChunkSize(n: nat, p: nat): (c: nat)
    requires p > 0
    ensures c * p >= n
    ensures c > 0 ==> (c - 1) * p < n
  {
    var c := (n + p - 1) / p;
    assert n + p - 1 == c * p + (n + p - 1) % p;
    assert (c - 1) * p == c * p - p;
    c
  }

  /** Worker k is started only when its first index lies inside the
      vocabulary; it then folds the inclusive range [from, to]. */
  function WorkerRange(k: nat, n: nat, p: nat): (r: Option<(nat, nat)>)
    requires p > 0
    ensures r.Some? <==> k * ChunkSize(n, p) < n
    ensures r.Some? ==> r.value.0 == k * ChunkSize(n, p) && r.value.0 <= r.value.1 < n
  {
    var cs := ChunkSize(n, p);
    var from := k * cs;
    if from < n then
      assert cs > 0;
      var to := from + cs - 1;
      Some((from, if to < n then to else n - 1))
    else None
  }

  lemma MulMono(a: nat, b: nat, c: nat)
    requires a <= b
    ensures a * c <= b * c
  {
  }

  lemma MulCancel(a: nat, b: nat, c: nat)
    requires a * c < b * c
    ensures a < b
  {
  }

  /** The worker whose range holds index i. */
  function ChunkOf(i: nat, n: nat, p: nat): nat
    requires p > 0 && i < n
  {
    i / ChunkSize(n, p)
  }

  /** Index i lies in the range of a started worker k. */
  ghost predicate Covers(k: nat, n: nat, p: nat, i: nat)
    requires p > 0
  {
    WorkerRange(k, n, p).Some? && WorkerRange(k, n, p).value.0 <= i <= WorkerRange(k, n, p).value.1
  }

  lemma ChunkOfBounds(i: nat, n: nat, p: nat)
    requires p > 0 && i < n
    ensures ChunkOf(i, n, p) < p
    ensures ChunkOf(i, n, p) * ChunkSize(n, p) <= i < (ChunkOf(i, n, p) + 1) * ChunkSize(n, p)
  {
    var cs := ChunkSize(n, p);
    var k := i / cs;
    assert i == k * cs + i % cs;
    assert (k + 1) * cs == k * cs + cs;
    assert k * cs < p * cs;
    MulCancel(k, p, cs);
  }

  /** The started workers' ranges are pairwise disjoint and together cover
      every index of the vocabulary: index i belongs to worker i / chunkSize. */
  lemma WorkerRangesPartition(n: nat, p: nat)
    requires p > 0
    ensures forall k1, k2 :: 0 <= k1 < k2 < p && WorkerRange(k1, n, p).Some? && WorkerRange(k2, n, p).Some? ==>
              WorkerRange(k1, n, p).value.1 < WorkerRange(k2, n, p).value.0
    ensures forall i :: 0 <= i < n ==> ChunkOf(i, n, p) < p && Covers(ChunkOf(i, n, p), n, p, i)
  {
    var cs := ChunkSize(n, p);
    forall k1, k2 | 0 <= k1 < k2 < p && WorkerRange(k1, n, p).Some? && WorkerRange(k2, n, p).Some?
      ensures WorkerRange(k1, n, p).value.1 < WorkerRange(k2, n, p).value.0
    {
      MulMono(k1 + 1, k2, cs);
      assert (k1 + 1) * cs == k1 * cs + cs;
    }
    forall i | 0 <= i < n
      ensures ChunkOf(i, n, p) < p && Covers(ChunkOf(i, n, p), n, p, i)
    {
      ChunkOfBounds(i, n, p);
    }
  }

  /** Where chunk k begins when the vocabulary is read as consecutive chunks;
      Lo(p) is the end of the vocabulary. */
  function Lo(k: nat, n: nat, p: nat): (r: nat)
    requires p > 0
    ensures r <= n
  {
    if k * ChunkSize(n, p) < n then k * ChunkSize(n, p) else n
  }

  lemma LoFacts(k: nat, n: nat, p: nat)
    requires p > 0
    ensures Lo(0, n, p) == 0
    ensures Lo(k, n, p) <= Lo(k + 1, n, p)
    ensures Lo(p, n, p) == n
  {
    var cs := ChunkSize(n, p);
    assert (k + 1) * cs == k * cs + cs;
    assert p * cs == cs * p;
  }

  /** A started worker's range is [Lo(k), Lo(k+1)); a worker that is not
      started has the empty range Lo(k) == Lo(k+1). */
  lemma RangeIsChunk(k: nat, n: nat, p: nat)
    requires p > 0
    ensures WorkerRange(k, n, p).Some? ==>
              WorkerRange(k, n, p).value.0 == Lo(k, n, p) && WorkerRange(k, n, p).value.1 + 1 == Lo(k + 1, n, p)
    ensures WorkerRange(k, n, p).None? ==> Lo(k, n, p) == Lo(k + 1, n, p)
  {
    var cs := ChunkSize(n, p);
    assert (k + 1) * cs == k * cs + cs;
  }

  /** Every index of the vocabulary lies in the chunk i / ChunkSize. */
  lemma IndexInChunk(i: nat, n: nat, p: nat)
    requires p > 0 && i < n
    ensures ChunkOf(i, n, p) < p && Lo(ChunkOf(i, n, p), n, p) <= i < Lo(ChunkOf(i, n, p) + 1, n, p)
  {
    ChunkOfBounds(i, n, p);
  }

  // ---------------------------------------------------------------------------
  // One worker

  /** The evidence function is defined on every term of the sequence. */
  ghost predicate Defined<T>(ev: T --> Outcome<Option<Evidence>>, terms: seq<T>) {
    forall k :: 0 <= k < |terms| ==> ev.requires(terms[k])
  }

  /** Every term of the sequence yields its evidence without a fault. */
  ghost predicate AllOk<T>(ev: T --> Outcome<Option<Evidence>>, terms: seq<T>)
    requires Defined(ev, terms)
  {
    forall k :: 0 <= k < |terms| ==> ev(terms[k]).Ok?
  }

  /** The evidence of each term, in order. */
  function EvidenceSeq<T>(ev: T --> Outcome<Option<Evidence>>, terms: seq<T>): (es: seq<Option<Evidence>>)
    requires Defined(ev, terms) && AllOk(ev, terms)
    ensures |es| == |terms|
    ensures forall k :: 0 <= k < |terms| ==> Some(es[k]) == Some(ev(terms[k]).value)
  {
    seq(|terms|, k requires 0 <= k < |terms| => ev(terms[k]).value)
  }

  /** A worker's loop: the terms folded into its matrix one after the other,
      stopping at the first fault. */
  function WorkerFold<T>(ev: T --> Outcome<Option<Evidence>>, m: Matrix, terms: seq<T>, rows: nat, cols: nat): (r: Outcome<Matrix>)
    requires Defined(ev, terms) && Shaped(m, rows, cols)
    ensures r.Ok? <==> AllOk(ev, terms)
    ensures r.Ok? ==> Shaped(r.value, rows, cols)
    decreases |terms|
  {
    if |terms| == 0 then Ok(m)
    else
      assert forall k :: 1 <= k < |terms| ==> terms[k] == terms[1..][k - 1];
      var e :- ev(terms[0]);
      WorkerFold(ev, Apply(m, e, rows, cols), terms[1..], rows, cols)
  }

  /** The worker's term-by-term loop is the multiplicative fold of the terms'
      evidence. */
  lemma {:induction false} WorkerFoldIsFold<T>(ev: T --> Outcome<Option<Evidence>>, m: Matrix, terms: seq<T>, rows: nat, cols: nat)
    requires Defined(ev, terms) && Shaped(m, rows, cols) && AllOk(ev, terms)
    ensures WorkerFold(ev, m, terms, rows, cols) == Ok(Fold(m, EvidenceSeq(ev, terms), rows, cols))
    decreases |terms|
  {
    if |terms| > 0 {
      var tail := terms[1..];
      assert forall k :: 0 <= k < |tail| ==> tail[k] == terms[k + 1];
      var es := EvidenceSeq(ev, terms);
      assert es[1..] == EvidenceSeq(ev, tail);
      WorkerFoldIsFold(ev, Apply(m, es[0], rows, cols), tail, rows, cols);
    }
  }

  lemma DefinedSlice<T>(ev: T --> Outcome<Option<Evidence>>, terms: seq<T>, a: nat, b: nat)
    requires Defined(ev, terms) && a <= b <= |terms|
    ensures Defined(ev, terms[a..b])
    ensures AllOk(ev, terms) ==> AllOk(ev, terms[a..b]) && EvidenceSeq(ev, terms[a..b]) == EvidenceSeq(ev, terms)[a..b]
  {
    assert forall k :: 0 <= k < b - a ==> terms[a..b][k] == terms[a + k];
  }

  /** A term without evidence leaves a worker's matrix as it is, wherever it
      sits in the range. */
  lemma {:induction false} WorkerSkipsNone<T>(ev: T --> Outcome<Option<Evidence>>, m: Matrix, a: seq<T>, t: T, b: seq<T>, rows: nat, cols: nat)
    requires Defined(ev, a + [t] + b) && Shaped(m, rows, cols)
    requires ev.requires(t) && ev(t) == Ok(None)
    ensures Defined(ev, a + b)
    ensures WorkerFold(ev, m, a + [t] + b, rows, cols) == WorkerFold(ev, m, a + b, rows, cols)
    decreases |a|
  {
    var with := a + [t] + b;
    forall k | 0 <= k < |a + b|
      ensures ev.requires((a + b)[k])
    {
      if k < |a| { assert (a + b)[k] == with[k]; } else { assert (a + b)[k] == with[k + 1]; }
    }
    if |a| == 0 {
      assert with[1..] == b && a + b == b;
    } else {
      assert with[0] == a[0] && with[1..] == a[1..] + [t] + b;
      assert (a + b)[0] == a[0] && (a + b)[1..] == a[1..] + b;
      match ev(a[0])
      case Fail(f) =>
        assert WorkerFold(ev, m, with, rows, cols) == Fail(f);
        assert WorkerFold(ev, m, a + b, rows, cols) == Fail(f);
      case Ok(e) =>
        WorkerSkipsNone(ev, Apply(m, e, rows, cols), a[1..], t, b, rows, cols);
    }
  }

  // ---------------------------------------------------------------------------
  // Partial matrices and their reduction

  /** An exception in a worker, like System.exit, ends the whole process. */
  function Exit(o: Outcome<Matrix>): (r: Outcome<Matrix>)
    ensures r.Ok? <==> o.Ok?
    ensures r.Ok? ==> r.value == o.value
    ensures r.Fail? ==> r.fault == ProcessExit
  {
    match o
    case Fail(_) => Fail(ProcessExit)
    case Ok(m) => Ok(m)
  }

  /** modelScores[k] after the join: worker k's fold over its range, or the
      untouched all-1.0 matrix when worker k was not started. */
  function Partial<T>(ev: T --> Outcome<Option<Evidence>>, terms: seq<T>, k: nat, p: nat, rows: nat, cols: nat): (r: Outcome<Matrix>)
    requires Defined(ev, terms) && p > 0
    ensures r.Ok? ==> Shaped(r.value, rows, cols)
  {
    match WorkerRange(k, |terms|, p)
    case None => Ok(Ones(rows, cols))
    case Some(range) =>
      DefinedSlice(ev, terms, range.0, range.1 + 1);
      Exit(WorkerFold(ev, Ones(rows, cols), terms[range.0 .. range.1 + 1], rows, cols))
  }

  /** finalModelScores: 1.0 multiplied, worker after worker, by each partial
      matrix. */
  function Reduce(ms: seq<Matrix>, rows: nat, cols: nat): (r: Matrix)
    requires forall k :: 0 <= k < |ms| ==> Shaped(ms[k], rows, cols)
    ensures Shaped(r, rows, cols)
  {
    if |ms| == 0 then Ones(rows, cols)
    else Hadamard(Reduce(ms[..|ms| - 1], rows, cols), ms[|ms| - 1], rows, cols)
  }

  /** The outcome of every worker, in worker order. */
  function Partials<T>(ev: T --> Outcome<Option<Evidence>>, terms: seq<T>, p: nat, rows: nat, cols: nat): (outs: seq<Outcome<Matrix>>)
    requires Defined(ev, terms) && p > 0
    ensures |outs| == p
    ensures forall k :: 0 <= k < p ==> outs[k] == Partial(ev, terms, k, p, rows, cols)
  {
    seq(p, k requires 0 <= k < p => Partial(ev, terms, k, p, rows, cols))
  }

  /** The matrices of workers none of which stopped. */
  function Matrices(outs: seq<Outcome<Matrix>>): (ms: seq<Matrix>)
    requires forall k :: 0 <= k < |outs| ==> outs[k].Ok?
    ensures |ms| == |outs|
    ensures forall k :: 0 <= k < |outs| ==> outs[k] == Ok(ms[k])
  {
    seq(|outs|, k requires 0 <= k < |outs| => outs[k].value)
  }

  /** The run with p workers: it stops if any worker stops or any partial
      matrix holds 0.0, and otherwise yields the reduced matrix. */
  function Chunked<T>(ev: T --> Outcome<Option<Evidence>>, terms: seq<T>, p: nat, rows: nat, cols: nat): (r: Outcome<Matrix>)
    requires Defined(ev, terms) && p > 0
    ensures r.Ok? ==> Shaped(r.value, rows, cols)
    ensures r.Fail? ==> r.fault == ProcessExit
  {
    var outs := Partials(ev, terms, p, rows, cols);
    if exists k :: 0 <= k < p && outs[k].Fail? then Fail(ProcessExit)
    else
      var ms := Matrices(outs);
      if exists k, i, j :: 0 <= k < p && 0 <= i < rows && 0 <= j < cols && ms[k][i][j] == 0.0 then
        Fail(ProcessExit)
      else
        Ok(Reduce(ms, rows, cols))
  }

  // ---------------------------------------------------------------------------
  // The sequential reference and the chunking theorem

  /** One worker folding the whole vocabulary. */
  function Sequential<T>(ev: T --> Outcome<Option<Evidence>>, terms: seq<T>, rows: nat, cols: nat): (r: Outcome<Matrix>)
    requires Defined(ev, terms)
    ensures r.Ok? <==> AllOk(ev, terms)
    ensures r.Ok? ==> Shaped(r.value, rows, cols)
  {
    Exit(WorkerFold(ev, Ones(rows, cols), terms, rows, cols))
  }

  /** The run stops when the matrix has an entry exactly 0.0. */
  function ZeroGuard(o: Outcome<Matrix>, rows: nat, cols: nat): (r: Outcome<Matrix>)
    requires o.Ok? ==> Shaped(o.value, rows, cols)
    ensures r.Ok? <==> o.Ok? && forall i, j :: 0 <= i < rows && 0 <= j < cols ==> o.value[i][j] != 0.0
    ensures r.Ok? ==> r.value == o.value
    ensures r.Fail? && o.Fail? ==> r.fault == o.fault
  {
    match o
    case Fail(f) => Fail(f)
    case Ok(m) =>
      if exists i, j :: 0 <= i < rows && 0 <= j < cols && m[i][j] == 0.0 then Fail(ProcessExit) else Ok(m)
  }

  /** An entry of the reduced matrix is 0.0 exactly when some partial matrix
      holds 0.0 there. */
  lemma {:induction false} ReduceZero(ms: seq<Matrix>, rows: nat, cols: nat, i: nat, j: nat)
    requires forall k :: 0 <= k < |ms| ==> Shaped(ms[k], rows, cols)
    requires i < rows && j < cols
    ensures Reduce(ms, rows, cols)[i][j] == 0.0 <==> exists k :: 0 <= k < |ms| && ms[k][i][j] == 0.0
    decreases |ms|
  {
    if |ms| > 0 {
      var init := ms[..|ms| - 1];
      ReduceZero(init, rows, cols, i, j);
      var x := Reduce(init, rows, cols)[i][j];
      var y := ms[|ms| - 1][i][j];
      assert Reduce(ms, rows, cols)[i][j] == x * y;
      ProductZero(x, y);
      assert forall k :: 0 <= k < |init| ==> init[k] == ms[k];
    }
  }

  lemma ProductZero(x: real, y: real)
    ensures x * y == 0.0 <==> x == 0.0 || y == 0.0
  {
  }

  /** Worker k's outcome is the fold of the chunk [Lo(k), Lo(k+1)). */
  lemma PartialIsChunk<T>(ev: T --> Outcome<Option<Evidence>>, terms: seq<T>, k: nat, p: nat, rows: nat, cols: nat)
    requires Defined(ev, terms) && p > 0
    ensures Lo(k, |terms|, p) <= Lo(k + 1, |terms|, p)
    ensures Defined(ev, terms[Lo(k, |terms|, p) .. Lo(k + 1, |terms|, p)])
    ensures Partial(ev, terms, k, p, rows, cols)
         == Exit(WorkerFold(ev, Ones(rows, cols), terms[Lo(k, |terms|, p) .. Lo(k + 1, |terms|, p)], rows, cols))
  {
    var n := |terms|;
    LoFacts(k, n, p);
    RangeIsChunk(k, n, p);
    DefinedSlice(ev, terms, Lo(k, n, p), Lo(k + 1, n, p));
  }

  /** With every term fine, worker k's matrix is the fold of its chunk of
      the evidence. */
  lemma PartialFold<T>(ev: T --> Outcome<Option<Evidence>>, terms: seq<T>, k: nat, p: nat, rows: nat, cols: nat)
    requires Defined(ev, terms) && AllOk(ev, terms) && p > 0
    ensures Lo(k, |terms|, p) <= Lo(k + 1, |terms|, p)
    ensures Partial(ev, terms, k, p, rows, cols)
         == Ok(Fold(Ones(rows, cols), EvidenceSeq(ev, terms)[Lo(k, |terms|, p) .. Lo(k + 1, |terms|, p)], rows, cols))
  {
    var n := |terms|;
    var lo, hi := Lo(k, n, p), Lo(k + 1, n, p);
    PartialIsChunk(ev, terms, k, p, rows, cols);
    DefinedSlice(ev, terms, lo, hi);
    WorkerFoldIsFold(ev, Ones(rows, cols), terms[lo..hi], rows, cols);
  }

  /** One more partial matrix extends the folded prefix by its chunk. */
  lemma ReduceStep(ms: seq<Matrix>, k: nat, es: seq<Option<Evidence>>, lo: nat, hi: nat, rows: nat, cols: nat)
    requires 0 < k <= |ms| && lo <= hi <= |es|
    requires forall c :: 0 <= c < |ms| ==> Shaped(ms[c], rows, cols)
    requires Reduce(ms[..k - 1], rows, cols) == Fold(Ones(rows, cols), es[..lo], rows, cols)
    requires ms[k - 1] == Fold(Ones(rows, cols), es[lo..hi], rows, cols)
    ensures Reduce(ms[..k], rows, cols) == Fold(Ones(rows, cols), es[..hi], rows, cols)
  {
    assert ms[..k][..k - 1] == ms[..k - 1];
    assert ms[..k][k - 1] == ms[k - 1];
    FoldSplit(es[..lo], es[lo..hi], rows, cols);
    assert es[..lo] + es[lo..hi] == es[..hi];
  }

  /** The partial matrices of the first k workers multiply to the fold of
      the vocabulary's first Lo(k) terms. */
  lemma {:induction false} ReducePrefix<T>(ev: T --> Outcome<Option<Evidence>>, terms: seq<T>, p: nat, ms: seq<Matrix>, k: nat, rows: nat, cols: nat)
    requires Defined(ev, terms) && AllOk(ev, terms) && p > 0
    requires |ms| == p && k <= p
    requires forall c :: 0 <= c < p ==> Partial(ev, terms, c, p, rows, cols) == Ok(ms[c])
    ensures forall c :: 0 <= c < |ms| ==> Shaped(ms[c], rows, cols)
    ensures Reduce(ms[..k], rows, cols) == Fold(Ones(rows, cols), EvidenceSeq(ev, terms)[..Lo(k, |terms|, p)], rows, cols)
    decreases k
  {
    var n := |terms|;
    var es := EvidenceSeq(ev, terms);
    assert forall c :: 0 <= c < p ==> Shaped(ms[c], rows, cols);
    if k == 0 {
      LoFacts(0, n, p);
      assert es[..0] == [] && ms[..0] == [];
    } else {
      ReducePrefix(ev, terms, p, ms, k - 1, rows, cols);
      PartialFold(ev, terms, k - 1, p, rows, cols);
      ReduceStep(ms, k, es, Lo(k - 1, n, p), Lo(k, n, p), rows, cols);
    }
  }

  /** Some worker stops the run exactly when some term of the vocabulary
      meets a fault. */
  lemma ChunksFailTogether<T>(ev: T --> Outcome<Option<Evidence>>, terms: seq<T>, p: nat, rows: nat, cols: nat)
    requires Defined(ev, terms) && p > 0
    ensures (exists k :: 0 <= k < p && Partial(ev, terms, k, p, rows, cols).Fail?) <==> !AllOk(ev, terms)
  {
    var n := |terms|;
    if !AllOk(ev, terms) {
      var i :| 0 <= i < n && ev(terms[i]).Fail?;
      IndexInChunk(i, n, p);
      var k := ChunkOf(i, n, p);
      PartialIsChunk(ev, terms, k, p, rows, cols);
      var lo := Lo(k, n, p);
      var slice := terms[lo .. Lo(k + 1, n, p)];
      assert slice[i - lo] == terms[i];
      assert !AllOk(ev, slice);
      assert Partial(ev, terms, k, p, rows, cols).Fail?;
    } else {
      forall k | 0 <= k < p
        ensures Partial(ev, terms, k, p, rows, cols).Ok?
      {
        PartialIsChunk(ev, terms, k, p, rows, cols);
        DefinedSlice(ev, terms, Lo(k, n, p), Lo(k + 1, n, p));
      }
    }
  }

  /** With every term fine, the reduced partial matrices are the sequential
      fold, and a partial 0.0 entry shows up in it. */
  lemma ReduceIsSequential<T>(ev: T --> Outcome<Option<Evidence>>, terms: seq<T>, p: nat, ms: seq<Matrix>, rows: nat, cols: nat)
    requires Defined(ev, terms) && AllOk(ev, terms) && p > 0
    requires |ms| == p
    requires forall c :: 0 <= c < p ==> Partial(ev, terms, c, p, rows, cols) == Ok(ms[c])
    ensures forall c :: 0 <= c < |ms| ==> Shaped(ms[c], rows, cols)
    ensures Sequential(ev, terms, rows, cols) == Ok(Reduce(ms, rows, cols))
    ensures forall i, j :: 0 <= i < rows && 0 <= j < cols ==>
              (Reduce(ms, rows, cols)[i][j] == 0.0 <==> exists k :: 0 <= k < p && ms[k][i][j] == 0.0)
  {
    var n := |terms|;
    ReducePrefix(ev, terms, p, ms, p, rows, cols);
    LoFacts(p, n, p);
    assert ms[..p] == ms;
    var es := EvidenceSeq(ev, terms);
    assert es[..n] == es;
    WorkerFoldIsFold(ev, Ones(rows, cols), terms, rows, cols);
    forall i, j | 0 <= i < rows && 0 <= j < cols
      ensures Reduce(ms, rows, cols)[i][j] == 0.0 <==> exists k :: 0 <= k < p && ms[k][i][j] == 0.0
    {
      ReduceZero(ms, rows, cols, i, j);
    }
  }

  /** The chunked, multi-worker run agrees with one worker folding the whole
      vocabulary: the same matrix when it succeeds, and it stops exactly when
      the sequential fold stops or has an entry 0.0. */
  lemma ChunkedIsSequential<T>(ev: T --> Outcome<Option<Evidence>>, terms: seq<T>, p: nat, rows: nat, cols: nat)
    requires Defined(ev, terms) && p > 0
    ensures Chunked(ev, terms, p, rows, cols) == ZeroGuard(Sequential(ev, terms, rows, cols), rows, cols)
  {
    var outs := Partials(ev, terms, p, rows, cols);
    ChunksFailTogether(ev, terms, p, rows, cols);
    if AllOk(ev, terms) {
      assert forall k :: 0 <= k < p ==> outs[k].Ok?;
      var ms := Matrices(outs);
      ReduceIsSequential(ev, terms, p, ms, rows, cols);
      ZeroSomewhere(ms, Reduce(ms, rows, cols), p, rows, cols);
    }
  }

  /** The reduced matrix has a 0.0 entry exactly when some partial matrix has
      one. */
  lemma ZeroSomewhere(ms: seq<Matrix>, whole: Matrix, p: nat, rows: nat, cols: nat)
    requires |ms| == p && Shaped(whole, rows, cols)
    requires forall c :: 0 <= c < p ==> |ms[c]| == rows && forall i :: 0 <= i < rows ==> |ms[c][i]| == cols
    requires forall i, j :: 0 <= i < rows && 0 <= j < cols ==>
               (whole[i][j] == 0.0 <==> exists k :: 0 <= k < p && ms[k][i][j] == 0.0)
    ensures (exists k, i, j :: 0 <= k < p && 0 <= i < rows && 0 <= j < cols && ms[k][i][j] == 0.0)
        <==> (exists i, j :: 0 <= i < rows && 0 <= j < cols && whole[i][j] == 0.0)
  {
    if exists k, i, j :: 0 <= k < p && 0 <= i < rows && 0 <= j < cols && ms[k][i][j] == 0.0 {
      var k, i, j :| 0 <= k < p && 0 <= i < rows && 0 <= j < cols && ms[k][i][j] == 0.0;
      assert whole[i][j] == 0.0;
    }
  }
}
