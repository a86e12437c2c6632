/** The (training document x test document) score matrix of one field and the
    multiplicative fold that builds it.  Every vocabulary term contributes
    one factor per entry: the term's estimate for the training document when
    the test document holds the term, its complement when it does not, and
    nothing (a factor 1.0) when the term has no estimate.  The lemmas show the
    fold is the entry-wise product of those factors, which is what makes the
    vocabulary splittable into independently folded chunks.
 */
module ScoreMatrix {
  import opened Wrappers
  import opened TermIndex

  type Matrix = seq<seq<real>>

  ghost predicate Shaped(m: Matrix, rows: nat, cols: nat) {
    |m| == rows && forall i :: 0 <= i < rows ==> |m[i]| == cols
  }

  /** The neutral matrix every build starts from. */
  function Ones(rows: nat, cols: nat): (m: Matrix)
    ensures Shaped(m, rows, cols)
    ensures forall i, j :: 0 <= i < rows && 0 <= j < cols ==> m[i][j] == 1.0
  {
    seq(rows, i => seq(cols, j => 1.0))
  }

  /** Two matrices of one shape that agree entry by entry are equal. */
  lemma MatrixExt(a: Matrix, b: Matrix, rows: nat, cols: nat)
    requires Shaped(a, rows, cols) && Shaped(b, rows, cols)
    requires forall i, j :: 0 <= i < rows && 0 <= j < cols ==> a[i][j] == b[i][j]
    ensures a == b
  {
    forall i | 0 <= i < rows
      ensures a[i] == b[i]
    {
      assert forall j :: 0 <= j < cols ==> a[i][j] == b[i][j];
    }
  }

  // ---------------------------------------------------------------------------
  // Presence of a term in the test documents

  function MarkPresent(a: seq<nat>, ps: seq<Posting>): (r: seq<nat>)
    requires PostingsWithin(ps, |a|)
    ensures |r| == |a|
    ensures forall q :: 0 <= q < |a| && q in DocSet(ps) ==> r[q] == 0
    ensures forall q :: 0 <= q < |a| && q !in DocSet(ps) ==> r[q] == a[q]
    decreases |ps|
  {
    if |ps| == 0 then a
    else
      var r := MarkPresent(a[ps[0].doc := 0], ps[1..]);
      assert forall q :: q in DocSet(ps) ==> q == ps[0].doc || q in DocSet(ps[1..]) by {
        forall q | q in DocSet(ps) ensures q == ps[0].doc || q in DocSet(ps[1..]) {
          var k :| 0 <= k < |ps| && ps[k].doc == q;
          if k > 0 {
            assert ps[1..][k - 1].doc == q;
          }
        }
      }
      assert forall q :: q in DocSet(ps[1..]) ==> q in DocSet(ps) by {
        forall q | q in DocSet(ps[1..]) ensures q in DocSet(ps) {
          var k :| 0 <= k < |ps[1..]| && ps[1..][k].doc == q;
          assert ps[k + 1].doc == q;
        }
      }
      r
  }

  /** termDocsArr: 1 everywhere, then 0 at every test document of the
      postings; so 0 exactly where the test document holds the term. */
  function PresenceArray(n: nat, ps: seq<Posting>): (a: seq<nat>)
    requires PostingsWithin(ps, n)
    ensures |a| == n
    ensures forall q :: 0 <= q < n ==> a[q] <= 1
    ensures forall q :: 0 <= q < n ==> (a[q] == 0 <==> q in DocSet(ps))
  {
    MarkPresent(seq(n, q => 1), ps)
  }

  // ---------------------------------------------------------------------------
  // One term's contribution

  /** A term's estimate for every training document, and its presence array
      over the test documents. */
  datatype Evidence = Evidence(mle: seq<real>, presence: seq<nat>)

  ghost predicate Fits(e: Option<Evidence>, rows: nat, cols: nat) {
    e.Some? ==> |e.value.mle| >= rows && |e.value.presence| == cols
  }

  ghost predicate AllFit(es: seq<Option<Evidence>>, rows: nat, cols: nat) {
    forall k :: 0 <= k < |es| ==> Fits(es[k], rows, cols)
  }

  /** score[presence[j]] with score = {mle[i], 1 - mle[i]}; 1.0 for a term
      without estimate.  Evidence built by the index builders always covers
      the entry it is asked about (`Fits`); an entry it does not cover counts
      as no evidence. */
  function Factor(e: Option<Evidence>, i: nat, j: nat): real {
    match e
    case None => 1.0
    case Some(ev) =>
      if i < |ev.mle| && j < |ev.presence| then
        (if ev.presence[j] == 0 then ev.mle[i] else 1.0 - ev.mle[i])
      else 1.0
  }

  /** Multiplies every entry by the term's factor; a term without estimate
      leaves the matrix as it is. */
  function Apply(m: Matrix, e: Option<Evidence>, rows: nat, cols: nat): (r: Matrix)
    requires Shaped(m, rows, cols)
    ensures Shaped(r, rows, cols)
    ensures forall i, j :: 0 <= i < rows && 0 <= j < cols ==> r[i][j] == m[i][j] * Factor(e, i, j)
    ensures e.None? ==> r == m
  {
    match e
    case None => m
    case Some(_) =>
      seq(rows, i requires 0 <= i < rows =>
        seq(cols, j requires 0 <= j < cols => m[i][j] * Factor(e, i, j)))
  }

  /** The terms folded in vocabulary order. */
  function Fold(m: Matrix, es: seq<Option<Evidence>>, rows: nat, cols: nat): (r: Matrix)
    requires Shaped(m, rows, cols)
    ensures Shaped(r, rows, cols)
    decreases |es|
  {
    if |es| == 0 then m
    else Fold(Apply(m, es[0], rows, cols), es[1..], rows, cols)
  }

  /** The factors of entry (i, j), one per term. */
  function Factors(es: seq<Option<Evidence>>, i: nat, j: nat): (fs: seq<real>)
    ensures |fs| == |es| && forall k :: 0 <= k < |es| ==> fs[k] == Factor(es[k], i, j)
  {
    seq(|es|, k requires 0 <= k < |es| => Factor(es[k], i, j))
  }

  /** A product taken left to right; the empty product is 1.0. */
  function Prod(fs: seq<real>): real
    decreases |fs|
  {
    if |fs| == 0 then 1.0 else fs[0] * Prod(fs[1..])
  }

  /** The product of the factors of entry (i, j) over a sequence of terms. */
  function Product(es: seq<Option<Evidence>>, i: nat, j: nat): real {
    Prod(Factors(es, i, j))
  }

  /** Folded from the all-1.0 matrix, an entry is the product of its
      factors. */
  lemma FoldIsProduct(es: seq<Option<Evidence>>, rows: nat, cols: nat, i: nat, j: nat)
    requires i < rows && j < cols
    ensures Fold(Ones(rows, cols), es, rows, cols)[i][j] == Product(es, i, j)
  {
    FoldIsScan(Ones(rows, cols), es, rows, cols, i, j);
    ScanOne(Factors(es, i, j));
  }

  /** One entry of the fold, followed on its own: the entry is multiplied by
      each factor in turn. */
  function Scan(x: real, fs: seq<real>): real
    decreases |fs|
  {
    if |fs| == 0 then x else Scan(x * fs[0], fs[1..])
  }

  lemma {:induction false} FoldIsScan(m: Matrix, es: seq<Option<Evidence>>, rows: nat, cols: nat, i: nat, j: nat)
    requires Shaped(m, rows, cols)
    requires i < rows && j < cols
    ensures Fold(m, es, rows, cols)[i][j] == Scan(m[i][j], Factors(es, i, j))
    decreases |es|
  {
    if |es| > 0 {
      var m1 := Apply(m, es[0], rows, cols);
      FoldIsScan(m1, es[1..], rows, cols, i, j);
      var fs := Factors(es, i, j);
      assert fs[1..] == Factors(es[1..], i, j);
      TimesEqual(m[i][j], Factor(es[0], i, j), fs[0]);
      ScanCons(m[i][j], fs, m1[i][j]);
    }
  }

  lemma ScanCons(x: real, fs: seq<real>, y: real)
    requires |fs| > 0 && y == x * fs[0]
    ensures Scan(x, fs) == Scan(y, fs[1..])
  {
  }

  lemma ScanOne(fs: seq<real>)
    ensures Scan(1.0, fs) == Prod(fs)
  {
    ScanIsProd(1.0, fs);
  }

  lemma {:induction false} ScanIsProd(x: real, fs: seq<real>)
    ensures Scan(x, fs) == x * Prod(fs)
    decreases |fs|
  {
    if |fs| > 0 {
      ScanIsProd(x * fs[0], fs[1..]);
      Regroup(Scan(x, fs), x * fs[0], x, fs[0], Prod(fs[1..]));
      TimesEqual(x, fs[0] * Prod(fs[1..]), Prod(fs));
    }
  }

  /** The arithmetic step shared by the product lemmas, kept apart from the
      unfoldings: (x * f) * p == x * (f * p). */
  lemma Regroup(whole: real, x1: real, x: real, f: real, p: real)
    requires whole == x1 * p && x1 == x * f
    ensures whole == x * (f * p)
  {
    assert (x * f) * p == x * (f * p);
  }

  lemma RegroupLeft(whole: real, x: real, f: real, p: real)
    requires whole == x * (f * p)
    ensures whole == (x * f) * p
  {
    assert (x * f) * p == x * (f * p);
  }

  lemma {:induction false} ProdAppend(xs: seq<real>, ys: seq<real>)
    ensures Prod(xs + ys) == Prod(xs) * Prod(ys)
    decreases |xs|
  {
    if |xs| == 0 {
      assert xs + ys == ys;
    } else {
      ProdAppend(xs[1..], ys);
      assert (xs + ys)[1..] == xs[1..] + ys;
      TimesBoth((xs + ys)[0], Prod((xs + ys)[1..]), xs[0], Prod(xs[1..]) * Prod(ys));
      RegroupLeft(Prod(xs + ys), xs[0], Prod(xs[1..]), Prod(ys));
      TimesBoth(xs[0] * Prod(xs[1..]), Prod(ys), Prod(xs), Prod(ys));
    }
  }

  lemma ProductAppend(a: seq<Option<Evidence>>, b: seq<Option<Evidence>>, i: nat, j: nat)
    ensures Product(a + b, i, j) == Product(a, i, j) * Product(b, i, j)
  {
    FactorsAppend(a, b, i, j);
    ProdAppend(Factors(a, i, j), Factors(b, i, j));
  }

  lemma FactorsAppend(a: seq<Option<Evidence>>, b: seq<Option<Evidence>>, i: nat, j: nat)
    ensures Factors(a + b, i, j) == Factors(a, i, j) + Factors(b, i, j)
  {
  }

  /** Equals substituted into a product.  The solver treats a product as an
      arithmetic term of its own, so the substitution is made explicit. */
  lemma TimesEqual(x: real, y: real, z: real)
    requires y == z
    ensures x * y == x * z
  {
  }

  lemma TimesBoth(x: real, y: real, x': real, y': real)
    requires x == x' && y == y'
    ensures x * y == x' * y'
  {
  }

  /** The entry-wise product of two matrices. */
  function Hadamard(a: Matrix, b: Matrix, rows: nat, cols: nat): (r: Matrix)
    requires Shaped(a, rows, cols) && Shaped(b, rows, cols)
    ensures Shaped(r, rows, cols)
    ensures forall i, j :: 0 <= i < rows && 0 <= j < cols ==> r[i][j] == a[i][j] * b[i][j]
  {
    seq(rows, i requires 0 <= i < rows =>
      seq(cols, j requires 0 <= j < cols => a[i][j] * b[i][j]))
  }

  /** The all-1.0 matrix a worker starts from is neutral for the entry-wise
      product, so a worker that never starts leaves the reduction as it is. */
  lemma OnesNeutral(m: Matrix, rows: nat, cols: nat)
    requires Shaped(m, rows, cols)
    ensures Hadamard(Ones(rows, cols), m, rows, cols) == m
    ensures Hadamard(m, Ones(rows, cols), rows, cols) == m
  {
    MatrixExt(Hadamard(Ones(rows, cols), m, rows, cols), m, rows, cols);
    MatrixExt(Hadamard(m, Ones(rows, cols), rows, cols), m, rows, cols);
  }

  /** Two terms applied in either order give the same matrix. */
  lemma ApplyCommutes(m: Matrix, e1: Option<Evidence>, e2: Option<Evidence>, rows: nat, cols: nat)
    requires Shaped(m, rows, cols)
    ensures Apply(Apply(m, e1, rows, cols), e2, rows, cols) == Apply(Apply(m, e2, rows, cols), e1, rows, cols)
  {
    var a := Apply(Apply(m, e1, rows, cols), e2, rows, cols);
    var b := Apply(Apply(m, e2, rows, cols), e1, rows, cols);
    forall i, j | 0 <= i < rows && 0 <= j < cols
      ensures a[i][j] == b[i][j]
    {
      TimesSwap(m[i][j], Factor(e1, i, j), Factor(e2, i, j));
    }
    MatrixExt(a, b, rows, cols);
  }

  lemma TimesSwap(x: real, f: real, g: real)
    ensures x * f * g == x * g * f
  {
  }

  /** Folding the concatenation of two term sequences from the all-1.0 matrix
      is the entry-wise product of folding each from the all-1.0 matrix. */
  lemma FoldSplit(a: seq<Option<Evidence>>, b: seq<Option<Evidence>>, rows: nat, cols: nat)
    ensures Fold(Ones(rows, cols), a + b, rows, cols)
         == Hadamard(Fold(Ones(rows, cols), a, rows, cols), Fold(Ones(rows, cols), b, rows, cols), rows, cols)
  {
    var o := Ones(rows, cols);
    var whole := Fold(o, a + b, rows, cols);
    var split := Hadamard(Fold(o, a, rows, cols), Fold(o, b, rows, cols), rows, cols);
    forall i, j | 0 <= i < rows && 0 <= j < cols
      ensures whole[i][j] == split[i][j]
    {
      FoldIsProduct(a + b, rows, cols, i, j);
      FoldIsProduct(a, rows, cols, i, j);
      FoldIsProduct(b, rows, cols, i, j);
      HadamardAt(whole, Fold(o, a, rows, cols), Fold(o, b, rows, cols), a, b, rows, cols, i, j);
    }
    MatrixExt(whole, split, rows, cols);
  }

  /** One entry of the split, on matrices whose entries are known products. */
  lemma HadamardAt(w: Matrix, x: Matrix, y: Matrix, a: seq<Option<Evidence>>, b: seq<Option<Evidence>>, rows: nat, cols: nat, i: nat, j: nat)
    requires Shaped(w, rows, cols) && Shaped(x, rows, cols) && Shaped(y, rows, cols)
    requires i < rows && j < cols
    requires w[i][j] == Product(a + b, i, j) && x[i][j] == Product(a, i, j) && y[i][j] == Product(b, i, j)
    ensures w[i][j] == Hadamard(x, y, rows, cols)[i][j]
  {
    SplitPoint(w[i][j], x[i][j], y[i][j], a, b, i, j);
  }

  lemma SplitPoint(w: real, x: real, y: real, a: seq<Option<Evidence>>, b: seq<Option<Evidence>>, i: nat, j: nat)
    requires w == Product(a + b, i, j) && x == Product(a, i, j) && y == Product(b, i, j)
    ensures w == x * y
  {
    ProductAppend(a, b, i, j);
    TimesBoth(Product(a, i, j), Product(b, i, j), x, y);
  }

  /** A term without estimate changes nothing wherever it sits in the
      vocabulary. */
  lemma {:induction false} FoldIgnoresNone(m: Matrix, a: seq<Option<Evidence>>, b: seq<Option<Evidence>>, rows: nat, cols: nat)
    requires Shaped(m, rows, cols)
    ensures Fold(m, a + [None] + b, rows, cols) == Fold(m, a + b, rows, cols)
    decreases |a|
  {
    var with := a + [None] + b;
    if |a| == 0 {
      assert with == [None] + b && with[1..] == b;
      assert a + b == b;
    } else {
      assert with[0] == a[0] && with[1..] == a[1..] + [None] + b;
      assert (a + b)[0] == a[0] && (a + b)[1..] == a[1..] + b;
      FoldIgnoresNone(Apply(m, a[0], rows, cols), a[1..], b, rows, cols);
    }
  }
}
