/** The pieces of the smoothed term-presence estimate that every snapshot
    computes the same way: the shrinkage weight
      R = (1 / (1 + meanfreq)) * (meanfreq / (1 + meanfreq))^tf,
    the log-linear interpolation pml^(1-R) * pavg^R, and the two passes over
    the estimate buffer (write the posting documents, then give every entry
    still equal to 0.0 the background rate).

    Math.pow has no counterpart over the reals, so it is a parameter `pow`
    and only the laws of java.lang.Math.pow that the model relies on are
    assumed of it (`JavaPow`).
 */
module Estimator {
  import opened TermIndex

  type Pow = (real, real) -> real

  /** Laws of Math.pow used by the model: non-negative for a non-negative
      base, x^0 = 1 (even 0^0), x^1 = x, 0^y = 0 for y > 0, 1^y = 1, and
      b^y in (0, 1] for a base strictly between 0 and 1 and y >= 0. */
  ghost predicate JavaPow(pow: Pow) {
    && (forall x, y :: x >= 0.0 ==> pow(x, y) >= 0.0)
    && (forall x :: pow(x, 0.0) == 1.0)
    && (forall x :: pow(x, 1.0) == x)
    && (forall y :: y > 0.0 ==> pow(0.0, y) == 0.0)
    && (forall y :: pow(1.0, y) == 1.0)
    && (forall b, y :: 0.0 < b < 1.0 && y >= 0.0 ==> 0.0 < pow(b, y) <= 1.0)
  }

  /** The shrinkage weight R of a posting with frequency tf. */
  function ShrinkWeight(pow: Pow, meanfreq: real, tf: nat): real
    requires meanfreq >= 0.0
  {
    (1.0 / (1.0 + meanfreq)) * pow(meanfreq / (1.0 + meanfreq), tf as real)
  }

  /** With any evidence (meanfreq > 0) the weight lies strictly between 0 and 1. */
  lemma ShrinkWeightBounds(pow: Pow, meanfreq: real, tf: nat)
    requires JavaPow(pow)
    requires meanfreq > 0.0
    ensures 0.0 < ShrinkWeight(pow, meanfreq, tf) < 1.0
  {
    var b := meanfreq / (1.0 + meanfreq);
    var w := 1.0 / (1.0 + meanfreq);
    assert 0.0 < b < 1.0;
    assert 0.0 < w < 1.0;
    var p := pow(b, tf as real);
    assert 0.0 < p <= 1.0;
    assert w * p <= w * 1.0;
  }

  /** The interpolated estimate pml^(1-R) * pavg^R. */
  function Smoothed(pow: Pow, pml: real, pavg: real, r: real): real {
    pow(pml, 1.0 - r) * pow(pavg, r)
  }

  function Zeros(n: nat): (z: seq<real>)
    ensures |z| == n && forall i :: 0 <= i < n ==> z[i] == 0.0
  {
    seq(n, i => 0.0)
  }

  /** Writes vals[k] at position ps[k].doc, for k in order. */
  function Scatter(buf: seq<real>, ps: seq<Posting>, vals: seq<real>): (r: seq<real>)
    requires |vals| == |ps| && PostingsWithin(ps, |buf|)
    ensures |r| == |buf|
    ensures forall d :: 0 <= d < |buf| && d !in DocSet(ps) ==> r[d] == buf[d]
    ensures Ascending(ps) ==> forall k :: 0 <= k < |ps| ==> r[ps[k].doc] == vals[k]
    decreases |ps|
  {
    if |ps| == 0 then buf
    else
      var r := Scatter(buf[ps[0].doc := vals[0]], ps[1..], vals[1..]);
      assert forall d :: d in DocSet(ps[1..]) ==> d in DocSet(ps) by {
        forall d | d in DocSet(ps[1..]) ensures d in DocSet(ps) {
          var k :| 0 <= k < |ps[1..]| && ps[1..][k].doc == d;
          assert ps[k + 1].doc == d;
        }
      }
      assert ps[0].doc in DocSet(ps);
      assert Ascending(ps) ==> ps[0].doc !in DocSet(ps[1..]) && Ascending(ps[1..]) by {
        if Ascending(ps) {
          forall k | 0 <= k < |ps[1..]| ensures ps[1..][k].doc != ps[0].doc {
            assert ps[1..][k] == ps[k + 1];
          }
        }
      }
      assert Ascending(ps) ==> forall k :: 1 <= k < |ps| ==> r[ps[k].doc] == vals[k] by {
        if Ascending(ps) {
          forall k | 1 <= k < |ps| ensures r[ps[k].doc] == vals[k] {
            assert ps[1..][k - 1] == ps[k];
            assert vals[1..][k - 1] == vals[k];
          }
        }
      }
      r
  }

  /** Postings that reach every position overwrite the whole buffer, so the
      buffer's previous contents do not matter. */
  lemma ScatterCovered(b1: seq<real>, b2: seq<real>, ps: seq<Posting>, vals: seq<real>)
    requires |b1| == |b2| && |vals| == |ps| && PostingsWithin(ps, |b1|) && Ascending(ps)
    requires forall d :: 0 <= d < |b1| ==> d in DocSet(ps)
    ensures Scatter(b1, ps, vals) == Scatter(b2, ps, vals)
  {
    var r1 := Scatter(b1, ps, vals);
    var r2 := Scatter(b2, ps, vals);
    forall d | 0 <= d < |b1|
      ensures r1[d] == r2[d]
    {
      assert d in DocSet(ps);
      var k :| 0 <= k < |ps| && ps[k].doc == d;
      assert r1[ps[k].doc] == vals[k] && r2[ps[k].doc] == vals[k];
    }
    assert |r1| == |r2|;
  }

  /** Every entry still exactly 0.0 becomes the background rate. */
  function FillZeros(buf: seq<real>, background: real): (r: seq<real>)
    ensures |r| == |buf|
    ensures forall i :: 0 <= i < |buf| ==> r[i] == (if buf[i] == 0.0 then background else buf[i])
  {
    seq(|buf|, i requires 0 <= i < |buf| => if buf[i] == 0.0 then background else buf[i])
  }

  /** Filling settles the buffer: a second fill changes nothing, and no entry
      is left at 0.0 exactly when the rate is non-zero or none was 0.0. */
  lemma FillZerosSettles(buf: seq<real>, background: real)
    ensures FillZeros(FillZeros(buf, background), background) == FillZeros(buf, background)
    ensures (forall i :: 0 <= i < |buf| ==> FillZeros(buf, background)[i] != 0.0)
        <==> (background != 0.0 || forall i :: 0 <= i < |buf| ==> buf[i] != 0.0)
  {
    var r := FillZeros(buf, background);
    if background == 0.0 && exists i :: 0 <= i < |buf| && buf[i] == 0.0 {
      var i :| 0 <= i < |buf| && buf[i] == 0.0;
      assert r[i] == 0.0;
    }
  }

  /** pavg, meanfreq and collectionFreq of a term. */
  datatype Averages = Averages(pavg: real, meanfreq: real, collectionFreq: nat)

  /** collectionFreq / collectionSize, the rate of a document outside the postings. */
  function Background(ix: Index, field: string, t: Term): real
    requires WellFormed(ix)
  {
    var cs := CollectionSize(ix, field);
    if cs == 0 then 0.0 else SumFreq(PostingsOf(ix, t)) as real / cs as real
  }

  /** A term with occurrences has a background rate in (0, 1]. */
  lemma BackgroundRate(ix: Index, field: string, t: Term)
    requires WellFormed(ix) && Admissible(t, field)
    requires SumFreq(PostingsOf(ix, t)) > 0
    ensures 0.0 < Background(ix, field, t) <= 1.0
  {
    CollectionFreqWithinSize(ix, t, field);
  }
}
