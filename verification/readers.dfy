/** The inputs every prior computation reads: the test and training indices,
    the field whose terms are scored, and Math.pow.  Matrix rows are training
    documents and columns test documents.
 */
module Readers {
  import opened TermIndex
  import opened Estimator

  /** The two readers, the field, and Math.pow. */
  datatype Context = Context(pow: Pow, test: Index, train: Index, field: string)

  ghost predicate Valid(ctx: Context) {
    WellFormed(ctx.test) && WellFormed(ctx.train)
  }

  function Rows(ctx: Context): nat { ctx.train.numDocs }
  function Cols(ctx: Context): nat { ctx.test.numDocs }

  ghost predicate InIndex(ix: Index, t: Term) {
    exists i :: 0 <= i < |ix.entries| && ix.entries[i].term == t
  }

  ghost predicate AllAdmissible(terms: seq<Term>, field: string) {
    forall k :: 0 <= k < |terms| ==> Admissible(terms[k], field)
  }
}
