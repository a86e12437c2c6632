/** The read-only term index the relevance engine consumes, in place of a
    Lucene IndexReader: documents numbered 0..numDocs-1 with no holes, the
    term dictionary in its enumeration order, each term with its postings
    (document, term frequency) in ascending document order, and per document
    and field the stored term vector, given as the frequencies of its
    distinct terms (absent when the document has no vector for the field).
 */
module TermIndex {
  import opened Wrappers
  import opened Text

  datatype Term = Term(field: string, text: string)

  datatype Posting = Posting(doc: nat, freq: nat)

  datatype TermEntry = TermEntry(term: Term, postings: seq<Posting>)

  datatype Index = Index(numDocs: nat, entries: seq<TermEntry>, vectors: seq<map<string, seq<nat>>>)

  ghost predicate PostingsWithin(ps: seq<Posting>, n: nat) {
    forall k :: 0 <= k < |ps| ==> ps[k].doc < n
  }

  ghost predicate Ascending(ps: seq<Posting>) {
    forall k, l :: 0 <= k < l < |ps| ==> ps[k].doc < ps[l].doc
  }

  /** What a Lucene reader guarantees: one entry per term, postings in
      ascending order of existing documents, a vector slot per document. */
  ghost predicate WellFormed(ix: Index) {
    && |ix.vectors| == ix.numDocs
    && (forall i, j :: 0 <= i < j < |ix.entries| ==> ix.entries[i].term != ix.entries[j].term)
    && (forall i :: 0 <= i < |ix.entries| ==>
          PostingsWithin(ix.entries[i].postings, ix.numDocs) && Ascending(ix.entries[i].postings))
  }

  /** The terms every vocabulary keeps: those of the field that hold no digit. */
  predicate Admissible(t: Term, field: string) {
    t.field == field && !ContainsNumber(t.text)
  }

  // ---------------------------------------------------------------------------
  // Postings

  function LookupPostings(es: seq<TermEntry>, t: Term): (ps: seq<Posting>)
    ensures ps == [] || exists i :: 0 <= i < |es| && es[i].term == t && ps == es[i].postings
  {
    if |es| == 0 then []
    else if es[0].term == t then es[0].postings
    else
      var ps := LookupPostings(es[1..], t);
      assert ps != [] ==> exists i :: 0 <= i < |es| && es[i].term == t && ps == es[i].postings by {
        if ps != [] {
          var i :| 0 <= i < |es[1..]| && es[1..][i].term == t && ps == es[1..][i].postings;
          assert es[i + 1] == es[1..][i];
        }
      }
      ps
  }

  /** termDocs(t): the postings of `t`, empty when the index lacks the term. */
  function PostingsOf(ix: Index, t: Term): (ps: seq<Posting>)
    requires WellFormed(ix)
    ensures PostingsWithin(ps, ix.numDocs) && Ascending(ps)
  {
    LookupPostings(ix.entries, t)
  }

  function SumFreq(ps: seq<Posting>): nat {
    if |ps| == 0 then 0 else ps[0].freq + SumFreq(ps[1..])
  }

  function DocSet(ps: seq<Posting>): set<nat> {
    set k | 0 <= k < |ps| :: ps[k].doc
  }

  // ---------------------------------------------------------------------------
  // Vocabulary and collection size

  function FieldTerms(es: seq<TermEntry>, field: string): (r: seq<Term>)
    ensures forall k :: 0 <= k < |r| ==> Admissible(r[k], field)
    ensures forall i :: 0 <= i < |es| && Admissible(es[i].term, field) ==> es[i].term in r
    ensures forall t :: t in r ==> exists i :: 0 <= i < |es| && es[i].term == t
  {
    if |es| == 0 then []
    else
      var rest := FieldTerms(es[1..], field);
      assert forall t :: t in rest ==> exists i :: 0 <= i < |es| && es[i].term == t by {
        forall t | t in rest
          ensures exists i :: 0 <= i < |es| && es[i].term == t
        {
          var i :| 0 <= i < |es[1..]| && es[1..][i].term == t;
          assert es[i + 1].term == t;
        }
      }
      assert forall i :: 1 <= i < |es| ==> es[i] == es[1..][i - 1];
      (if Admissible(es[0].term, field) then [es[0].term] else []) + rest
  }

  /** The vocabulary an index contributes for a field: its admissible terms
      in enumeration order. */
  function Vocabulary(ix: Index, field: string): (r: seq<Term>)
    ensures forall k :: 0 <= k < |r| ==> Admissible(r[k], field)
    ensures forall i :: 0 <= i < |ix.entries| && Admissible(ix.entries[i].term, field) ==> ix.entries[i].term in r
    ensures forall t :: t in r ==> exists i :: 0 <= i < |ix.entries| && ix.entries[i].term == t
  {
    FieldTerms(ix.entries, field)
  }

  function FieldOccurrences(es: seq<TermEntry>, field: string): nat {
    if |es| == 0 then 0
    else (if Admissible(es[0].term, field) then SumFreq(es[0].postings) else 0) + FieldOccurrences(es[1..], field)
  }

  /** findCollectionSize: the frequencies summed over the postings of every
      admissible term of the field. */
  function CollectionSize(ix: Index, field: string): nat {
    FieldOccurrences(ix.entries, field)
  }

  lemma {:induction false} LookupWithinOccurrences(es: seq<TermEntry>, t: Term, field: string)
    requires Admissible(t, field)
    ensures SumFreq(LookupPostings(es, t)) <= FieldOccurrences(es, field)
    decreases |es|
  {
    if |es| > 0 && es[0].term != t {
      LookupWithinOccurrences(es[1..], t, field);
    }
  }

  /** The collection size bounds the collection frequency of every term it
      counts, so a term with evidence never meets a zero collection size. */
  lemma CollectionFreqWithinSize(ix: Index, t: Term, field: string)
    requires WellFormed(ix)
    requires Admissible(t, field)
    ensures SumFreq(PostingsOf(ix, t)) <= CollectionSize(ix, field)
  {
    LookupWithinOccurrences(ix.entries, t, field);
  }

  // ---------------------------------------------------------------------------
  // Term vectors

  function VectorOf(ix: Index, d: nat, field: string): Option<seq<nat>>
    requires d < |ix.vectors|
  {
    if field in ix.vectors[d] then Some(ix.vectors[d][field]) else None
  }

  function SumNat(xs: seq<nat>): nat {
    if |xs| == 0 then 0 else xs[0] + SumNat(xs[1..])
  }

  /** getNumTermsInDocument of the parallel builder: the number of distinct
      terms of the vector, 0 when there is none. */
  function DistinctTermCount(ix: Index, d: nat, field: string): nat
    requires d < |ix.vectors|
  {
    match VectorOf(ix, d, field)
    case None => 0
    case Some(v) => |v|
  }

  /** getNumTermsInDocument of the single-threaded model: the term
      frequencies of the vector summed, 0 when there is none. */
  function TotalOccurrences(ix: Index, d: nat, field: string): nat
    requires d < |ix.vectors|
  {
    match VectorOf(ix, d, field)
    case None => 0
    case Some(v) => SumNat(v)
  }
}
