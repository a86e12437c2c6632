/** The trunk snapshot's index builders (NSDLIndex.createGlobalIndex and
    NSDLIndex.createSmallIndex).

    While reading, the builder keeps five counters for the open document:
    the length of the last title, content and desc value, and the summed
    length of the audience and subject values.  When a blank line closes
    the document the counters and value counts are stored with it, and the
    document is admitted only when its title, content and desc lengths are
    non-zero, it has a subject and it has exactly one audience.  The
    counters are reset after every closed document, admitted or not.

    The small index keeps every document of the global index whose audience
    is neither learner nor educator, and each learner or educator document
    whose random draw is below 0.3.
 */
module GlobalIndex {
  import opened Wrappers
  import opened Text
  import opened Records

  /** The numeric fields stored with a closed document.  The audience and
      subject lengths are averages over the values, None standing for the
      NaN of 0.0 / 0 when there are none. */
  datatype Stats = Stats(titleLen: nat, contentLen: nat, descLen: nat,
                         audienceLen: Option<real>, subjectLen: Option<real>,
                         numAudience: nat, numEducationLevel: nat, numSubject: nat, numSub: nat)

  /** A document as it is added to the index. */
  datatype Indexed = Indexed(fields: Record, stats: Stats)

  datatype Built = Built(docs: seq<Indexed>, totalDocs: nat)

  // ---------------------------------------------------------------------------
  // Reference: the statistics of a whole document

  /** The length of the last value called `name`, 0 when there is none. */
  function LastLength(r: Record, name: string): nat {
    var vs := Values(r, name);
    if |vs| == 0 then 0 else |vs[|vs| - 1]|
  }

  function SumLengths(vs: seq<string>): nat
    decreases |vs|
  {
    if |vs| == 0 then 0 else SumLengths(vs[..|vs| - 1]) + |vs[|vs| - 1]|
  }

  /** The summed length of the values called `name`. */
  function TotalLength(r: Record, name: string): nat {
    SumLengths(Values(r, name))
  }

  /** (double) total / count. */
  function Average(total: nat, count: nat): (a: Option<real>)
    ensures a.Some? <==> count > 0
    ensures a.Some? ==> a.value * count as real == total as real
  {
    if count == 0 then None else Some(total as real / count as real)
  }

  /** What is stored with a closed document. */
  function StatsOf(r: Record): Stats {
    Stats(LastLength(r, "title"), LastLength(r, "content"), LastLength(r, "desc"),
          Average(TotalLength(r, "audience"), |Values(r, "audience")|),
          Average(TotalLength(r, "subject"), |Values(r, "subject")|),
          |Values(r, "audience")|, |Values(r, "educationLevel")|,
          |Values(r, "subject")|, |Values(r, "sub")|)
  }

  /** The admission test of a closed document. */
  predicate Admitted(st: Stats) {
    st.titleLen != 0 && st.contentLen != 0 && st.descLen != 0 && st.numSubject > 0 && st.numAudience == 1
  }

  /** The documents of `rs` that pass the admission test, in order. */
  function Admit(rs: seq<Record>): seq<Indexed>
    decreases |rs|
  {
    if |rs| == 0 then []
    else
      var r := rs[|rs| - 1];
      Admit(rs[..|rs| - 1]) + (if Admitted(StatsOf(r)) then [Indexed(r, StatsOf(r))] else [])
  }

  // ---------------------------------------------------------------------------
  // The builder

  /** createGlobalIndex: the admitted documents of the file in file order
      and their number; the file's first unreadable line stops the build. */
  method CreateGlobalIndex(lines: seq<string>) returns (r: Outcome<Built>)
    ensures r.Ok? <==> WellFormed(lines)
    ensures r.Fail? ==> Group(lines).Fail? && r.fault == Group(lines).fault
    ensures r.Ok? ==> r.value.docs == Admit(Group(lines).value) && r.value.totalDocs == |r.value.docs|
  {
    var doc: Option<Record> := None;
    var titleLen: nat, contentLen: nat, descLen: nat, audienceLen: nat, subjectLen: nat := 0, 0, 0, 0, 0;
    var docs: seq<Indexed> := [];
    var totalDocs: nat := 0;
    ghost var closed: seq<Record> := [];
    var i := 0;
    while i < |lines|
      invariant 0 <= i <= |lines|
      invariant Run(Start, lines[..i]) == Ok(Scan(doc, closed))
      invariant docs == Admit(closed) && totalDocs == |docs|
      invariant doc.None? ==> titleLen == 0 && contentLen == 0 && descLen == 0 && audienceLen == 0 && subjectLen == 0
      invariant doc.Some? ==> Counters(doc.value, titleLen, contentLen, descLen, audienceLen, subjectLen)
    {
      var line := lines[i];
      ReadOneMore(lines, i);
      if line == "" {
        if doc.Some? {
          var d := doc.value;
          var st := Stats(titleLen, contentLen, descLen,
                          Average(audienceLen, |Values(d, "audience")|),
                          Average(subjectLen, |Values(d, "subject")|),
                          |Values(d, "audience")|, |Values(d, "educationLevel")|,
                          |Values(d, "subject")|, |Values(d, "sub")|);
          assert st == StatsOf(d);
          if Admitted(st) {
            totalDocs := totalDocs + 1;
            docs := docs + [Indexed(d, st)];
          }
          titleLen, contentLen, descLen, audienceLen, subjectLen := 0, 0, 0, 0, 0;
          AdmitSnoc(closed, d);
          closed := closed + [d];
        } else {
          assert closed + Closing(doc) == closed;
        }
        doc := Some([]);
      } else {
        var split := SplitLine(line);
        if split.Fail? {
          StopsAt(lines, i);
          return Fail(split.fault);
        }
        if doc.None? {
          StopsAt(lines, i);
          return Fail(NullDereference);
        }
        var f := split.value;
        assert Step(Scan(doc, closed), line) == Ok(Scan(Some(doc.value + [f]), closed));
        CountersSnoc(doc.value, f, titleLen, contentLen, descLen, audienceLen, subjectLen);
        if f.name == "title" {
          titleLen := |f.value|;
        } else if f.name == "content" {
          contentLen := |f.value|;
        } else if f.name == "desc" {
          descLen := |f.value|;
        } else if f.name == "audience" {
          audienceLen := audienceLen + |f.value|;
        } else if f.name == "subject" {
          subjectLen := subjectLen + |f.value|;
        }
        doc := Some(doc.value + [f]);
      }
      i := i + 1;
    }
    assert lines[..|lines|] == lines;
    RunFacts(lines);
    return Ok(Built(docs, totalDocs));
  }

  /** The five counters hold the statistics of the open document. */
  ghost predicate Counters(d: Record, titleLen: nat, contentLen: nat, descLen: nat, audienceLen: nat, subjectLen: nat) {
    titleLen == LastLength(d, "title") && contentLen == LastLength(d, "content") && descLen == LastLength(d, "desc") &&
    audienceLen == TotalLength(d, "audience") && subjectLen == TotalLength(d, "subject")
  }

  /** A field line updates exactly the counter its name selects. */
  lemma CountersSnoc(d: Record, f: Field, titleLen: nat, contentLen: nat, descLen: nat, audienceLen: nat, subjectLen: nat)
    requires Counters(d, titleLen, contentLen, descLen, audienceLen, subjectLen)
    ensures Counters(d + [f],
      if f.name == "title" then |f.value| else titleLen,
      if f.name == "content" then |f.value| else contentLen,
      if f.name == "desc" then |f.value| else descLen,
      if f.name == "audience" then audienceLen + |f.value| else audienceLen,
      if f.name == "subject" then subjectLen + |f.value| else subjectLen)
  {
    LastLengthSnoc(d, f, "title");
    LastLengthSnoc(d, f, "content");
    LastLengthSnoc(d, f, "desc");
    TotalLengthSnoc(d, f, "audience");
    TotalLengthSnoc(d, f, "subject");
  }

  lemma LastLengthSnoc(d: Record, f: Field, name: string)
    ensures LastLength(d + [f], name) == if f.name == name then |f.value| else LastLength(d, name)
  {
    ValuesSnoc(d, f, name);
  }

  lemma TotalLengthSnoc(d: Record, f: Field, name: string)
    ensures TotalLength(d + [f], name) == if f.name == name then TotalLength(d, name) + |f.value| else TotalLength(d, name)
  {
    ValuesSnoc(d, f, name);
    var vs := Values(d, name);
    if f.name == name {
      assert (vs + [f.value])[..|vs|] == vs;
    } else {
      assert vs + [] == vs;
    }
  }

  lemma AdmitSnoc(rs: seq<Record>, r: Record)
    ensures Admit(rs + [r]) == Admit(rs) + (if Admitted(StatsOf(r)) then [Indexed(r, StatsOf(r))] else [])
  {
    assert (rs + [r])[..|rs|] == rs;
  }

  /** Reading line `i` after the lines before it. */
  lemma ReadOneMore(lines: seq<string>, i: nat)
    requires i < |lines|
    ensures Run(Start, lines[..i + 1]) == match Run(Start, lines[..i]) case Ok(t) => Step(t, lines[i]) case Fail(f) => Fail(f)
  {
    assert lines[..i + 1][..i] == lines[..i];
  }

  /** A failure at line `i` is the failure of the whole file. */
  lemma StopsAt(lines: seq<string>, i: nat)
    requires i < |lines| && Run(Start, lines[..i + 1]).Fail?
    ensures Group(lines) == Fail(Run(Start, lines[..i + 1]).fault)
  {
    RunStopsAt(lines, i);
    GroupOfFailedRun(lines);
  }

  lemma RunStopsAt(lines: seq<string>, i: nat)
    requires i < |lines| && Run(Start, lines[..i + 1]).Fail?
    ensures Run(Start, lines) == Run(Start, lines[..i + 1])
  {
    RunAppend(Start, lines[..i + 1], lines[i + 1..]);
    assert lines[..i + 1] + lines[i + 1..] == lines;
  }

  lemma GroupOfFailedRun(lines: seq<string>)
    requires Run(Start, lines).Fail?
    ensures Group(lines) == Fail(Run(Start, lines).fault)
  {
  }

  // ---------------------------------------------------------------------------
  // What the admitted documents look like

  /** A document is in the index iff it was read and passes the test; every
      document in the index has one audience, a subject, a non-empty last
      title, content and desc, and an audience length that is its one
      audience value's length. */
  lemma {:induction false} AdmittedDocs(rs: seq<Record>, r: Record)
    ensures (r in rs && Admitted(StatsOf(r))) <==> Indexed(r, StatsOf(r)) in Admit(rs)
    ensures forall d :: d in Admit(rs) ==> d.fields in rs && d.stats == StatsOf(d.fields) && Admitted(d.stats)
    ensures forall d :: d in Admit(rs) ==>
      |Values(d.fields, "audience")| == 1 && |Values(d.fields, "subject")| > 0 &&
      d.stats.audienceLen == Some(|Values(d.fields, "audience")[0]| as real) && d.stats.subjectLen.Some?
    decreases |rs|
  {
    if |rs| > 0 {
      var init := rs[..|rs| - 1];
      AdmittedDocs(init, r);
      assert rs == init + [rs[|rs| - 1]];
      forall d | d in Admit(rs)
        ensures d.fields in rs && d.stats == StatsOf(d.fields) && Admitted(d.stats)
        ensures d.stats.audienceLen == Some(|Values(d.fields, "audience")[0]| as real)
      {
        OneAudience(d.fields);
      }
    }
  }

  lemma OneAudience(r: Record)
    requires |Values(r, "audience")| == 1
    ensures StatsOf(r).audienceLen == Some(|Values(r, "audience")[0]| as real)
  {
    var vs := Values(r, "audience");
    SumOfOne(vs);
    assert StatsOf(r).audienceLen == Average(SumLengths(vs), 1);
  }

  lemma SumOfOne(vs: seq<string>)
    requires |vs| == 1
    ensures SumLengths(vs) == |vs[0]|
  {
    assert vs[..0] == [];
  }

  /** At most every closed document is admitted. */
  lemma {:induction false} AdmitAtMost(rs: seq<Record>)
    ensures |Admit(rs)| <= |rs|
    decreases |rs|
  {
    if |rs| > 0 {
      AdmitAtMost(rs[..|rs| - 1]);
    }
  }

  // ---------------------------------------------------------------------------
  // The small index

  /** Below this draw a learner or educator document is kept. */
  const KeepRate: real := 0.3

  /** doc.get("audience"): the first audience value, None for null. */
  function FirstAudience(d: Indexed): Option<string> {
    var vs := Values(d.fields, "audience");
    if |vs| == 0 then None else Some(vs[0])
  }

  /** An audience the small index thins out (equalsIgnoreCase). */
  predicate Thinned(audience: string) {
    ToLower(audience) == "learner" || ToLower(audience) == "educator"
  }

  /** Whether a document with an audience stays in the small index. */
  predicate Kept(d: Indexed, draw: real) {
    FirstAudience(d).Some? && (!Thinned(FirstAudience(d).value) || draw < KeepRate)
  }

  /** createSmallIndex over the global index's documents in order;
      `draws[k]` is the Math.random() value drawn for document k when its
      audience is thinned.  A document without an audience dereferences
      null. */
  function SmallIndex(docs: seq<Indexed>, draws: seq<real>): (r: Outcome<seq<Indexed>>)
    requires |draws| == |docs|
    ensures r.Ok? <==> forall k :: 0 <= k < |docs| ==> FirstAudience(docs[k]).Some?
    ensures r.Fail? ==> r.fault == NullDereference
    decreases |docs|
  {
    if |docs| == 0 then Ok([])
    else
      var n := |docs| - 1;
      var kept :- SmallIndex(docs[..n], draws[..n]);
      if FirstAudience(docs[n]).None? then Fail(NullDereference)
      else
        assert forall k :: 0 <= k < n ==> docs[..n][k] == docs[k];
        Ok(kept + (if Kept(docs[n], draws[n]) then [docs[n]] else []))
  }

  lemma SmallIndexSnoc(docs: seq<Indexed>, draws: seq<real>)
    requires |draws| == |docs| > 0 && SmallIndex(docs, draws).Ok?
    ensures SmallIndex(docs[..|docs| - 1], draws[..|docs| - 1]).Ok?
    ensures SmallIndex(docs, draws).value == SmallIndex(docs[..|docs| - 1], draws[..|docs| - 1]).value
      + (if Kept(docs[|docs| - 1], draws[|docs| - 1]) then [docs[|docs| - 1]] else [])
  {
  }

  /** Every kept document comes from the global index, and no more are kept
      than there are. */
  lemma {:induction false} SmallIndexSound(docs: seq<Indexed>, draws: seq<real>)
    requires |draws| == |docs| && SmallIndex(docs, draws).Ok?
    ensures |SmallIndex(docs, draws).value| <= |docs|
    ensures forall d :: d in SmallIndex(docs, draws).value ==> d in docs
    decreases |docs|
  {
    if |docs| > 0 {
      var n := |docs| - 1;
      SmallIndexSnoc(docs, draws);
      SmallIndexSound(docs[..n], draws[..n]);
      assert forall d :: d in docs[..n] ==> d in docs;
    }
  }

  /** A document whose audience is not thinned, or whose draw is below 0.3,
      is kept. */
  lemma {:induction false} SmallIndexComplete(docs: seq<Indexed>, draws: seq<real>, k: nat)
    requires |draws| == |docs| && SmallIndex(docs, draws).Ok?
    requires k < |docs| && Kept(docs[k], draws[k])
    ensures docs[k] in SmallIndex(docs, draws).value
    decreases |docs|
  {
    var n := |docs| - 1;
    SmallIndexSnoc(docs, draws);
    if k < n {
      assert docs[..n][k] == docs[k] && draws[..n][k] == draws[k];
      SmallIndexComplete(docs[..n], draws[..n], k);
    }
  }

  /** A thinned document whose draw is not below 0.3 is dropped, unless an
      equal document is kept in its place. */
  lemma {:induction false} SmallIndexDrops(docs: seq<Indexed>, draws: seq<real>, k: nat)
    requires |draws| == |docs| && SmallIndex(docs, draws).Ok?
    requires k < |docs| && !Kept(docs[k], draws[k])
    requires forall j :: 0 <= j < |docs| && j != k ==> docs[j] != docs[k]
    ensures docs[k] !in SmallIndex(docs, draws).value
    decreases |docs|
  {
    var n := |docs| - 1;
    SmallIndexSnoc(docs, draws);
    SmallIndexSound(docs[..n], draws[..n]);
    if k < n {
      assert forall j :: 0 <= j < n ==> docs[..n][j] == docs[j];
      assert draws[..n][k] == draws[k];
      SmallIndexDrops(docs[..n], draws[..n], k);
    } else {
      assert forall d :: d in docs[..n] ==> d != docs[k];
    }
  }

  /** With every document kept, the small index is the global index. */
  lemma {:induction false} SmallIndexKeepsAll(docs: seq<Indexed>, draws: seq<real>)
    requires |draws| == |docs| && SmallIndex(docs, draws).Ok?
    requires forall k :: 0 <= k < |docs| ==> Kept(docs[k], draws[k])
    ensures SmallIndex(docs, draws).value == docs
    decreases |docs|
  {
    if |docs| > 0 {
      var n := |docs| - 1;
      SmallIndexSnoc(docs, draws);
      assert forall k :: 0 <= k < n ==> docs[..n][k] == docs[k] && draws[..n][k] == draws[k];
      SmallIndexKeepsAll(docs[..n], draws[..n]);
      assert docs[..n] + [docs[n]] == docs;
    }
  }

  /** Every document of the global index has its one audience, so building
      the small index from it never dereferences null. */
  lemma SmallIndexOfGlobal(rs: seq<Record>, draws: seq<real>)
    requires |draws| == |Admit(rs)|
    ensures SmallIndex(Admit(rs), draws).Ok?
  {
    AdmittedDocs(rs, []);
  }
}
