/** The line-oriented record format read by every index builder
    (IndexData.createIndex and both NSDLIndex builders).

    The data file is a sequence of lines.  A blank line closes the open
    document, if there is one, and opens a new empty one; any other line is
    `name: value` and adds one field to the open document.  Before the first
    blank line there is no open document, so a field line there dereferences
    null.  The name is the text before the first ':' and the value the text
    from two characters after it; a line without ':' or ending right after
    it fails in `substring`.  A document still open when the file ends is
    never closed, so it is never added.
 */
module Records {
  import opened Wrappers

  datatype Field = Field(name: string, value: string)

  /** A document: its fields in the order their lines appear. */
  type Record = seq<Field>

  /** doc.getValues(name): the values of the fields called `name`, in order. */
  function Values(r: Record, name: string): (vs: seq<string>)
    ensures |vs| <= |r|
    decreases |r|
  {
    if |r| == 0 then []
    else Values(r[..|r| - 1], name) + (if r[|r| - 1].name == name then [r[|r| - 1].value] else [])
  }

  lemma ValuesAppend(r: Record, s: Record, name: string)
    ensures Values(r + s, name) == Values(r, name) + Values(s, name)
    decreases |s|
  {
    if |s| == 0 {
      assert r + s == r;
    } else {
      assert (r + s)[..|r + s| - 1] == r + s[..|s| - 1];
      ValuesAppend(r, s[..|s| - 1], name);
    }
  }

  lemma ValuesSnoc(r: Record, f: Field, name: string)
    ensures Values(r + [f], name) == Values(r, name) + (if f.name == name then [f.value] else [])
  {
    assert (r + [f])[..|r|] == r;
  }

  /** In fields with pairwise different names, a name present has exactly
      its own value and an absent name has none. */
  lemma {:induction false} ValuesUniqueNames(fs: seq<Field>, name: string)
    requires forall i, j :: 0 <= i < j < |fs| ==> fs[i].name != fs[j].name
    ensures (forall i :: 0 <= i < |fs| ==> fs[i].name != name) ==> Values(fs, name) == []
    ensures forall k :: 0 <= k < |fs| && fs[k].name == name ==> Values(fs, name) == [fs[k].value]
    decreases |fs|
  {
    if |fs| > 0 {
      var n := |fs| - 1;
      ValuesUniqueNames(fs[..n], name);
    }
  }

  // ---------------------------------------------------------------------------
  // One field line

  /** String.indexOf: the first position of `c` in `s`, or -1. */
  function IndexOf(s: string, c: char): (i: int)
    ensures -1 <= i < |s|
    ensures i == -1 <==> c !in s
    ensures i >= 0 ==> s[i] == c && c !in s[..i]
    decreases |s|
  {
    if |s| == 0 then -1
    else if s[0] == c then 0
    else
      var j := IndexOf(s[1..], c);
      if j == -1 then -1
      else
        assert s[..j + 1] == [s[0]] + s[1..][..j];
        j + 1
  }

  /** The field a line adds: the text before the first ':' names it and
      the text from two characters after the ':' is its value. */
  function SplitLine(line: string): (r: Outcome<Field>)
    ensures r.Ok? <==> ':' in line && IndexOf(line, ':') + 2 <= |line|
    ensures r.Fail? ==> r.fault == IndexOutOfRange
    ensures r.Ok? ==> ':' !in r.value.name && |r.value.name| + 2 <= |line|
    ensures r.Ok? ==> line == r.value.name + [':', line[|r.value.name| + 1]] + r.value.value
  {
    var index := IndexOf(line, ':');
    if index == -1 || index + 2 > |line| then Fail(IndexOutOfRange)
    else
      assert line == line[..index] + [':', line[index + 1]] + line[index + 2..];
      Ok(Field(line[..index], line[index + 2..]))
  }

  /** A field written in the file's format. */
  function RenderLine(f: Field): string {
    f.name + ": " + f.value
  }

  /** A field whose name has no ':' reads back as itself, and a line that
      reads as a field with a space after its ':' is that field written out. */
  lemma LineRoundTrip(f: Field, line: string)
    ensures ':' !in f.name ==> SplitLine(RenderLine(f)) == Ok(f)
    ensures SplitLine(line) == Ok(f) && line[|f.name| + 1] == ' ' ==> RenderLine(f) == line
  {
    if ':' !in f.name {
      var s := RenderLine(f);
      var i := IndexOf(s, ':');
      assert s[|f.name|] == ':';
      assert s[..|f.name|] == f.name;
      assert i == |f.name|;
      assert s[..i] == f.name;
      assert s[i + 2..] == f.value;
    }
  }

  // ---------------------------------------------------------------------------
  // The reader loop

  /** The loop's state: the open document (None while `doc` is still null)
      and the documents closed so far. */
  datatype Scan = Scan(doc: Option<Record>, closed: seq<Record>)

  const Start: Scan := Scan(None, [])

  /** What a blank line closes: the open document, if there is one. */
  function Closing(doc: Option<Record>): seq<Record> {
    if doc.Some? then [doc.value] else []
  }

  /** One line read. */
  function Step(s: Scan, line: string): Outcome<Scan> {
    if line == "" then Ok(Scan(Some([]), s.closed + Closing(s.doc)))
    else
      var f :- SplitLine(line);
      if s.doc.None? then Fail(NullDereference) else Ok(Scan(Some(s.doc.value + [f]), s.closed))
  }

  /** The lines read one after the other, stopping at the first failure. */
  function Run(s: Scan, lines: seq<string>): Outcome<Scan>
    decreases |lines|
  {
    if |lines| == 0 then Ok(s)
    else
      var t :- Run(s, lines[..|lines| - 1]);
      Step(t, lines[|lines| - 1])
  }

  /** Whether a line can be read after the lines `before`: a blank line
      always, a field line when it splits and some blank line has opened a
      document. */
  predicate LineOk(before: seq<string>, line: string) {
    line == "" || (SplitLine(line).Ok? && "" in before)
  }

  /** The fault a line that cannot be read raises. */
  function LineFault(line: string): Fault {
    if SplitLine(line).Fail? then IndexOutOfRange else NullDereference
  }

  ghost predicate WellFormed(lines: seq<string>) {
    forall i :: 0 <= i < |lines| ==> LineOk(lines[..i], lines[i])
  }

  /** The number of blank lines. */
  function Blanks(lines: seq<string>): nat
    decreases |lines|
  {
    if |lines| == 0 then 0 else Blanks(lines[..|lines| - 1]) + (if lines[|lines| - 1] == "" then 1 else 0)
  }

  lemma {:induction false} BlanksCount(lines: seq<string>)
    ensures Blanks(lines) > 0 <==> "" in lines
    decreases |lines|
  {
    if |lines| > 0 {
      var init := lines[..|lines| - 1];
      BlanksCount(init);
      assert lines == init + [lines[|lines| - 1]];
    }
  }

  /** The documents read from a whole file: every blank line but the first
      closes one, and the file is read iff every line can be; otherwise the
      first line that cannot be read decides the fault. */
  function Group(lines: seq<string>): (r: Outcome<seq<Record>>)
    ensures r.Ok? <==> WellFormed(lines)
    ensures r.Ok? ==> |r.value| == if Blanks(lines) == 0 then 0 else Blanks(lines) - 1
    ensures r.Fail? ==> exists i :: 0 <= i < |lines| && WellFormed(lines[..i]) && !LineOk(lines[..i], lines[i]) && r.fault == LineFault(lines[i])
  {
    RunFacts(lines);
    var s :- Run(Start, lines);
    Ok(s.closed)
  }

  lemma RunFacts(lines: seq<string>)
    ensures Run(Start, lines).Ok? <==> WellFormed(lines)
    ensures Run(Start, lines).Ok? ==> |Run(Start, lines).value.closed| == if Blanks(lines) == 0 then 0 else Blanks(lines) - 1
    ensures Run(Start, lines).Fail? ==> exists i :: 0 <= i < |lines| && WellFormed(lines[..i]) && !LineOk(lines[..i], lines[i]) && Run(Start, lines).fault == LineFault(lines[i])
  {
    RunWellFormed(lines);
    RunShape(lines);
  }

  /** A file reads iff it is well formed, and otherwise fails with the
      fault of its first unreadable line. */
  lemma {:induction false} RunWellFormed(lines: seq<string>)
    ensures Run(Start, lines).Ok? <==> WellFormed(lines)
    ensures Run(Start, lines).Fail? ==> exists i :: 0 <= i < |lines| && WellFormed(lines[..i]) && !LineOk(lines[..i], lines[i]) && Run(Start, lines).fault == LineFault(lines[i])
    decreases |lines|
  {
    if |lines| > 0 {
      var n := |lines| - 1;
      var init := lines[..n];
      var x := lines[n];
      RunWellFormed(init);
      WellFormedSnoc(lines);
      if Run(Start, init).Ok? {
        RunShape(init);
        StepFacts(Run(Start, init).value, x);
      } else {
        var i :| 0 <= i < n && WellFormed(init[..i]) && !LineOk(init[..i], init[i]) && Run(Start, init).fault == LineFault(init[i]);
        assert lines[..i] == init[..i] && lines[i] == init[i];
      }
    }
  }

  lemma WellFormedSnoc(lines: seq<string>)
    requires |lines| > 0
    ensures WellFormed(lines) <==> WellFormed(lines[..|lines| - 1]) && LineOk(lines[..|lines| - 1], lines[|lines| - 1])
  {
    var init := lines[..|lines| - 1];
    assert forall i :: 0 <= i < |init| ==> lines[..i] == init[..i] && lines[i] == init[i];
  }

  /** One line read: a blank line always, a field line when it splits and
      a document is open; otherwise the line's own fault. */
  lemma StepFacts(t: Scan, x: string)
    ensures Step(t, x).Ok? <==> x == "" || (SplitLine(x).Ok? && t.doc.Some?)
    ensures Step(t, x).Fail? ==> Step(t, x).fault == LineFault(x)
  {
  }

  /** After reading a file, a document is open iff the file has a blank
      line, and every blank line but the first has closed one. */
  lemma {:induction false} RunShape(lines: seq<string>)
    ensures Run(Start, lines).Ok? ==> (Run(Start, lines).value.doc.Some? <==> "" in lines)
    ensures Run(Start, lines).Ok? ==> |Run(Start, lines).value.closed| == if Blanks(lines) == 0 then 0 else Blanks(lines) - 1
    decreases |lines|
  {
    BlanksCount(lines);
    if |lines| > 0 {
      var n := |lines| - 1;
      var init := lines[..n];
      RunShape(init);
      BlanksCount(init);
      assert lines == init + [lines[n]];
    }
  }

  /** Reading `a + b` is reading `a` and then `b`. */
  lemma {:induction false} RunAppend(s: Scan, a: seq<string>, b: seq<string>)
    ensures Run(s, a + b) == match Run(s, a) case Ok(t) => Run(t, b) case Fail(f) => Fail(f)
    decreases |b|
  {
    if |b| == 0 {
      assert a + b == a;
    } else {
      var n := |b| - 1;
      assert (a + b)[..|a + b| - 1] == a + b[..n];
      assert (a + b)[|a + b| - 1] == b[n];
      RunAppend(s, a, b[..n]);
    }
  }

  // ---------------------------------------------------------------------------
  // Writing documents back

  function RenderFields(r: Record): (ls: seq<string>)
    ensures |ls| == |r| && forall i :: 0 <= i < |r| ==> ls[i] == RenderLine(r[i])
  {
    seq(|r|, i requires 0 <= i < |r| => RenderLine(r[i]))
  }

  /** A document written out: its field lines, then the blank line that
      closes it. */
  function RenderRecord(r: Record): seq<string> {
    RenderFields(r) + [""]
  }

  /** A file holding `rs`: a blank line opening the first document, then
      each document closed by a blank line. */
  function Render(rs: seq<Record>): seq<string>
    decreases |rs|
  {
    if |rs| == 0 then [""] else Render(rs[..|rs| - 1]) + RenderRecord(rs[|rs| - 1])
  }

  /** No field name of the document holds ':'. */
  ghost predicate ColonFree(r: Record) {
    forall i :: 0 <= i < |r| ==> ':' !in r[i].name
  }

  ghost predicate ColonFreeNames(rs: seq<Record>) {
    forall k :: 0 <= k < |rs| ==> ColonFree(rs[k])
  }

  /** Reading a written file gives back its documents. */
  lemma GroupRender(rs: seq<Record>)
    requires ColonFreeNames(rs)
    ensures Group(Render(rs)) == Ok(rs)
  {
    RunRender(rs);
  }

  lemma {:induction false} RunRender(rs: seq<Record>)
    requires ColonFreeNames(rs)
    ensures Run(Start, Render(rs)) == Ok(Scan(Some([]), rs))
    decreases |rs|
  {
    if |rs| == 0 {
      RunOpen(rs);
    } else {
      ColonFreeInit(rs);
      RunRender(rs[..|rs| - 1]);
      RunRenderSnoc(rs);
    }
  }

  lemma RunRenderSnoc(rs: seq<Record>)
    requires |rs| > 0 && ColonFree(rs[|rs| - 1])
    requires Run(Start, Render(rs[..|rs| - 1])) == Ok(Scan(Some([]), rs[..|rs| - 1]))
    ensures Run(Start, Render(rs)) == Ok(Scan(Some([]), rs))
  {
    var n := |rs| - 1;
    SnocSplit(rs);
    RunAfter(Render(rs[..n]), rs[..n], rs[n]);
  }

  lemma SnocSplit<T>(s: seq<T>)
    requires |s| > 0
    ensures s[..|s| - 1] + [s[|s| - 1]] == s
  {
  }

  lemma ColonFreeInit(rs: seq<Record>)
    requires ColonFreeNames(rs) && |rs| > 0
    ensures ColonFreeNames(rs[..|rs| - 1])
    ensures ColonFree(rs[|rs| - 1])
  {
    assert forall k :: 0 <= k < |rs| - 1 ==> rs[..|rs| - 1][k] == rs[k];
  }

  lemma RunAfter(a: seq<string>, init: seq<Record>, r: Record)
    requires Run(Start, a) == Ok(Scan(Some([]), init))
    requires ColonFree(r)
    ensures Run(Start, a + RenderRecord(r)) == Ok(Scan(Some([]), init + [r]))
  {
    RunAppend(Start, a, RenderRecord(r));
    RunRecord(r, init);
  }

  /** A written document, read into an open empty document, is closed by
      its blank line. */
  lemma RunRecord(r: Record, closed: seq<Record>)
    requires ColonFree(r)
    ensures Run(Scan(Some([]), closed), RenderRecord(r)) == Ok(Scan(Some([]), closed + [r]))
  {
    RunFields(r, closed);
    RunAppend(Scan(Some([]), closed), RenderFields(r), [""]);
    var blank: seq<string> := [""];
    assert blank[..0] == [];
    assert Run(Scan(Some(r), closed), blank) == Step(Scan(Some(r), closed), "");
  }

  /** The first blank line opens an empty document. */
  lemma RunOpen(rs: seq<Record>)
    requires |rs| == 0
    ensures Run(Start, Render(rs)) == Ok(Scan(Some([]), rs))
  {
    assert rs == [];
    var lines: seq<string> := [""];
    assert lines[..0] == [];
    assert Run(Start, lines[..0]) == Ok(Start);
    assert lines[0] == "";
    assert Start.doc == None && Start.closed == [];
    assert Closing(Start.doc) == [];
    assert Start.closed + Closing(Start.doc) == [];
    assert Step(Start, "") == Ok(Scan(Some([]), []));
  }

  /** The field lines of a document, read into an open empty document,
      fill it with the document's fields. */
  lemma {:induction false} RunFields(r: Record, closed: seq<Record>)
    requires ColonFree(r)
    ensures Run(Scan(Some([]), closed), RenderFields(r)) == Ok(Scan(Some(r), closed))
    decreases |r|
  {
    if |r| > 0 {
      var n := |r| - 1;
      ColonFreeInitFields(r);
      RunFields(r[..n], closed);
      RunFieldsSnoc(r, closed);
    }
  }

  lemma ColonFreeInitFields(r: Record)
    requires |r| > 0 && ColonFree(r)
    ensures ColonFree(r[..|r| - 1]) && ':' !in r[|r| - 1].name
  {
    assert forall i :: 0 <= i < |r| - 1 ==> r[..|r| - 1][i] == r[i];
  }

  lemma RunFieldsSnoc(r: Record, closed: seq<Record>)
    requires |r| > 0 && ':' !in r[|r| - 1].name
    requires Run(Scan(Some([]), closed), RenderFields(r[..|r| - 1])) == Ok(Scan(Some(r[..|r| - 1]), closed))
    ensures Run(Scan(Some([]), closed), RenderFields(r)) == Ok(Scan(Some(r), closed))
  {
    var n := |r| - 1;
    var ls := RenderFields(r);
    assert ls[..n] == RenderFields(r[..n]);
    LineRoundTrip(r[n], ls[n]);
    SnocSplit(r);
  }

  /** A document the file leaves open is dropped: field lines after the
      last blank line change nothing that is read. */
  lemma UnterminatedDropped(lines: seq<string>, tail: seq<string>)
    requires WellFormed(lines + tail)
    requires forall i :: 0 <= i < |tail| ==> tail[i] != ""
    ensures Group(lines + tail) == Group(lines)
  {
    WellFormedPrefix(lines, tail);
    RunFacts(lines);
    RunFacts(lines + tail);
    RunAppend(Start, lines, tail);
    FieldLinesKeepClosed(Run(Start, lines).value, tail);
  }

  lemma WellFormedPrefix(lines: seq<string>, tail: seq<string>)
    requires WellFormed(lines + tail)
    ensures WellFormed(lines)
  {
    forall i | 0 <= i < |lines| ensures LineOk(lines[..i], lines[i]) {
      assert (lines + tail)[..i] == lines[..i] && (lines + tail)[i] == lines[i];
    }
  }

  lemma {:induction false} FieldLinesKeepClosed(s: Scan, tail: seq<string>)
    requires forall i :: 0 <= i < |tail| ==> tail[i] != ""
    ensures Run(s, tail).Ok? ==> Run(s, tail).value.closed == s.closed
    decreases |tail|
  {
    if |tail| > 0 {
      var n := |tail| - 1;
      FieldLinesKeepClosed(s, tail[..n]);
    }
  }
}
