/** The src snapshot's index builder (NSDLIndex.createIndex): every
    document read is stored with four extra fields holding, in decimal, how
    many audience, educationLevel, subject and sub values it has.
 */
module SrcIndex {
  import opened Wrappers
  import opened Text
  import opened Records

  /** The fields whose values are counted, in the order the count fields
      are added. */
  const Counted: seq<string> := ["audience", "educationLevel", "subject", "sub"]

  function CountName(name: string): string {
    "num_" + name
  }

  /** The four count fields of a document, "" + n rendering each count. */
  function Counts(r: Record): (cs: seq<Field>)
    ensures |cs| == |Counted|
    ensures forall k :: 0 <= k < |Counted| ==> cs[k] == Field(CountName(Counted[k]), NatToString(|Values(r, Counted[k])|))
  {
    seq(|Counted|, k requires 0 <= k < |Counted| => Field(CountName(Counted[k]), NatToString(|Values(r, Counted[k])|)))
  }

  /** A closed document as it is stored. */
  function WithCounts(r: Record): Record {
    r + Counts(r)
  }

  lemma CountNamesDistinct(cs: seq<Field>, r: Record)
    requires cs == Counts(r)
    ensures forall i, j :: 0 <= i < j < |cs| ==> cs[i].name != cs[j].name
  {
    assert |Counted[0]| == 8 && |Counted[1]| == 14 && |Counted[2]| == 7 && |Counted[3]| == 3;
    assert forall i :: 0 <= i < |cs| ==> |cs[i].name| == 4 + |Counted[i]|;
  }

  /** Reading a count field back gives the number of values it counts, and
      every other field of the stored document is the document's own. */
  lemma CountsReadBack(r: Record, k: nat, name: string)
    requires k < |Counted|
    ensures Values(WithCounts(r), CountName(Counted[k])) == Values(r, CountName(Counted[k])) + [NatToString(|Values(r, Counted[k])|)]
    ensures DecimalValue(NatToString(|Values(r, Counted[k])|)) == |Values(r, Counted[k])|
    ensures (forall j :: 0 <= j < |Counted| ==> name != CountName(Counted[j])) ==> Values(WithCounts(r), name) == Values(r, name)
  {
    var cs := Counts(r);
    CountNamesDistinct(cs, r);
    ValuesAppend(r, cs, CountName(Counted[k]));
    ValuesUniqueNames(cs, CountName(Counted[k]));
    ValuesAppend(r, cs, name);
    ValuesUniqueNames(cs, name);
    DecimalRoundTrip(|Values(r, Counted[k])|);
  }

  /** createIndex: the documents read, in file order, each with its count
      fields; the file's first unreadable line stops the build. */
  function CreateIndex(lines: seq<string>): (r: Outcome<seq<Record>>)
    ensures r.Ok? <==> WellFormed(lines)
    ensures r.Fail? ==> r == Group(lines)
    ensures r.Ok? ==> |r.value| == |Group(lines).value|
    ensures r.Ok? ==> forall k :: 0 <= k < |r.value| ==> r.value[k] == WithCounts(Group(lines).value[k])
  {
    var rs :- Group(lines);
    Ok(seq(|rs|, k requires 0 <= k < |rs| => WithCounts(rs[k])))
  }

  /** A written file is stored as its documents with their counts. */
  lemma CreateIndexOfRendered(rs: seq<Record>)
    requires ColonFreeNames(rs)
    ensures CreateIndex(Render(rs)).Ok?
    ensures |CreateIndex(Render(rs)).value| == |rs|
    ensures forall k :: 0 <= k < |rs| ==> CreateIndex(Render(rs)).value[k] == WithCounts(rs[k])
  {
    GroupRender(rs);
  }
}
