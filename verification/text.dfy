/** Character-level routines shared by the three snapshots of the program:
    the digit filter applied to vocabulary terms, ASCII lower-casing, the
    splitting of a string into maximal runs of one character class (which
    underlies both the letter tokenizer of the evaluation code and the
    `':/` label tokenizer of the delta-kernel scorer), and decimal rendering
    of counts.
 */
module Text {

  predicate IsDigit(c: char) {
    '0' <= c <= '9'
  }

  predicate IsAsciiLetter(c: char) {
    'a' <= c <= 'z' || 'A' <= c <= 'Z'
  }

  predicate IsUpper(c: char) {
    'A' <= c <= 'Z'
  }

  /** The delimiters handed to the label tokenizer: apostrophe, colon, slash. */
  predicate IsLabelDelimiter(c: char) {
    c == '\'' || c == ':' || c == '/'
  }

  predicate NotLabelDelimiter(c: char) {
    !IsLabelDelimiter(c)
  }

  /** Every character of `w` is in the class `keep`. */
  ghost predicate AllKeep(w: string, keep: char -> bool) {
    forall j :: 0 <= j < |w| ==> keep(w[j])
  }

  // ---------------------------------------------------------------------------
  // Vocabulary filter

  /** A term is left out of every vocabulary when it holds a decimal digit. */
  function ContainsNumber(s: string): (b: bool)
    ensures b <==> exists i :: 0 <= i < |s| && IsDigit(s[i])
  {
    if |s| == 0 then false
    else if IsDigit(s[0]) then true
    else
      var rest := ContainsNumber(s[1..]);
      assert rest ==> exists i :: 0 <= i < |s| && IsDigit(s[i]) by {
        if rest {
          var k :| 0 <= k < |s[1..]| && IsDigit(s[1..][k]);
          assert IsDigit(s[k + 1]);
        }
      }
      rest
  }

  // ---------------------------------------------------------------------------
  // Lower-casing

  function LowerChar(c: char): char {
    if IsUpper(c) then (c as int + 32) as char else c
  }

  /** Lower-casing of a stored value before it is compared or tokenized.
      Only the ASCII upper-case letters change. */
  function ToLower(s: string): (r: string)
    ensures |r| == |s|
    ensures forall i :: 0 <= i < |s| ==> !IsUpper(r[i])
    ensures forall i :: 0 <= i < |s| ==> r[i] == s[i] || (IsUpper(s[i]) && r[i] as int == s[i] as int + 32)
  {
    seq(|s|, i requires 0 <= i < |s| => LowerChar(s[i]))
  }

  lemma ToLowerIdempotent(s: string)
    ensures ToLower(ToLower(s)) == ToLower(s)
  {
    var once := ToLower(s);
    var twice := ToLower(once);
    forall i | 0 <= i < |s|
      ensures twice[i] == once[i]
    {
      assert !IsUpper(once[i]);
    }
  }

  // ---------------------------------------------------------------------------
  // Maximal runs of one character class

  function Flush(cur: string): seq<string> {
    if cur == [] then [] else [cur]
  }

  /** The runs of `s`, given that the run `cur` is open when `s` starts. */
  function RunsFrom(s: string, cur: string, keep: char -> bool): (r: seq<string>)
    requires AllKeep(cur, keep)
    ensures forall i :: 0 <= i < |r| ==> |r[i]| > 0 && AllKeep(r[i], keep)
    decreases |s|
  {
    if |s| == 0 then Flush(cur)
    else if keep(s[0]) then RunsFrom(s[1..], cur + [s[0]], keep)
    else Flush(cur) + RunsFrom(s[1..], [], keep)
  }

  /** The maximal non-empty runs of characters in the class `keep`, in order. */
  function Runs(s: string, keep: char -> bool): (r: seq<string>)
    ensures forall i :: 0 <= i < |r| ==> |r[i]| > 0 && AllKeep(r[i], keep)
  {
    RunsFrom(s, [], keep)
  }

  lemma {:induction false} RunsFromSeparator(a: string, sep: char, b: string, cur: string, keep: char -> bool)
    requires AllKeep(cur, keep)
    requires !keep(sep)
    ensures RunsFrom(a + [sep] + b, cur, keep) == RunsFrom(a, cur, keep) + Runs(b, keep)
    decreases |a|
  {
    if |a| == 0 {
      assert a + [sep] + b == [sep] + b;
      assert ([sep] + b)[1..] == b;
    } else {
      var s := a + [sep] + b;
      assert s[0] == a[0];
      assert s[1..] == a[1..] + [sep] + b;
      if keep(a[0]) {
        RunsFromSeparator(a[1..], sep, b, cur + [a[0]], keep);
      } else {
        RunsFromSeparator(a[1..], sep, b, [], keep);
      }
    }
  }

  /** A separator character splits the runs: the runs of `a + [sep] + b` are
      the runs of `a` followed by the runs of `b`. */
  lemma RunsSeparator(a: string, sep: char, b: string, keep: char -> bool)
    requires !keep(sep)
    ensures Runs(a + [sep] + b, keep) == Runs(a, keep) + Runs(b, keep)
  {
    RunsFromSeparator(a, sep, b, [], keep);
  }

  lemma {:induction false} RunsFromWord(w: string, cur: string, keep: char -> bool)
    requires AllKeep(cur, keep) && AllKeep(w, keep)
    ensures RunsFrom(w, cur, keep) == Flush(cur + w)
    decreases |w|
  {
    if |w| == 0 {
      assert cur + w == cur;
    } else {
      assert keep(w[0]);
      RunsFromWord(w[1..], cur + [w[0]], keep);
      assert cur + [w[0]] + w[1..] == cur + w;
    }
  }

  /** A non-empty string made only of class characters is one run. */
  lemma RunsWord(w: string, keep: char -> bool)
    requires |w| > 0 && AllKeep(w, keep)
    ensures Runs(w, keep) == [w]
  {
    RunsFromWord(w, [], keep);
    assert [] + w == w;
  }

  // ---------------------------------------------------------------------------
  // The letter tokenizer of the evaluation code

  function LongOnly(ws: seq<string>): (r: seq<string>)
    ensures forall i :: 0 <= i < |r| ==> |r[i]| > 2 && r[i] in ws
  {
    if |ws| == 0 then []
    else (if |ws[0]| > 2 then [ws[0]] else []) + LongOnly(ws[1..])
  }

  lemma {:induction false} LongOnlyAppend(a: seq<string>, b: seq<string>)
    ensures LongOnly(a + b) == LongOnly(a) + LongOnly(b)
    decreases |a|
  {
    if |a| == 0 {
      assert a + b == b;
    } else {
      assert (a + b)[0] == a[0];
      assert (a + b)[1..] == a[1..] + b;
      LongOnlyAppend(a[1..], b);
    }
  }

  /** Splitting on every non-letter and keeping the pieces longer than two
      characters: the tokens are the maximal ASCII-letter runs of length > 2. */
  function Tokenize(s: string): (r: seq<string>)
    ensures forall i :: 0 <= i < |r| ==> |r[i]| > 2 && AllKeep(r[i], IsAsciiLetter)
  {
    LongOnly(Runs(s, IsAsciiLetter))
  }

  /** A non-letter separates tokens. */
  lemma TokenizeSeparator(a: string, sep: char, b: string)
    requires !IsAsciiLetter(sep)
    ensures Tokenize(a + [sep] + b) == Tokenize(a) + Tokenize(b)
  {
    RunsSeparator(a, sep, b, IsAsciiLetter);
    LongOnlyAppend(Runs(a, IsAsciiLetter), Runs(b, IsAsciiLetter));
  }

  /** A letter-only word is a token exactly when it is longer than two. */
  lemma TokenizeWord(w: string)
    requires |w| > 0 && AllKeep(w, IsAsciiLetter)
    ensures Tokenize(w) == if |w| > 2 then [w] else []
  {
    RunsWord(w, IsAsciiLetter);
    assert [w][1..] == [];
    assert LongOnly([w]) == (if |w| > 2 then [w] else []) + LongOnly([]);
  }

  /** The tokens of a label value: the maximal runs between the delimiters
      `'`, `:` and `/`. */
  function LabelPieces(s: string): (r: seq<string>)
    ensures forall i :: 0 <= i < |r| ==> |r[i]| > 0 && AllKeep(r[i], NotLabelDelimiter)
  {
    Runs(s, NotLabelDelimiter)
  }

  // ---------------------------------------------------------------------------
  // Decimal rendering of a count ("" + n in Java)

  function DigitChar(d: nat): (c: char)
    requires d < 10
    ensures IsDigit(c) && c as int - '0' as int == d
  {
    ('0' as int + d) as char
  }

  function NatToString(n: nat): (s: string)
    ensures |s| > 0
    ensures forall i :: 0 <= i < |s| ==> IsDigit(s[i])
    ensures s[0] == '0' ==> n == 0 && s == "0"
    decreases n
  {
    if n < 10 then [DigitChar(n)]
    else NatToString(n / 10) + [DigitChar(n % 10)]
  }

  /** The number a string of decimal digits denotes. */
  function DecimalValue(s: string): nat
    requires forall i :: 0 <= i < |s| ==> IsDigit(s[i])
  {
    if |s| == 0 then 0
    else
      assert IsDigit(s[|s| - 1]);
      DecimalValue(s[..|s| - 1]) * 10 + (s[|s| - 1] as int - '0' as int)
  }

  /** Reading back the rendered count gives the count. */
  lemma {:induction false} DecimalRoundTrip(n: nat)
    ensures DecimalValue(NatToString(n)) == n
    decreases n
  {
    var s := NatToString(n);
    if n >= 10 {
      DecimalRoundTrip(n / 10);
      assert s[..|s| - 1] == NatToString(n / 10);
    }
  }
}
