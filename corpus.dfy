/**
 Reading a training corpus: how one line is split into a class label and a
 message, and training a filter on a corpus, one line after another.
 */
module Corpus {
  import opened Words
  import opened Training
  import opened Classifier

  /** `s.ends_with(c)` for a one-character pattern. */
  predicate EndsWithChar(s: string, c: char)
  {
    |s| > 0 && s[|s| - 1] == c
  }

  /** `s.ends_with("01")`: the line ends with the label marker. */
  predicate EndsWithMarker(s: string)
  {
    |s| >= 2 && s[|s| - 2] == '0' && s[|s| - 1] == '1'
  }

  /** The label marker "01" repeated `k` times. */
  function Repeat01(k: nat): string
  {
    if k == 0 then [] else Repeat01(k - 1) + "01"
  }

  /**
   `line.trim_end_matches("01")`: removes the trailing "01" again and again; what
   is left is a prefix of the line that no longer ends with "01".
   */
  function StripLabel(s: string): (r: string)
    ensures |r| <= |s| && r == s[..|r|]
    ensures !EndsWithMarker(r)
    decreases |s|
  {
    if EndsWithMarker(s) then StripLabel(s[..|s| - 2]) else s
  }

  /** Exactly a whole number of "01" markers is removed. */
  lemma {:induction false} StripLabelRepeats(s: string)
    ensures exists k: nat :: s == StripLabel(s) + Repeat01(k)
    decreases |s|
  {
    if EndsWithMarker(s) {
      var init := s[..|s| - 2];
      StripLabelRepeats(init);
      var k: nat :| init == StripLabel(init) + Repeat01(k);
      assert s == init + "01";
      assert s == StripLabel(s) + Repeat01(k + 1);
    } else {
      assert s == StripLabel(s) + Repeat01(0);
    }
  }

  /**
   The label rule of a training line: the line is spam exactly when it ends
   with '1', and the message is the line without its trailing "01" markers,
   trimmed of whitespace on both sides.
   */
  function ParseLine(line: string): (e: Example)
    ensures e.message == [] || (!IsWhitespace(e.message[0]) && !IsWhitespace(e.message[|e.message| - 1]))
    ensures e.isSpam <==> EndsWithChar(line, '1')
  {
    Example(Trim(StripLabel(line)), EndsWithChar(line, '1'))
  }

  /** The message has the same tokens as the line without its markers: trimming drops no token. */
  lemma ParseLineTokens(line: string)
    ensures Tokens(ParseLine(line).message) == Tokens(StripLabel(line))
  {
    TokensOfTrim(StripLabel(line));
  }

  /** The message is a contiguous piece of the line. */
  lemma ParseLineSubstring(line: string)
    ensures exists i, j :: 0 <= i <= j <= |line| && ParseLine(line).message == line[i..j]
  {
    var stripped := StripLabel(line);
    var e := TrimEnd(stripped);
    var m := TrimStart(e);
    assert ParseLine(line).message == m;
    var i, j := |e| - |m|, |e|;
    assert e == line[..j];
    assert m == e[i..];
    assert 0 <= i <= j <= |line| && ParseLine(line).message == line[i..j];
  }

  /** A line that ends with a space and "01" is spam, and its message is the rest of the line, trimmed. */
  lemma ParseMarkedSpam(body: string)
    ensures ParseLine(body + " 01") == Example(Trim(body), true)
  {
    var line := body + " 01";
    var spaced := body + " ";
    assert line[..|line| - 2] == spaced;
    assert spaced[|spaced| - 1] == ' ';
    assert StripLabel(spaced) == spaced;
    assert StripLabel(line) == spaced;
    assert spaced[..|spaced| - 1] == body;
    assert TrimEnd(spaced) == TrimEnd(body);
  }

  /**
   A line ending in '1' that is not preceded by '0' is spam, yet keeps that '1'
   as the last character of its message (for instance "buy now 11").
   */
  lemma ParseLoneSpamLabel(line: string)
    requires EndsWithChar(line, '1') && !EndsWithMarker(line)
    ensures ParseLine(line).isSpam
    ensures var m := ParseLine(line).message; |m| > 0 && m[|m| - 1] == '1'
  {
    TrimKeepsLast(line);
  }

  /**
   A line ending in '0' is ham, and keeps that '0' as the last character of its
   message: only the marker "01" is ever removed.
   */
  lemma ParseHamLabel(line: string)
    requires EndsWithChar(line, '0')
    ensures !ParseLine(line).isSpam
    ensures var m := ParseLine(line).message; |m| > 0 && m[|m| - 1] == '0'
  {
    TrimKeepsLast(line);
  }

  /** The examples a corpus yields, one per line and in the same order. */
  function ParseLines(lines: seq<string>): (examples: seq<Example>)
    ensures |examples| == |lines|
    ensures forall k :: 0 <= k < |lines| ==> examples[k] == ParseLine(lines[k])
    decreases |lines|
  {
    if lines == [] then [] else ParseLines(lines[..|lines| - 1]) + [ParseLine(lines[|lines| - 1])]
  }

  /** One more line parsed: the step of the training loop. */
  lemma ParseLinesStep(lines: seq<string>, k: nat)
    requires k < |lines|
    ensures ParseLines(lines[..k + 1]) == ParseLines(lines[..k]) + [ParseLine(lines[k])]
  {
    assert lines[..k + 1][..k] == lines[..k];
  }

  /** The training loop over a corpus: each line is parsed and trained, in order. */
  method TrainCorpus(filter: SpamFilter, lines: seq<string>)
    requires filter.Valid()
    modifies filter
    ensures filter.Valid()
    ensures filter.State() == TrainAll(old(filter.State()), ParseLines(lines))
  {
    for k := 0 to |lines|
      invariant filter.Valid()
      invariant filter.State() == TrainAll(old(filter.State()), ParseLines(lines[..k]))
    {
      var example := ParseLine(lines[k]);
      ParseLinesStep(lines, k);
      ghost var done := ParseLines(lines[..k]);
      assert (done + [example])[..k] == done;
      filter.Train(example.message, example.isSpam);
    }
    assert lines[..|lines|] == lines;
  }
}
