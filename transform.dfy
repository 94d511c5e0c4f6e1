/** The line transformer of `read_and_modify_file` (file_handler.py): every
    input line becomes `Line {i}: {TEXT} [Words: {n}]\n`, numbered from 1,
    and an input without lines is refused before anything is written. */
module Transform {
  import opened Wrappers
  import opened Text
  import opened Decimal
  import opened Lines

  /** What one output line reports: its 1-based number, the upper-cased text
      of the input line without trailing whitespace, and its word count. */
  datatype Entry = Entry(index: nat, text: string, words: nat)

  /** The f-string `f"Line {index}: {uppercase_line} [Words: {word_count}]\n"`. */
  function Render(e: Entry): string {
    Header(e.index) + e.text + Trailer(e.words)
  }

  /** `"Line {index}: "`, the part of an output line before the text. */
  function Header(index: nat): string {
    "Line " + FromNat(index) + ": "
  }

  /** `" [Words: {word_count}]\n"`, the part of an output line after the text. */
  function Trailer(words: nat): string {
    " [Words: " + FromNat(words) + "]\n"
  }

  /** The entry the source computes for the `index`-th line: `rstrip()`, then
      `upper()` of the stripped text, and `len(split())` of the stripped text. */
  function EntryOf(index: nat, line: string): (e: Entry)
    ensures e.index == index
    ensures |e.text| <= |line|
    ensures e.text == [] || !IsSpace(e.text[|e.text| - 1])
    ensures forall i :: 0 <= i < |e.text| ==> !IsAsciiLower(e.text[i])
    ensures e.words == WordCount(line)
    ensures 2 * e.words <= |e.text| + 1
  {
    var stripped := RStrip(line);
    WordCountRStrip(line);
    WordCountBound(stripped);
    Entry(index, Upper(stripped), WordCount(stripped))
  }

  /** One output line, exactly as the loop body appends it. */
  function FormatLine(index: nat, line: string): string {
    Render(EntryOf(index, line))
  }

  /** The whole list `modified_lines` for the given input lines. */
  function FormatAll(lines: seq<string>): seq<string> {
    seq(|lines|, i requires 0 <= i < |lines| => FormatLine(i + 1, lines[i]))
  }

  /** The loop of `read_and_modify_file` over `enumerate(lines, start=1)`:
      one formatted line per input line, in input order, numbered from 1. */
  method ModifyLines(lines: seq<string>) returns (modified: seq<string>)
    ensures |modified| == |lines|
    ensures forall i :: 0 <= i < |lines| ==> modified[i] == FormatLine(i + 1, lines[i])
    ensures modified == FormatAll(lines)
  {
    modified := [];
    for k := 0 to |lines|
      invariant modified == FormatAll(lines[..k])
    {
      var index := k + 1;
      FormatAllSnoc(lines, k);
      modified := modified + [FormatLine(index, lines[k])];
    }
    assert lines[..|lines|] == lines;
  }

  /** Formatting one more input line appends its output line. */
  lemma FormatAllSnoc(lines: seq<string>, k: nat)
    requires k < |lines|
    ensures FormatAll(lines[..k + 1]) == FormatAll(lines[..k]) + [FormatLine(k + 1, lines[k])]
  {
  }

  // ---------------------------------------------------------------------
  // Reading an output line back

  /** Number of leading decimal digits. */
  function LeadingDigits(s: string): (k: nat)
    ensures k <= |s|
    ensures forall i :: 0 <= i < k ==> IsDigit(s[i])
    ensures k == |s| || !IsDigit(s[k])
    decreases |s|
  {
    if s == [] || !IsDigit(s[0]) then 0
    else 1 + LeadingDigits(s[1..])
  }

  /** Number of trailing decimal digits. */
  function TrailingDigits(s: string): (k: nat)
    ensures k <= |s|
    ensures forall i :: |s| - k <= i < |s| ==> IsDigit(s[i])
    ensures k == |s| || !IsDigit(s[|s| - k - 1])
    decreases |s|
  {
    if s == [] || !IsDigit(s[|s| - 1]) then 0
    else 1 + TrailingDigits(s[..|s| - 1])
  }

  /** Reads the header of an output line: its number and what follows. */
  function ParseHeader(s: string): Option<(nat, string)> {
    if |s| < 5 || s[..5] != "Line " then None
    else ParseIndex(s[5..])
  }

  /** Reads the number and the `": "` that follow `"Line "`. */
  function ParseIndex(rest: string): Option<(nat, string)> {
    var k := LeadingDigits(rest);
    if k == 0 || |rest| < k + 2 || rest[k..k + 2] != ": " then None
    else
      var d := rest[..k];
      assert AllDigits(d) by {
        forall i | 0 <= i < |d| ensures IsDigit(d[i]) {
          assert d[i] == rest[i];
        }
      }
      Some((Value(d), rest[k + 2..]))
  }

  /** Reads the trailer of an output line: the text before it and the word
      count it reports. */
  function ParseTrailer(s: string): Option<(string, nat)> {
    if |s| < 2 || s[|s| - 2..] != "]\n" then None
    else ParseCount(s[..|s| - 2])
  }

  /** Reads the text and the `" [Words: "` count that precede `"]\n"`. */
  function ParseCount(b: string): Option<(string, nat)> {
    var m := TrailingDigits(b);
    if m == 0 || |b| - m < 9 || b[|b| - m - 9..|b| - m] != " [Words: " then None
    else
      var d := b[|b| - m..];
      assert AllDigits(d) by {
        forall i | 0 <= i < |d| ensures IsDigit(d[i]) {
          assert d[i] == b[|b| - m + i];
        }
      }
      Some((b[..|b| - m - 9], Value(d)))
  }

  /** Reads an output line back into the entry it reports, or `None` when
      the line does not have the output format. */
  function ParseEntry(s: string): Option<Entry> {
    match ParseHeader(s)
    case None => None
    case Some((index, rest)) =>
      match ParseTrailer(rest)
      case None => None
      case Some((text, words)) => Some(Entry(index, text, words))
  }

  lemma {:induction false} LeadingDigitsOf(d: string, t: string)
    requires AllDigits(d)
    requires t != [] && !IsDigit(t[0])
    ensures LeadingDigits(d + t) == |d|
    decreases |d|
  {
    if d != [] {
      assert (d + t)[0] == d[0];
      assert (d + t)[1..] == d[1..] + t;
      LeadingDigitsOf(d[1..], t);
    } else {
      assert d + t == t;
    }
  }

  lemma {:induction false} TrailingDigitsOf(t: string, d: string)
    requires AllDigits(d)
    requires t != [] && !IsDigit(t[|t| - 1])
    ensures TrailingDigits(t + d) == |d|
    decreases |d|
  {
    if d != [] {
      var p := d[..|d| - 1];
      assert (t + d)[..|t + d| - 1] == t + p;
      TrailingDigitsOf(t, p);
    }
  }

  lemma ParseHeaderOf(index: nat, x: string)
    ensures ParseHeader(Header(index) + x) == Some((index, x))
  {
    var rest := FromNat(index) + (": " + x);
    var s := Header(index) + x;
    assert s == "Line " + rest;
    assert s[..5] == "Line " && s[5..] == rest;
    ParseIndexOf(index, x);
  }

  lemma ParseIndexOf(index: nat, x: string)
    ensures ParseIndex(FromNat(index) + (": " + x)) == Some((index, x))
  {
    var d := FromNat(index);
    var tail := ": " + x;
    var rest := d + tail;
    LeadingDigitsOf(d, tail);
    assert rest[..|d|] == d;
    assert rest[|d|..|d| + 2] == ": ";
    assert rest[|d| + 2..] == x;
    ValueFromNat(index);
  }

  lemma ParseTrailerOf(x: string, words: nat)
    ensures ParseTrailer(x + Trailer(words)) == Some((x, words))
  {
    var b := x + " [Words: " + FromNat(words);
    var s := x + Trailer(words);
    assert s == b + "]\n";
    assert s[|s| - 2..] == "]\n" && s[..|s| - 2] == b;
    ParseCountOf(x, words);
  }

  lemma ParseCountOf(x: string, words: nat)
    ensures ParseCount(x + " [Words: " + FromNat(words)) == Some((x, words))
  {
    var w := FromNat(words);
    var tag := " [Words: ";
    var head := x + tag;
    var b := head + w;
    TrailingDigitsOf(head, w);
    var m := |w|;
    assert b[|b| - m..] == w && b[..|b| - m] == head;
    SuffixLabel(x, tag, head);
    assert b[|b| - m - 9..|b| - m] == head[|head| - 9..];
    assert b[..|b| - m - 9] == head[..|head| - 9];
    ValueFromNat(words);
  }

  lemma SuffixLabel(x: string, tag: string, h: string)
    requires h == x + tag
    ensures h[|h| - |tag|..] == tag && h[..|h| - |tag|] == x
  {
  }

  /** The output format is unambiguous: every rendered line reads back as the
      entry it was rendered from, whatever text the line carries. */
  lemma ParseRender(e: Entry)
    ensures ParseEntry(Render(e)) == Some(e)
  {
    var rest := e.text + Trailer(e.words);
    assert Render(e) == Header(e.index) + rest;
    ParseHeaderOf(e.index, rest);
    ParseTrailerOf(e.text, e.words);
  }

  /** Output line `i` reports number `i`, the upper-cased stripped input line
      and its word count, and nothing else. */
  lemma FormatLineReads(index: nat, line: string)
    ensures ParseEntry(FormatLine(index, line))
            == Some(Entry(index, Upper(RStrip(line)), WordCount(line)))
  {
    ParseRender(EntryOf(index, line));
  }

  /** Trailing whitespace on an input line, its newline included, never
      reaches the output. */
  lemma FormatLineIgnoresTrailingSpace(index: nat, line: string, w: string)
    requires AllSpace(w)
    ensures FormatLine(index, line + w) == FormatLine(index, line)
  {
    var r := RStrip(line);
    var tail := line[|r|..];
    assert line == r + tail;
    assert line + w == r + (tail + w);
    RStripAppendSpace(r, tail + w);
    RStripAppendSpace(r, tail);
  }

  predicate NoNewline(s: string) {
    forall i :: 0 <= i < |s| ==> s[i] != '\n'
  }

  lemma TerminatedAfter(a: string, l: string)
    requires NoNewline(a) && IsTerminated(l)
    ensures IsTerminated(a + l)
  {
    forall i | 0 <= i < |a + l| - 1 ensures (a + l)[i] != '\n' {
      if i >= |a| {
        assert (a + l)[i] == l[i - |a|];
      }
    }
  }

  lemma DigitsNoNewline(d: string)
    requires AllDigits(d)
    ensures NoNewline(d)
  {
  }

  /** A line whose text has no trailing whitespace is output as that text,
      upper-cased, with its word count, whether or not it ends in a newline. */
  lemma FormatTrimmedLine(index: nat, text: string)
    requires text == [] || !IsSpace(text[|text| - 1])
    ensures FormatLine(index, text + "\n") == FormatLine(index, text)
    ensures FormatLine(index, text) == Header(index) + Upper(text) + Trailer(WordCount(text))
  {
    FormatLineIgnoresTrailingSpace(index, text, "\n");
    RStripOfTrimmed(text);
  }

  /** A line made of words separated by single spaces and ended by a newline
      is output as its upper-cased words and their number. */
  lemma FormatWordsLine(index: nat, words: seq<string>)
    requires words != [] && forall j :: 0 <= j < |words| ==> IsWord(words[j])
    ensures FormatLine(index, JoinWords(words) + "\n")
            == Header(index) + Upper(JoinWords(words)) + Trailer(|words|)
  {
    var text := JoinWords(words);
    JoinWordsEnd(words);
    FormatTrimmedLine(index, text);
    SplitJoinWords(words);
  }

  lemma {:induction false} JoinWordsEnd(words: seq<string>)
    requires words != [] && forall j :: 0 <= j < |words| ==> IsWord(words[j])
    ensures var t := JoinWords(words); t != [] && !IsSpace(t[|t| - 1])
    decreases |words|
  {
    if |words| > 1 {
      JoinWordsEnd(words[1..]);
    }
  }

  /** A line as `readlines()` returns it loses its newline under `rstrip()`,
      so its output line is a single terminated line. */
  lemma FormatLineTerminated(index: nat, line: string)
    requires IsLine(line)
    ensures IsTerminated(FormatLine(index, line))
  {
    var e := EntryOf(index, line);
    RStripLineNoNewline(line);
    UpperNoNewline(RStrip(line));
    TrailerTerminated(e.words);
    TerminatedAfter(e.text, Trailer(e.words));
    HeaderNoNewline(index);
    TerminatedAfter(Header(index), e.text + Trailer(e.words));
    assert FormatLine(index, line) == Header(index) + (e.text + Trailer(e.words));
  }

  /** `rstrip()` removes the newline of a line, the only one it can hold. */
  lemma RStripLineNoNewline(line: string)
    requires IsLine(line)
    ensures NoNewline(RStrip(line))
  {
    var r := RStrip(line);
    forall i | 0 <= i < |r| ensures r[i] != '\n' {
      assert r[i] == line[i];
      if i == |line| - 1 {
        assert !IsSpace(r[|r| - 1]);
      }
    }
  }

  lemma UpperNoNewline(s: string)
    requires NoNewline(s)
    ensures NoNewline(Upper(s))
  {
    UpperProperties(s);
    forall i | 0 <= i < |s| ensures Upper(s)[i] != '\n' {
      assert IsSpace(Upper(s)[i]) <==> IsSpace(s[i]);
    }
  }

  lemma TrailerTerminated(words: nat)
    ensures IsTerminated(Trailer(words))
  {
    var d := FromNat(words);
    DigitsNoNewline(d);
    TerminatedAfter(" [Words: " + d, "]\n");
    assert Trailer(words) == " [Words: " + d + "]\n";
  }

  lemma HeaderNoNewline(index: nat)
    ensures NoNewline(Header(index))
  {
    var d := FromNat(index);
    DigitsNoNewline(d);
    assert Header(index) == "Line " + d + ": ";
  }

  // ---------------------------------------------------------------------
  // The whole operation on a file's content

  /** The lines written for an input file with content `content`. */
  function TransformText(content: string): seq<string> {
    FormatAll(SplitLines(content))
  }

  /** The written file reads back, line for line, as the formatted lines:
      one per input line and in input order. */
  lemma OutputReadsBack(content: string)
    ensures SplitLines(Concat(TransformText(content))) == TransformText(content)
    ensures |SplitLines(Concat(TransformText(content)))| == |SplitLines(content)|
  {
    var lines := SplitLines(content);
    var out := TransformText(content);
    forall j | 0 <= j < |out| ensures IsTerminated(out[j]) {
      FormatLineTerminated(j + 1, lines[j]);
    }
    SplitLinesConcat(out);
  }

  /** Whether the last input line ends with a newline does not change the
      output. */
  lemma TrailingNewlineIrrelevant(content: string)
    requires content != [] && content[|content| - 1] != '\n'
    ensures TransformText(content + "\n") == TransformText(content)
  {
    SplitLinesAddNewline(content);
    FormatAllTerminateLast(SplitLines(content));
  }

  /** Adding a newline to the last input line leaves every output line as it was. */
  lemma FormatAllTerminateLast(lines: seq<string>)
    requires lines != []
    ensures FormatAll(TerminateLast(lines)) == FormatAll(lines)
  {
    var lines' := TerminateLast(lines);
    TerminateLastAt(lines);
    var n := |lines|;
    FormatLineIgnoresTrailingSpace(n, lines[n - 1], "\n");
    forall i | 0 <= i < n ensures FormatAll(lines')[i] == FormatAll(lines)[i] {
      if i < n - 1 {
        assert lines'[i] == lines[i];
      }
    }
  }

  /** The error causes of the source's `except` clauses, kept as tags. */
  datatype IoError =
    | FileNotFound
    | PermissionDenied
    | IoFailure(detail: string)
    | Unexpected(detail: string)

  /** The result of reading the input file. */
  datatype ReadResult = Read(content: string) | ReadFailed(error: IoError)

  /** What `read_and_modify_file` ends with: the written content and the
      number of lines processed, the empty-input refusal, or a fault. */
  datatype Outcome =
    | Written(content: string, count: nat)
    | EmptyInput
    | Failed(error: IoError)
  {
    /** The boolean the source returns. */
    predicate Succeeded() {
      Written?
    }
  }

  /** `read_and_modify_file` with its file system replaced by the result of
      reading the input file and the fault, if any, of writing the output.
      An empty input is refused before the write, and a written file holds
      exactly one formatted line per input line. */
  method ReadAndModify(read: ReadResult, writeFault: Option<IoError>) returns (outcome: Outcome)
    ensures read.ReadFailed? ==> outcome == Failed(read.error)
    ensures read.Read? && read.content == [] ==> outcome == EmptyInput
    ensures read.Read? && read.content != [] && writeFault.Some? ==> outcome == Failed(writeFault.value)
    ensures outcome.Succeeded() <==> read.Read? && read.content != [] && writeFault.None?
    ensures outcome.Written? ==>
              outcome.count == |SplitLines(read.content)| > 0
              && SplitLines(outcome.content) == TransformText(read.content)
  {
    if read.ReadFailed? {
      return Failed(read.error);
    }
    var lines := SplitLines(read.content);
    if lines == [] {
      return EmptyInput;
    }
    var modified := ModifyLines(lines);
    if writeFault.Some? {
      return Failed(writeFault.value);
    }
    OutputReadsBack(read.content);
    outcome := Written(Concat(modified), |lines|);
  }
}
