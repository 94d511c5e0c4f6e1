/** The line structure of a text file as `readlines()` sees it and as
    `writelines()` produces it: a line keeps its `'\n'` terminator, and only the
    last line of a file may lack one. Contents are taken after Python's
    universal-newline translation, so `'\n'` is the only terminator. */
module Lines {

  /** A line as `readlines()` returns it: non-empty, with `'\n'` at most as
      its last character. */
  predicate IsLine(l: string) {
    l != [] && forall i :: 0 <= i < |l| - 1 ==> l[i] != '\n'
  }

  /** A line that ends with its terminator. */
  predicate IsTerminated(l: string) {
    IsLine(l) && l[|l| - 1] == '\n'
  }

  /** Length of the first line of `s`: up to and including the first `'\n'`,
      or all of `s` when it has none. */
  function FirstLineLen(s: string): (k: nat)
    requires s != []
    ensures 1 <= k <= |s|
    ensures forall i :: 0 <= i < k - 1 ==> s[i] != '\n'
    ensures k < |s| ==> s[k - 1] == '\n'
    ensures k == |s| && s[k - 1] != '\n' ==> '\n' !in s
    decreases |s|
  {
    if s[0] == '\n' || |s| == 1 then 1 else 1 + FirstLineLen(s[1..])
  }

  /** `f.readlines()` on a file whose content is `s`. */
  function SplitLines(s: string): (lines: seq<string>)
    ensures forall j :: 0 <= j < |lines| ==> IsLine(lines[j])
    ensures forall j :: 0 <= j < |lines| - 1 ==> IsTerminated(lines[j])
    ensures lines == [] <==> s == []
    decreases |s|
  {
    if s == [] then []
    else
      var k := FirstLineLen(s);
      [s[..k]] + SplitLines(s[k..])
  }

  /** `f.writelines(lines)`: the lines written one after the other. */
  function Concat(lines: seq<string>): string {
    if lines == [] then [] else lines[0] + Concat(lines[1..])
  }

  /** Writing back what was read reproduces the file exactly. */
  lemma {:induction false} ConcatSplitLines(s: string)
    ensures Concat(SplitLines(s)) == s
    decreases |s|
  {
    if s != [] {
      var k := FirstLineLen(s);
      ConcatSplitLines(s[k..]);
      assert SplitLines(s)[1..] == SplitLines(s[k..]);
      assert s == s[..k] + s[k..];
    }
  }

  /** Reading back what was written with terminated lines gives those lines:
      this is how a file produced by `writelines()` reads again. */
  lemma {:induction false} SplitLinesConcat(lines: seq<string>)
    requires forall j :: 0 <= j < |lines| ==> IsTerminated(lines[j])
    ensures SplitLines(Concat(lines)) == lines
    decreases |lines|
  {
    if lines != [] {
      var l := lines[0];
      var rest := Concat(lines[1..]);
      var s := l + rest;
      assert Concat(lines) == s;
      FirstLineLenOfLine(l, rest);
      assert s[..|l|] == l && s[|l|..] == rest;
      SplitLinesConcat(lines[1..]);
      assert lines == [l] + lines[1..];
    }
  }

  lemma {:induction false} FirstLineLenOfLine(l: string, rest: string)
    requires IsTerminated(l)
    ensures FirstLineLen(l + rest) == |l|
    decreases |l|
  {
    if |l| > 1 {
      assert (l + rest)[1..] == l[1..] + rest;
      FirstLineLenOfLine(l[1..], rest);
    }
  }

  /** The lines with a `'\n'` added to the last one. */
  function TerminateLast(lines: seq<string>): seq<string>
    requires lines != []
  {
    lines[..|lines| - 1] + [lines[|lines| - 1] + "\n"]
  }

  /** `TerminateLast` keeps every line but the last, which gains the `'\n'`. */
  lemma TerminateLastAt(lines: seq<string>)
    requires lines != []
    ensures |TerminateLast(lines)| == |lines|
    ensures forall i :: 0 <= i < |lines| - 1 ==> TerminateLast(lines)[i] == lines[i]
    ensures TerminateLast(lines)[|lines| - 1] == lines[|lines| - 1] + "\n"
  {
  }

  /** Adding the missing terminator to a file changes only its last line,
      which gains the `'\n'`. */
  lemma {:induction false} SplitLinesAddNewline(s: string)
    requires s != [] && s[|s| - 1] != '\n'
    ensures SplitLines(s + "\n") == TerminateLast(SplitLines(s))
    decreases |s|
  {
    var k := FirstLineLen(s);
    if k == |s| {
      SplitLinesSingle(s);
    } else {
      var u := s[k..];
      SplitLinesAddNewline(u);
      SplitLinesStep(s, k, u);
      TerminateLastCons(s[..k], SplitLines(u));
    }
  }

  /** A file without any terminator is one line, and stays one line when the
      terminator is added. */
  lemma SplitLinesSingle(s: string)
    requires s != [] && FirstLineLen(s) == |s| && s[|s| - 1] != '\n'
    ensures SplitLines(s) == [s]
    ensures SplitLines(s + "\n") == [s + "\n"]
  {
    FirstLineLenNoNewline(s);
    SplitLinesWhole(s);
    SplitLinesWhole(s + "\n");
  }

  lemma SplitLinesWhole(s: string)
    requires s != [] && FirstLineLen(s) == |s|
    ensures SplitLines(s) == [s]
  {
    assert s[..|s|] == s;
    assert SplitLines(s[|s|..]) == [];
  }

  /** Splitting `s` and `s + "\n"` both start with the first line of `s` when
      that line is terminated. */
  lemma SplitLinesStep(s: string, k: nat, u: string)
    requires s != [] && k == FirstLineLen(s) && k < |s| && u == s[k..]
    ensures SplitLines(s) == [s[..k]] + SplitLines(u)
    ensures SplitLines(s + "\n") == [s[..k]] + SplitLines(u + "\n")
  {
    var t := s + "\n";
    assert IsTerminated(s[..k]);
    FirstLineLenOfLine(s[..k], u + "\n");
    assert s[..k] + (u + "\n") == t;
    assert t[..k] == s[..k] && t[k..] == u + "\n";
  }

  lemma TerminateLastCons(l: string, rest: seq<string>)
    requires rest != []
    ensures [l] + TerminateLast(rest) == TerminateLast([l] + rest)
  {
    assert ([l] + rest)[..|rest|] == [l] + rest[..|rest| - 1];
  }

  lemma {:induction false} FirstLineLenNoNewline(s: string)
    requires s != [] && '\n' !in s
    ensures FirstLineLen(s + "\n") == |s| + 1
    decreases |s|
  {
    if |s| > 1 {
      assert (s + "\n")[1..] == s[1..] + "\n";
      FirstLineLenNoNewline(s[1..]);
    }
  }
}
