/** Character classes and the three string operations the line transformer
    applies to every line: `rstrip()`, `upper()` and `split()` (all without
    arguments), plus `strip()`, which the menu applies to typed file names. */
module Text {

  /** Python's `str.isspace()`: the characters that `split()`, `strip()` and
      `rstrip()` treat as whitespace when called without arguments. */
  predicate IsSpace(c: char) {
    ('\t' <= c <= '\r') || ('\U{1C}' <= c <= ' ')
    || c == '\U{85}' || c == '\U{A0}' || c == '\U{1680}'
    || ('\U{2000}' <= c <= '\U{200A}') || c == '\U{2028}' || c == '\U{2029}'
    || c == '\U{202F}' || c == '\U{205F}' || c == '\U{3000}'
  }

  predicate AllSpace(s: string) {
    forall i :: 0 <= i < |s| ==> IsSpace(s[i])
  }

  predicate NoSpace(s: string) {
    forall i :: 0 <= i < |s| ==> !IsSpace(s[i])
  }

  predicate IsAsciiLower(c: char) {
    'a' <= c <= 'z'
  }

  /** Upper-casing of one character, restricted to the ASCII letters. */
  function UpperChar(c: char): (u: char)
    ensures !IsAsciiLower(u)
    ensures IsSpace(u) <==> IsSpace(c)
    ensures !IsAsciiLower(c) ==> u == c
    ensures IsAsciiLower(c) ==> 'A' <= u <= 'Z' && u as int + 32 == c as int
  {
    if IsAsciiLower(c) then (c as int - 32) as char else c
  }

  /** `s.upper()`, restricted to ASCII letters. */
  function Upper(s: string): (u: string) {
    seq(|s|, i requires 0 <= i < |s| => UpperChar(s[i]))
  }

  /** Upper-casing keeps the length and every whitespace position, leaves no
      lower-case ASCII letter behind, and a second pass changes nothing. */
  lemma UpperProperties(s: string)
    ensures |Upper(s)| == |s|
    ensures forall i :: 0 <= i < |s| ==> (IsSpace(Upper(s)[i]) <==> IsSpace(s[i]))
    ensures forall i :: 0 <= i < |s| ==> !IsAsciiLower(Upper(s)[i])
    ensures Upper(Upper(s)) == Upper(s)
  {
  }

  /** `s.rstrip()`: the longest prefix of `s` that does not end in whitespace;
      everything cut off is whitespace. */
  function RStrip(s: string): (r: string)
    ensures |r| <= |s| && r == s[..|r|]
    ensures forall i :: |r| <= i < |s| ==> IsSpace(s[i])
    ensures r == [] || !IsSpace(r[|r| - 1])
    decreases |s|
  {
    if |s| > 0 && IsSpace(s[|s| - 1]) then RStrip(s[..|s| - 1]) else s
  }

  /** `s.lstrip()`: the longest suffix of `s` that does not start with
      whitespace; everything cut off is whitespace. */
  function LStrip(s: string): (r: string)
    ensures |r| <= |s| && r == s[|s| - |r|..]
    ensures forall i :: 0 <= i < |s| - |r| ==> IsSpace(s[i])
    ensures r == [] || !IsSpace(r[0])
    decreases |s|
  {
    if |s| > 0 && IsSpace(s[0]) then LStrip(s[1..]) else s
  }

  /** `s.strip()`: empty exactly when `s` is all whitespace, and otherwise
      begins and ends with a non-whitespace character. */
  function Strip(s: string): (r: string)
    ensures |r| <= |s|
    ensures r == [] <==> AllSpace(s)
    ensures r == [] || (!IsSpace(r[0]) && !IsSpace(r[|r| - 1]))
  {
    StripEnds(s);
    LStrip(RStrip(s))
  }

  lemma StripEnds(s: string)
    ensures LStrip(RStrip(s)) == [] <==> AllSpace(s)
    ensures LStrip(RStrip(s)) == [] || !IsSpace(LStrip(RStrip(s))[|LStrip(RStrip(s))| - 1])
  {
    StripEmpty(s, RStrip(s));
    StripLast(RStrip(s));
  }

  lemma StripEmpty(s: string, t: string)
    requires t == RStrip(s)
    ensures LStrip(t) == [] <==> AllSpace(s)
  {
    if LStrip(t) == [] {
      forall i | 0 <= i < |s| ensures IsSpace(s[i]) {
        if i < |t| {
          assert s[i] == t[i];
        }
      }
    } else {
      assert !IsSpace(s[|t| - 1]);
    }
  }

  lemma StripLast(t: string)
    requires t == [] || !IsSpace(t[|t| - 1])
    ensures var r := LStrip(t); r == [] || !IsSpace(r[|r| - 1])
  {
    var r := LStrip(t);
    if r != [] {
      assert r[|r| - 1] == t[|t| - 1];
    }
  }

  /** Text that already has no surrounding whitespace loses nothing under
      `rstrip()`. */
  lemma RStripOfTrimmed(t: string)
    requires t == [] || !IsSpace(t[|t| - 1])
    ensures RStrip(t) == t
  {
  }

  /** `rstrip()` removes exactly the whitespace appended to a trimmed text. */
  lemma {:induction false} RStripAppendSpace(t: string, w: string)
    requires t == [] || !IsSpace(t[|t| - 1])
    requires AllSpace(w)
    ensures RStrip(t + w) == t
    decreases |w|
  {
    if w == [] {
      assert t + w == t;
    } else {
      var w' := w[..|w| - 1];
      assert (t + w)[..|t + w| - 1] == t + w';
      RStripAppendSpace(t, w');
    }
  }

  /** `strip()` of a text surrounded by whitespace gives back the text. */
  lemma {:induction false} StripSurrounded(v: string, t: string, w: string)
    requires AllSpace(v) && AllSpace(w)
    requires t == [] || (!IsSpace(t[0]) && !IsSpace(t[|t| - 1]))
    ensures Strip(v + t + w) == t
  {
    if t == [] {
      assert AllSpace(v + t + w) by {
        forall i | 0 <= i < |v + t + w| ensures IsSpace((v + t + w)[i]) {
          if i >= |v| {
            assert (v + t + w)[i] == w[i - |v|];
          }
        }
      }
    } else {
      RStripAppendSpace(v + t, w);
      LStripPrependSpace(v, t);
    }
  }

  lemma {:induction false} LStripPrependSpace(v: string, t: string)
    requires AllSpace(v)
    requires t == [] || !IsSpace(t[0])
    ensures LStrip(v + t) == t
    decreases |v|
  {
    if v == [] {
      assert v + t == t;
    } else {
      assert (v + t)[1..] == v[1..] + t;
      LStripPrependSpace(v[1..], t);
    }
  }

  /** `strip()` is idempotent, so stripping a typed name twice is harmless. */
  lemma StripIdempotent(s: string)
    ensures Strip(Strip(s)) == Strip(s)
  {
    var r := Strip(s);
    StripSurrounded([], r, []);
    assert [] + r + [] == r;
  }

  /** Length of the leading run of non-whitespace characters. */
  function WordLen(s: string): (k: nat)
    ensures k <= |s|
    ensures forall i :: 0 <= i < k ==> !IsSpace(s[i])
    ensures k == |s| || IsSpace(s[k])
    decreases |s|
  {
    if s == [] || IsSpace(s[0]) then 0 else 1 + WordLen(s[1..])
  }

  /** `s.split()`: the maximal runs of non-whitespace characters, in order. */
  function Split(s: string): (words: seq<string>)
    ensures forall j :: 0 <= j < |words| ==> words[j] != [] && NoSpace(words[j])
    decreases |s|
  {
    if s == [] then []
    else if IsSpace(s[0]) then Split(s[1..])
    else
      var k := WordLen(s);
      [s[..k]] + Split(s[k..])
  }

  /** `len(s.split())`. */
  function WordCount(s: string): nat {
    |Split(s)|
  }

  /** `" ".join(words)`: the inverse of `split()` on well-formed words. */
  function JoinWords(words: seq<string>): string {
    if words == [] then []
    else if |words| == 1 then words[0]
    else words[0] + " " + JoinWords(words[1..])
  }

  predicate IsWord(w: string) {
    w != [] && NoSpace(w)
  }

  /** A single run of non-whitespace is one word. */
  lemma SplitWord(w: string)
    requires IsWord(w)
    ensures Split(w) == [w]
  {
    assert WordLen(w) == |w|;
    assert w[..|w|] == w;
    assert w[|w|..] == [];
  }

  /** Whitespace splits: the words of `a + w + b` are those of `a` followed by
      those of `b` whenever `w` is a non-empty whitespace run. Hence leading,
      repeated and trailing whitespace never adds words. */
  lemma {:induction false} SplitAtSpace(a: string, w: string, b: string)
    requires w != [] && AllSpace(w)
    ensures Split(a + w + b) == Split(a) + Split(b)
    decreases |a|
  {
    if a == [] {
      calc {
        Split(a + w + b);
        { assert a + w + b == w + b; }
        Split(w + b);
        { SplitLeadingSpace(w, b); }
        Split(b);
        Split(a) + Split(b);
      }
    } else if IsSpace(a[0]) {
      calc {
        Split(a + w + b);
        { assert a + w + b == a + (w + b); SplitSkipSpace(a, w + b); }
        Split(a[1..] + (w + b));
        { assert a[1..] + (w + b) == a[1..] + w + b; }
        Split(a[1..] + w + b);
        { SplitAtSpace(a[1..], w, b); }
        Split(a[1..]) + Split(b);
        { SplitSkipSpace(a, w + b); }
        Split(a) + Split(b);
      }
    } else {
      var k := WordLen(a);
      calc {
        Split(a + w + b);
        { assert a + w + b == a + (w + b); SplitFirstWord(a, w + b); }
        [a[..k]] + Split(a[k..] + (w + b));
        { assert a[k..] + (w + b) == a[k..] + w + b; }
        [a[..k]] + Split(a[k..] + w + b);
        { SplitAtSpace(a[k..], w, b); }
        [a[..k]] + (Split(a[k..]) + Split(b));
        ([a[..k]] + Split(a[k..])) + Split(b);
        { SplitUnfoldWord(a); }
        Split(a) + Split(b);
      }
    }
  }

  lemma SplitUnfoldWord(a: string)
    requires a != [] && !IsSpace(a[0])
    ensures Split(a) == [a[..WordLen(a)]] + Split(a[WordLen(a)..])
  {
  }

  /** A leading whitespace character of `a` is skipped, whatever follows. */
  lemma SplitSkipSpace(a: string, t: string)
    requires a != [] && IsSpace(a[0])
    ensures Split(a + t) == Split(a[1..] + t)
    ensures Split(a) == Split(a[1..])
  {
    var s := a + t;
    assert s[0] == a[0] && s[1..] == a[1..] + t;
  }

  /** Leading whitespace adds no words. */
  lemma {:induction false} SplitLeadingSpace(w: string, b: string)
    requires AllSpace(w)
    ensures Split(w + b) == Split(b)
    decreases |w|
  {
    if w == [] {
      assert w + b == b;
    } else {
      assert (w + b)[1..] == w[1..] + b;
      SplitLeadingSpace(w[1..], b);
    }
  }

  /** The first word of `a` stays the first word when whitespace follows. */
  lemma SplitFirstWord(a: string, t: string)
    requires a != [] && !IsSpace(a[0])
    requires t != [] && IsSpace(t[0])
    ensures Split(a + t) == [a[..WordLen(a)]] + Split(a[WordLen(a)..] + t)
  {
    var k := WordLen(a);
    var s := a + t;
    assert WordLen(s) == k by {
      WordLenPrefix(a, t);
    }
    calc {
      Split(s);
      { assert s[0] == a[0]; }
      [s[..k]] + Split(s[k..]);
      { assert s[..k] == a[..k] && s[k..] == a[k..] + t; }
      [a[..k]] + Split(a[k..] + t);
    }
  }

  /** The leading word of `a` is unaffected by what follows, when `a` ends
      before the word does or what follows starts with whitespace. */
  lemma {:induction false} WordLenPrefix(a: string, t: string)
    requires WordLen(a) < |a| || (t != [] && IsSpace(t[0]))
    ensures WordLen(a + t) == WordLen(a)
    decreases |a|
  {
    if a == [] {
    } else if IsSpace(a[0]) {
    } else {
      assert (a + t)[1..] == a[1..] + t;
      WordLenPrefix(a[1..], t);
    }
  }

  /** Trailing whitespace adds no words. */
  lemma SplitAppendSpace(s: string, w: string)
    requires AllSpace(w)
    ensures Split(s + w) == Split(s)
  {
    if w != [] {
      SplitAtSpace(s, w, []);
      assert s + w + [] == s + w;
    } else {
      assert s + w == s;
    }
  }

  /** Counting words before or after `rstrip()` gives the same number. */
  lemma WordCountRStrip(s: string)
    ensures WordCount(RStrip(s)) == WordCount(s)
  {
    var r := RStrip(s);
    assert s == r + s[|r|..];
    SplitAppendSpace(r, s[|r|..]);
  }

  /** A line has no words exactly when it is blank or all whitespace. */
  lemma {:induction false} WordCountZero(s: string)
    ensures WordCount(s) == 0 <==> AllSpace(s)
    decreases |s|
  {
    if s != [] && IsSpace(s[0]) {
      WordCountZero(s[1..]);
      assert AllSpace(s[1..]) ==> AllSpace(s) by {
        if AllSpace(s[1..]) {
          forall i | 0 <= i < |s| ensures IsSpace(s[i]) {
            if i > 0 {
              assert s[i] == s[1..][i - 1];
            }
          }
        }
      }
    }
  }

  /** Words are separated by at least one character, so a line of length
      `n` has at most `(n + 1) / 2` words. */
  lemma {:induction false} WordCountBound(s: string)
    ensures 2 * WordCount(s) <= |s| + 1
    decreases |s|
  {
    if s == [] {
    } else if IsSpace(s[0]) {
      WordCountBound(s[1..]);
    } else {
      var k := WordLen(s);
      assert Split(s) == [s[..k]] + Split(s[k..]);
      if k == |s| {
        assert s[k..] == [];
      } else {
        var t := s[k..];
        assert Split(t) == Split(t[1..]);
        WordCountBound(t[1..]);
      }
    }
  }

  /** `split()` undoes `" ".join(...)` on well-formed words. */
  lemma {:induction false} SplitJoinWords(words: seq<string>)
    requires forall j :: 0 <= j < |words| ==> IsWord(words[j])
    ensures Split(JoinWords(words)) == words
    decreases |words|
  {
    if words == [] {
    } else if |words| == 1 {
      SplitWord(words[0]);
    } else {
      SplitAtSpace(words[0], " ", JoinWords(words[1..]));
      SplitWord(words[0]);
      SplitJoinWords(words[1..]);
      assert words == [words[0]] + words[1..];
    }
  }
}
