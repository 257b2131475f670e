/** Python's built-in string operations that main.py relies on: `str.isspace`,
    `str.split()` with no separator, `str.splitlines()`, `str.strip()` and
    `' '.join(...)`, over strings of Unicode code points. */
module Text {

  /** Concatenation of a sequence of sequences. */
  function Flatten<T>(xss: seq<seq<T>>): seq<T>
  {
    if xss == [] then [] else xss[0] + Flatten(xss[1..])
  }

  lemma {:induction false} FlattenAppend<T>(a: seq<seq<T>>, b: seq<seq<T>>)
    ensures Flatten(a + b) == Flatten(a) + Flatten(b)
    decreases |a|
  {
    if a == [] {
      assert a + b == b;
    } else {
      assert (a + b)[1..] == a[1..] + b;
      FlattenAppend(a[1..], b);
    }
  }

  /** A sequence is what comes before position `k`, the element at `k`, and
      what comes after it. */
  lemma Around<T>(s: seq<T>, k: nat)
    requires k < |s|
    ensures s == s[..k] + [s[k]] + s[k + 1..]
  {
  }

  /** The characters for which Python's `str.isspace()` holds: those that
      `str.split()` separates on and `str.strip()` removes. */
  const Whitespace: set<char> := {
    ' ', '\t', '\n', '\U{0B}', '\U{0C}', '\r',           // tab to carriage return
    '\U{1C}', '\U{1D}', '\U{1E}', '\U{1F}',               // file, group, record, unit separators
    '\U{85}', '\U{A0}', '\U{1680}',
    '\U{2000}', '\U{2001}', '\U{2002}', '\U{2003}', '\U{2004}', '\U{2005}',
    '\U{2006}', '\U{2007}', '\U{2008}', '\U{2009}', '\U{200A}',
    '\U{2028}', '\U{2029}', '\U{202F}', '\U{205F}', '\U{3000}'
  }

  /** The line boundaries of `str.splitlines()`; "\r\n" counts as one boundary. */
  const LineBreaks: set<char> := {
    '\n', '\r', '\U{0B}', '\U{0C}', '\U{1C}', '\U{1D}', '\U{1E}', '\U{85}', '\U{2028}', '\U{2029}'
  }

  predicate IsSpace(c: char)
  {
    c in Whitespace
  }

  predicate IsLineBreak(c: char)
  {
    c in LineBreaks
  }

  lemma LineBreakIsSpace(c: char)
    requires IsLineBreak(c)
    ensures IsSpace(c)
  {
  }

  /** A word as `str.split()` produces it: non-empty, without whitespace. */
  predicate IsWord(w: string)
  {
    w != [] && forall i :: 0 <= i < |w| ==> !IsSpace(w[i])
  }

  predicate AllSpace(s: string)
  {
    forall i :: 0 <= i < |s| ==> IsSpace(s[i])
  }

  /** Length of the run of non-whitespace characters that starts `s`. */
  function WordLen(s: string): (k: nat)
    ensures k <= |s|
    ensures forall i :: 0 <= i < k ==> !IsSpace(s[i])
    ensures k == |s| || IsSpace(s[k])
  {
    if s == [] || IsSpace(s[0]) then 0 else 1 + WordLen(s[1..])
  }

  /** `s.split()`: the maximal runs of non-whitespace characters, in order. */
  function Split(s: string): (words: seq<string>)
    ensures forall i :: 0 <= i < |words| ==> IsWord(words[i])
    decreases |s|
  {
    if s == [] then []
    else if IsSpace(s[0]) then Split(s[1..])
    else
      var k := WordLen(s);
      [s[..k]] + Split(s[k..])
  }

  /** The words of several strings, one string after the other. */
  function WordsOf(lines: seq<string>): seq<string>
  {
    if lines == [] then [] else Split(lines[0]) + WordsOf(lines[1..])
  }

  /** `' '.join(words)`. */
  function Join(words: seq<string>): (r: string)
    ensures words != [] ==> |words[0]| <= |r| && r[..|words[0]|] == words[0]
    ensures |words| >= 2 ==> |words[0]| < |r| && r[|words[0]|] == ' '
  {
    if words == [] then ""
    else if |words| == 1 then words[0]
    else words[0] + " " + Join(words[1..])
  }

  /** Joining two non-empty runs of words puts exactly one space between
      them. */
  lemma {:induction false} JoinAppend(a: seq<string>, b: seq<string>)
    requires a != [] && b != []
    ensures Join(a + b) == Join(a) + " " + Join(b)
    decreases |a|
  {
    assert (a + b)[0] == a[0];
    assert (a + b)[1..] == a[1..] + b;
    if |a| > 1 {
      JoinAppend(a[1..], b);
    }
  }

  /** Length of the prefix of `s` that holds no line boundary. */
  function LineLen(s: string): (k: nat)
    ensures k <= |s|
    ensures forall i :: 0 <= i < k ==> !IsLineBreak(s[i])
    ensures k == |s| || IsLineBreak(s[k])
  {
    if s == [] || IsLineBreak(s[0]) then 0 else 1 + LineLen(s[1..])
  }

  predicate NoLineBreak(s: string)
  {
    forall i :: 0 <= i < |s| ==> !IsLineBreak(s[i])
  }

  /** `s.splitlines()`: the text between line boundaries, without the
      boundaries themselves; a boundary at the very end starts no further line,
      and the empty string has no lines. */
  function SplitLines(s: string): (lines: seq<string>)
    ensures s == [] ==> lines == []
    ensures forall i :: 0 <= i < |lines| ==> NoLineBreak(lines[i])
    decreases |s|
  {
    if s == [] then []
    else
      var k := LineLen(s);
      if k == |s| then [s]
      else
        var next := if s[k] == '\r' && k + 1 < |s| && s[k + 1] == '\n' then k + 2 else k + 1;
        [s[..k]] + SplitLines(s[next..])
  }

  /** Number of whitespace characters that start `s`. */
  function LeadingSpace(s: string): (n: nat)
    ensures n <= |s|
    ensures forall i :: 0 <= i < n ==> IsSpace(s[i])
    ensures n == |s| || !IsSpace(s[n])
  {
    if s != [] && IsSpace(s[0]) then 1 + LeadingSpace(s[1..]) else 0
  }

  /** Number of whitespace characters that end `s`. */
  function TrailingSpace(s: string): (n: nat)
    ensures n <= |s|
    ensures forall i :: |s| - n <= i < |s| ==> IsSpace(s[i])
    ensures n == |s| || !IsSpace(s[|s| - 1 - n])
  {
    if s != [] && IsSpace(s[|s| - 1]) then 1 + TrailingSpace(s[..|s| - 1]) else 0
  }

  /** `s.strip()`: `s` without its leading and its trailing whitespace. */
  function Strip(s: string): (r: string)
    ensures LeadingSpace(s) + |r| <= |s|
    ensures forall k :: 0 <= k < |r| ==> r[k] == s[LeadingSpace(s) + k]
  {
    var rest := s[LeadingSpace(s)..];
    rest[..|rest| - TrailingSpace(rest)]
  }

  /** `s.strip()` is the infix of `s` that starts after the leading
      whitespace. */
  lemma StripInfix(s: string)
    ensures var r := Strip(s); var i := LeadingSpace(s);
      i + |r| <= |s| && r == s[i..i + |r|]
  {
  }

  /** What `s.strip()` removes from `s` is whitespace only. */
  lemma StripRemovesSpace(s: string)
    ensures var r := Strip(s); var i := LeadingSpace(s);
      i + |r| <= |s| && AllSpace(s[..i]) && AllSpace(s[i + |r|..])
  {
    var i := LeadingSpace(s);
    var rest := s[i..];
    var r := Strip(s);
    forall j | i + |r| <= j < |s|
      ensures IsSpace(s[j])
    {
      assert s[j] == rest[j - i];
    }
  }

  /** `s.strip()` neither starts nor ends with whitespace. */
  lemma StripEnds(s: string)
    ensures var r := Strip(s); r == [] || (!IsSpace(r[0]) && !IsSpace(r[|r| - 1]))
  {
    var rest := s[LeadingSpace(s)..];
    var r := Strip(s);
    if r != [] {
      assert r[0] == rest[0];
      assert r[|r| - 1] == rest[|rest| - 1 - TrailingSpace(rest)];
    }
  }

  /** `s.strip()` is empty exactly when `s` is all whitespace. */
  lemma StripEmpty(s: string)
    ensures Strip(s) == [] <==> AllSpace(s)
  {
    var i := LeadingSpace(s);
    var rest := s[i..];
    if i < |s| {
      assert rest[0] == s[i];
    }
  }

  /** Stripping twice is stripping once. */
  lemma StripIdempotent(s: string)
    ensures Strip(Strip(s)) == Strip(s)
  {
    var r := Strip(s);
    if r != [] {
      StripEnds(s);
      assert LeadingSpace(r) == 0;
      assert r[0..] == r;
      assert TrailingSpace(r) == 0;
      assert r[..|r|] == r;
    }
  }

  lemma {:induction false} WordLenSeparated(a: string, c: char, b: string)
    requires IsSpace(c)
    ensures WordLen(a + [c] + b) == WordLen(a)
    decreases |a|
  {
    if a == [] {
      assert (a + [c] + b)[0] == c;
    } else {
      assert (a + [c] + b)[0] == a[0];
      if !IsSpace(a[0]) {
        assert (a + [c] + b)[1..] == a[1..] + [c] + b;
        WordLenSeparated(a[1..], c, b);
      }
    }
  }

  /** A whitespace character separates the words on its two sides:
      `(a + c + b).split() == a.split() + b.split()`. */
  lemma {:induction false} SplitSeparated(a: string, c: char, b: string)
    requires IsSpace(c)
    ensures Split(a + [c] + b) == Split(a) + Split(b)
    decreases |a|
  {
    var s := a + [c] + b;
    if a == [] {
      assert s[1..] == b;
    } else if IsSpace(a[0]) {
      assert s[1..] == a[1..] + [c] + b;
      SplitSeparated(a[1..], c, b);
    } else {
      var k := WordLen(a);
      WordLenSeparated(a, c, b);
      assert s[..k] == a[..k];
      assert s[k..] == a[k..] + [c] + b;
      SplitSeparated(a[k..], c, b);
    }
  }

  lemma SplitWord(w: string)
    requires IsWord(w)
    ensures Split(w) == [w]
  {
    assert WordLen(w) == |w|;
    assert w[..|w|] == w;
    assert w[|w|..] == [];
  }

  /** Joining words with single spaces and splitting again gives back the
      words: `' '.join(ws).split() == ws`. */
  lemma {:induction false} SplitJoin(ws: seq<string>)
    requires forall i :: 0 <= i < |ws| ==> IsWord(ws[i])
    ensures Split(Join(ws)) == ws
  {
    if ws == [] {
    } else if |ws| == 1 {
      SplitWord(ws[0]);
    } else {
      SplitJoin(ws[1..]);
      SplitSeparated(ws[0], ' ', Join(ws[1..]));
      assert ws[0] + " " + Join(ws[1..]) == ws[0] + [' '] + Join(ws[1..]);
      SplitWord(ws[0]);
      assert ws == [ws[0]] + ws[1..];
    }
  }

  /** A string has no words exactly when it is all whitespace. */
  lemma {:induction false} SplitEmpty(s: string)
    ensures Split(s) == [] <==> AllSpace(s)
    decreases |s|
  {
    if s != [] {
      if IsSpace(s[0]) {
        SplitEmpty(s[1..]);
        assert AllSpace(s) <==> AllSpace(s[1..]) by {
          if AllSpace(s[1..]) {
            forall i | 0 <= i < |s| ensures IsSpace(s[i]) {
              if i > 0 { assert s[i] == s[1..][i - 1]; }
            }
          }
        }
      }
    }
  }

  lemma {:induction false} WordsOfAppend(a: seq<string>, b: seq<string>)
    ensures WordsOf(a + b) == WordsOf(a) + WordsOf(b)
    decreases |a|
  {
    if a == [] {
      assert a + b == b;
    } else {
      assert (a + b)[0] == a[0] && (a + b)[1..] == a[1..] + b;
      WordsOfAppend(a[1..], b);
    }
  }

  /** The words of `s` are those before its first line boundary followed by
      those after it, whether that boundary is one character or "\r\n". */
  lemma SplitAtLineBreak(s: string, k: nat, next: nat)
    requires k < |s| && IsLineBreak(s[k])
    requires next == if s[k] == '\r' && k + 1 < |s| && s[k + 1] == '\n' then k + 2 else k + 1
    ensures Split(s) == Split(s[..k]) + Split(s[next..])
  {
    var before, after := s[..k], s[k + 1..];
    LineBreakIsSpace(s[k]);
    Around(s, k);
    SplitSeparated(before, s[k], after);
    if next == k + 2 {
      assert IsSpace(after[0]) by { assert after[0] == '\n'; }
      assert after[1..] == s[next..];
      assert Split(after) == Split(s[next..]);
    } else {
      assert after == s[next..];
    }
    assert Split(s) == Split(before) + Split(after);
  }

  /** A non-empty string without a line boundary is one line. */
  lemma SplitLinesOne(a: string)
    requires a != "" && NoLineBreak(a)
    ensures SplitLines(a) == [a]
  {
  }

  /** A line boundary after a string without one ends exactly that line: "\r\n"
      is a single boundary, and so is any one boundary character, except a
      "\r" that the rest continues with "\n". */
  lemma SplitLinesSeparated(a: string, sep: string, b: string)
    requires NoLineBreak(a)
    requires sep == "\r\n" ||
      (|sep| == 1 && IsLineBreak(sep[0]) && !(sep[0] == '\r' && b != [] && b[0] == '\n'))
    ensures SplitLines(a + sep + b) == [a] + SplitLines(b)
  {
    var s := a + sep + b;
    var k := LineLen(s);
    assert s[|a|] == sep[0];
    assert forall i :: 0 <= i < |a| ==> s[i] == a[i];
    assert k == |a|;
    assert s[..k] == a;
    if sep == "\r\n" {
      assert s[k + 1] == '\n';
      assert s[k + 2..] == b;
    } else {
      assert s[k + 1..] == b;
    }
  }

  /** A line boundary at the very end of a string starts no further line:
      "a\n".splitlines() is ["a"], not ["a", ""]. */
  lemma SplitLinesFinalBreak(a: string, c: char)
    requires NoLineBreak(a) && IsLineBreak(c)
    ensures SplitLines(a + [c]) == [a]
  {
    SplitLinesSeparated(a, [c], []);
    assert a + [c] + [] == a + [c];
  }

  /** Splitting a string into lines and each line into words gives the words
      of the whole string, in order: every line boundary is whitespace. */
  lemma {:induction false} SplitLinesWords(s: string)
    ensures WordsOf(SplitLines(s)) == Split(s)
    decreases |s|
  {
    if s != [] {
      var k := LineLen(s);
      if k == |s| {
        assert SplitLines(s) == [s];
      } else {
        var next := if s[k] == '\r' && k + 1 < |s| && s[k + 1] == '\n' then k + 2 else k + 1;
        var rest := s[next..];
        assert SplitLines(s) == [s[..k]] + SplitLines(rest);
        SplitAtLineBreak(s, k, next);
        SplitLinesWords(rest);
        assert ([s[..k]] + SplitLines(rest))[1..] == SplitLines(rest);
      }
    }
  }
}
