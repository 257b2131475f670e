/** What the greedy word wrap of `save_to_pdf` guarantees about the output
    lines of one source line. */
module WrapProps {
  import opened Text
  import opened PdfLayout

  /** Every line of `groups` holds at most one word or fits the limit. */
  predicate AllFit(width: string -> real, limit: real, groups: seq<seq<string>>)
  {
    forall k :: 0 <= k < |groups| ==> Fits(width, limit, groups[k])
  }

  /** Every run of two or more words that starts `line` fits the limit: a
      word is added to a line only after the line with it was measured. */
  predicate PrefixesFit(width: string -> real, limit: real, line: seq<string>)
  {
    forall m :: 2 <= m <= |line| ==> width(Join(line[..m])) <= limit
  }

  /** Every line of `groups` satisfies `PrefixesFit`. */
  predicate AllPrefixesFit(width: string -> real, limit: real, groups: seq<seq<string>>)
  {
    forall k :: 0 <= k < |groups| ==> PrefixesFit(width, limit, groups[k])
  }

  /** Every line of `groups` after the first holds a word. */
  predicate LaterNonEmpty(groups: seq<seq<string>>)
  {
    forall k :: 0 < k < |groups| ==> groups[k] != []
  }

  /** Every line of `groups` but the last is full: the first word of the
      next line does not fit on it. */
  predicate Greedy(width: string -> real, limit: real, groups: seq<seq<string>>)
  {
    forall k :: 1 <= k < |groups| ==> groups[k] != [] && width(Join(groups[k - 1] + [groups[k][0]])) > limit
  }

  /** The lines of a wrap, read one after the other, are exactly the words
      still to place, after those of the line being filled. */
  lemma {:induction false} GroupFromWords(width: string -> real, limit: real, words: seq<string>, j: nat, current: seq<string>)
    requires j <= |words|
    ensures Flatten(GroupFrom(width, limit, words, j, current)) == current + words[j..]
    decreases |words| - j
  {
    if j == |words| {
      if current != [] {
        assert Flatten([current]) == current + Flatten([current][1..]);
      }
    } else {
      var candidate := current + [words[j]];
      if width(Join(candidate)) > limit {
        var tail := GroupFrom(width, limit, words, j + 1, [words[j]]);
        GroupFromWords(width, limit, words, j + 1, [words[j]]);
        FlattenAppend([current], tail);
        assert Flatten([current]) == current + Flatten([current][1..]);
        assert words[j..] == [words[j]] + words[j + 1..];
      } else {
        GroupFromWords(width, limit, words, j + 1, candidate);
        assert words[j..] == [words[j]] + words[j + 1..];
      }
    }
  }

  /** A line being filled that is not empty opens the first line of the
      wrap, and the wrap then has a line. */
  lemma {:induction false} GroupFromStart(width: string -> real, limit: real, words: seq<string>, j: nat, current: seq<string>)
    requires j <= |words|
    requires current != []
    ensures var r := GroupFrom(width, limit, words, j, current);
      |r| > 0 && |current| <= |r[0]| && r[0][..|current|] == current
    decreases |words| - j
  {
    if j < |words| {
      var candidate := current + [words[j]];
      if width(Join(candidate)) <= limit {
        GroupFromStart(width, limit, words, j + 1, candidate);
        var r := GroupFrom(width, limit, words, j + 1, candidate);
        assert r[0][..|current|] == r[0][..|candidate|][..|current|];
      }
    }
  }

  /** The wrap is empty exactly when nothing is left to place. */
  lemma GroupFromEmpty(width: string -> real, limit: real, words: seq<string>, j: nat, current: seq<string>)
    requires j <= |words|
    ensures GroupFrom(width, limit, words, j, current) == [] <==> current == [] && j == |words|
  {
    if current != [] {
      GroupFromStart(width, limit, words, j, current);
    } else if j < |words| {
      if width(Join([words[j]])) <= limit {
        assert current + [words[j]] == [words[j]];
        GroupFromStart(width, limit, words, j + 1, [words[j]]);
      }
    }
  }

  /** Every line of the wrap holds at most one word or is not wider than the
      limit, when the line being filled is so. */
  lemma {:induction false} GroupFromFits(width: string -> real, limit: real, words: seq<string>, j: nat, current: seq<string>)
    requires j <= |words|
    requires Fits(width, limit, current)
    ensures AllFit(width, limit, GroupFrom(width, limit, words, j, current))
    decreases |words| - j
  {
    if j < |words| {
      var candidate := current + [words[j]];
      if width(Join(candidate)) > limit {
        var tail := GroupFrom(width, limit, words, j + 1, [words[j]]);
        GroupFromFits(width, limit, words, j + 1, [words[j]]);
        var r := [current] + tail;
        forall k | 0 <= k < |r| ensures Fits(width, limit, r[k]) {
          if k > 0 { assert r[k] == tail[k - 1]; }
        }
      } else {
        GroupFromFits(width, limit, words, j + 1, candidate);
      }
    }
  }

  /** A word accepted onto a line whose prefixes fit keeps them fitting. */
  lemma PrefixesFitGrow(width: string -> real, limit: real, current: seq<string>, w: string)
    requires PrefixesFit(width, limit, current)
    requires width(Join(current + [w])) <= limit
    ensures PrefixesFit(width, limit, current + [w])
  {
    var line := current + [w];
    forall m | 2 <= m <= |line| ensures width(Join(line[..m])) <= limit {
      if m <= |current| {
        assert line[..m] == current[..m];
      } else {
        assert line[..m] == line;
      }
    }
  }

  /** Every run of two or more words that starts a line of the wrap fits the
      limit, when it does so for the line being filled. */
  lemma {:induction false} GroupFromPrefixesFit(width: string -> real, limit: real, words: seq<string>, j: nat, current: seq<string>)
    requires j <= |words|
    requires PrefixesFit(width, limit, current)
    ensures AllPrefixesFit(width, limit, GroupFrom(width, limit, words, j, current))
    decreases |words| - j
  {
    if j < |words| {
      var candidate := current + [words[j]];
      if width(Join(candidate)) > limit {
        var tail := GroupFrom(width, limit, words, j + 1, [words[j]]);
        GroupFromPrefixesFit(width, limit, words, j + 1, [words[j]]);
        var r := [current] + tail;
        forall k | 0 <= k < |r| ensures PrefixesFit(width, limit, r[k]) {
          if k > 0 { assert r[k] == tail[k - 1]; }
        }
      } else {
        PrefixesFitGrow(width, limit, current, words[j]);
        GroupFromPrefixesFit(width, limit, words, j + 1, candidate);
      }
    }
  }

  /** Only the first line of a wrap can be empty, and only when the line
      being filled is. */
  lemma {:induction false} GroupFromNonEmpty(width: string -> real, limit: real, words: seq<string>, j: nat, current: seq<string>)
    requires j <= |words|
    ensures var r := GroupFrom(width, limit, words, j, current);
      LaterNonEmpty(r) && (current != [] && r != [] ==> r[0] != [])
    decreases |words| - j
  {
    if j < |words| {
      var candidate := current + [words[j]];
      if width(Join(candidate)) > limit {
        var tail := GroupFrom(width, limit, words, j + 1, [words[j]]);
        GroupFromNonEmpty(width, limit, words, j + 1, [words[j]]);
        var r := [current] + tail;
        forall k | 0 < k < |r| ensures r[k] != [] {
          if k > 0 { assert r[k] == tail[k - 1]; }
        }
      } else {
        GroupFromNonEmpty(width, limit, words, j + 1, candidate);
      }
    }
  }

  /** The wrap is greedy: every line but the last was closed because the
      first word of the next line made it too wide. */
  lemma {:induction false} GroupFromGreedy(width: string -> real, limit: real, words: seq<string>, j: nat, current: seq<string>)
    requires j <= |words|
    ensures Greedy(width, limit, GroupFrom(width, limit, words, j, current))
    decreases |words| - j
  {
    if j < |words| {
      var candidate := current + [words[j]];
      if width(Join(candidate)) > limit {
        var tail := GroupFrom(width, limit, words, j + 1, [words[j]]);
        GroupFromGreedy(width, limit, words, j + 1, [words[j]]);
        GroupFromStart(width, limit, words, j + 1, [words[j]]);
        assert tail[0][..1] == [words[j]];
        GreedyCons(width, limit, current, tail);
      } else {
        GroupFromGreedy(width, limit, words, j + 1, candidate);
      }
    }
  }

  /** A full line followed by a greedy wrap whose first line starts with the
      word that did not fit is a greedy wrap. */
  lemma GreedyCons(width: string -> real, limit: real, line: seq<string>, tail: seq<seq<string>>)
    requires Greedy(width, limit, tail)
    requires tail != [] && tail[0] != [] && width(Join(line + [tail[0][0]])) > limit
    ensures Greedy(width, limit, [line] + tail)
  {
    var r := [line] + tail;
    forall k | 1 <= k < |r|
      ensures r[k] != [] && width(Join(r[k - 1] + [r[k][0]])) > limit
    {
      if k > 1 {
        assert r[k - 1] == tail[k - 2] && r[k] == tail[k - 1];
      }
    }
  }

  /** A line of words joined with spaces is empty only when it holds no word. */
  lemma JoinEmpty(ws: seq<string>)
    requires forall i :: 0 <= i < |ws| ==> IsWord(ws[i])
    ensures Join(ws) == "" <==> ws == []
  {
    if |ws| > 1 {
      assert |Join(ws)| >= |ws[0]| > 0;
    }
  }

  /** Splitting the joined lines gives back the words of the lines. */
  lemma {:induction false} WordsOfJoins(groups: seq<seq<string>>)
    requires forall i :: 0 <= i < |Flatten(groups)| ==> IsWord(Flatten(groups)[i])
    ensures WordsOf(Joins(groups)) == Flatten(groups)
    decreases |groups|
  {
    if groups != [] {
      var flat := Flatten(groups);
      assert flat == groups[0] + Flatten(groups[1..]);
      assert forall i :: 0 <= i < |groups[0]| ==> IsWord(groups[0][i]) by {
        forall i | 0 <= i < |groups[0]| ensures IsWord(groups[0][i]) {
          assert groups[0][i] == flat[i];
        }
      }
      assert forall i :: 0 <= i < |Flatten(groups[1..])| ==> IsWord(Flatten(groups[1..])[i]) by {
        forall i | 0 <= i < |Flatten(groups[1..])| ensures IsWord(Flatten(groups[1..])[i]) {
          assert Flatten(groups[1..])[i] == flat[|groups[0]| + i];
        }
      }
      SplitJoin(groups[0]);
      WordsOfJoins(groups[1..]);
      assert Joins(groups)[1..] == Joins(groups[1..]);
    }
  }

  /** Wrapping loses, duplicates and reorders no word: the words of the
      output lines are the words of the source line. */
  lemma WrapLineWords(width: string -> real, limit: real, line: string)
    ensures WordsOf(WrapLine(width, limit, line)) == Split(line)
  {
    var words := Split(line);
    GroupFromWords(width, limit, words, 0, []);
    assert words[0..] == words;
    WordsOfJoins(Groups(width, limit, words));
  }

  /** The items of `xss` are those of the sequences before `k`, then those of
      sequence `k`, then those of the sequences after it. */
  lemma FlattenAt<T>(xss: seq<seq<T>>, k: nat)
    requires k < |xss|
    ensures Flatten(xss) == Flatten(xss[..k]) + xss[k] + Flatten(xss[k + 1..])
  {
    assert xss == xss[..k] + xss[k..];
    FlattenAppend(xss[..k], xss[k..]);
    assert xss[k..][0] == xss[k] && xss[k..][1..] == xss[k + 1..];
  }

  /** The words of output line `k` are those of line `k` of the wrap. */
  lemma WrapLineGroup(width: string -> real, limit: real, line: string, k: nat)
    requires k < |WrapLine(width, limit, line)|
    ensures k < |Groups(width, limit, Split(line))|
    ensures Split(WrapLine(width, limit, line)[k]) == Groups(width, limit, Split(line))[k]
  {
    var words := Split(line);
    var g := Groups(width, limit, words);
    GroupFromWords(width, limit, words, 0, []);
    assert words[0..] == words;
    var before := Flatten(g[..k]);
    FlattenAt(g, k);
    assert words == before + g[k] + Flatten(g[k + 1..]);
    forall i | 0 <= i < |g[k]| ensures IsWord(g[k][i]) {
      assert g[k][i] == words[|before| + i];
    }
    SplitJoin(g[k]);
  }

  /** Every output line is not wider than the limit or holds a single word
      (or none). */
  lemma WrapLineFits(width: string -> real, limit: real, line: string, k: nat)
    requires k < |WrapLine(width, limit, line)|
    ensures var l := WrapLine(width, limit, line)[k];
      width(l) <= limit || |Split(l)| <= 1
  {
    GroupFromFits(width, limit, Split(line), 0, []);
    WrapLineGroup(width, limit, line, k);
  }

  /** Every run of two or more words that starts an output line is not wider
      than the limit: only a line's first word can overflow it, alone. */
  lemma WrapLinePrefixesFit(width: string -> real, limit: real, line: string, k: nat, m: nat)
    requires k < |WrapLine(width, limit, line)|
    requires 2 <= m <= |Split(WrapLine(width, limit, line)[k])|
    ensures width(Join(Split(WrapLine(width, limit, line)[k])[..m])) <= limit
  {
    GroupFromPrefixesFit(width, limit, Split(line), 0, []);
    WrapLineGroup(width, limit, line, k);
  }

  /** Output line `k` is empty only when it is the first one and the first
      word is on its own wider than the limit; then an empty line is drawn
      before that word. */
  lemma WrapLineEmpty(width: string -> real, limit: real, line: string, k: nat)
    requires k < |WrapLine(width, limit, line)|
    ensures WrapLine(width, limit, line)[k] == "" <==>
      k == 0 && width(Split(line)[0]) > limit
  {
    var words := Split(line);
    var g := Groups(width, limit, words);
    WrapLineGroup(width, limit, line, k);
    JoinEmpty(g[k]);
    GroupFromNonEmpty(width, limit, words, 0, []);
    GroupFromEmpty(width, limit, words, 0, []);
    assert |words| > 0;
    if k == 0 {
      assert Join([words[0]]) == words[0];
      assert [] + [words[0]] == [words[0]];
      if width(words[0]) <= limit {
        GroupFromStart(width, limit, words, 1, [words[0]]);
      }
    }
  }

  /** A source line of whitespace only (a blank line) draws nothing, and any
      other draws at least one line. */
  lemma WrapLineBlank(width: string -> real, limit: real, line: string)
    ensures WrapLine(width, limit, line) == [] <==> AllSpace(line)
  {
    SplitEmpty(line);
    GroupFromEmpty(width, limit, Split(line), 0, []);
  }

  /** The wrap is greedy: no output line could have taken the first word of
      the next one. */
  lemma WrapLineGreedy(width: string -> real, limit: real, line: string, k: nat)
    requires k + 1 < |WrapLine(width, limit, line)|
    ensures var lines := WrapLine(width, limit, line);
      var next := Split(lines[k + 1]);
      next != [] && width(Join(Split(lines[k]) + [next[0]])) > limit
  {
    GroupFromGreedy(width, limit, Split(line), 0, []);
    WrapLineGroup(width, limit, line, k);
    WrapLineGroup(width, limit, line, k + 1);
  }
}
