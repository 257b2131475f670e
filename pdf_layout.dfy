/** The text flow of `StoryTellerAI.save_to_pdf`: every source line of the
    story is cut into words, the words are packed greedily into output lines
    no wider than the page allows, and a new page is started after a source
    line once the text cursor has dropped below the bottom margin.

    The font metric `c.stringWidth(..., "Helvetica", 12)` is the parameter
    `width`; the page geometry is a record of reals. */
module PdfLayout {
  import opened Text

  /** `limit` is the widest line allowed (A4 width less two 50pt margins),
      `leading` the drop of the cursor per emitted line, `firstTop` and
      `nextTop` the cursor at the top of the first and of every later page
      (the first page leaves room for the heading), `bottom` the margin below
      which a new page is started. */
  datatype Geometry = Geometry(limit: real, leading: real, firstTop: real, nextTop: real, bottom: real)

  /** ReportLab's A4 is 21cm x 29.7cm, 595.2755905511812 x 841.8897637795277
      points. The text starts 100 points below the top edge on the first page
      (below the heading) and 50 points below it on later pages. */
  const A4Width: real := 595.2755905511812
  const A4Height: real := 841.8897637795277
  const A4Geometry := Geometry(A4Width - 100.0, 14.0, A4Height - 100.0, A4Height - 50.0, 50.0)

  /** How far the text cursor drops while `n` lines are emitted, each line
      lowering it by `leading`. */
  function Descent(leading: real, n: nat): real
  {
    if n == 0 then 0.0 else Descent(leading, n - 1) + leading
  }

  /** Does `line` fit: at most one word, or not wider than `limit`? */
  predicate Fits(width: string -> real, limit: real, line: seq<string>)
  {
    |line| <= 1 || width(Join(line)) <= limit
  }

  /** The greedy packing: `current` is the line being filled and
      `words[j..]` the words still to place. A word that makes the line too
      wide closes the line without it and opens the next one. The closed line
      is emitted even when empty, which happens only for an over-wide first
      word. */
  function GroupFrom(width: string -> real, limit: real, words: seq<string>, j: nat, current: seq<string>): (r: seq<seq<string>>)
    requires j <= |words|
    ensures r == [] ==> current == [] && j == |words|
    decreases |words| - j
  {
    if j == |words| then
      if current == [] then [] else [current]
    else
      var candidate := current + [words[j]];
      if width(Join(candidate)) > limit then
        [current] + GroupFrom(width, limit, words, j + 1, [words[j]])
      else
        GroupFrom(width, limit, words, j + 1, candidate)
  }

  /** The words of every output line of one source line. */
  function Groups(width: string -> real, limit: real, words: seq<string>): seq<seq<string>>
  {
    GroupFrom(width, limit, words, 0, [])
  }

  function Joins(groups: seq<seq<string>>): (lines: seq<string>)
    ensures |lines| == |groups|
  {
    seq(|groups|, i requires 0 <= i < |groups| => Join(groups[i]))
  }

  /** The output lines drawn for one source line. */
  function WrapLine(width: string -> real, limit: real, line: string): seq<string>
  {
    Joins(Groups(width, limit, Split(line)))
  }

  /** One block of output lines per source line. */
  function WrapAll(width: string -> real, limit: real, lines: seq<string>): (blocks: seq<seq<string>>)
    ensures |blocks| == |lines|
  {
    seq(|lines|, i requires 0 <= i < |lines| => WrapLine(width, limit, lines[i]))
  }

  /** Pagination of blocks: `page` holds the blocks already on the current
      page, `y` is the cursor and `blocks[i..]` are still to place. A block
      never straddles pages: the bottom margin is checked only after a whole
      block has been placed. The last page is always part of the result, even
      when it is empty. */
  function PaginateFrom<T>(g: Geometry, blocks: seq<seq<T>>, i: nat, page: seq<seq<T>>, y: real): (r: seq<seq<seq<T>>>)
    requires i <= |blocks|
    ensures 1 <= |r| <= |blocks| - i + 1
    decreases |blocks| - i
  {
    if i == |blocks| then [page]
    else
      var page' := page + [blocks[i]];
      var y' := y - Descent(g.leading, |blocks[i]|);
      if y' < g.bottom then [page'] + PaginateFrom(g, blocks, i + 1, [], g.nextTop)
      else PaginateFrom(g, blocks, i + 1, page', y')
  }

  function Paginate<T>(g: Geometry, blocks: seq<seq<T>>): (r: seq<seq<seq<T>>>)
    ensures 1 <= |r| <= |blocks| + 1
  {
    PaginateFrom(g, blocks, 0, [], g.firstTop)
  }

  function PageLines<T>(pages: seq<seq<seq<T>>>): (r: seq<seq<T>>)
    ensures |r| == |pages|
  {
    seq(|pages|, k requires 0 <= k < |pages| => Flatten(pages[k]))
  }

  /** The lines drawn on each page of the PDF for `story`. */
  function Layout(width: string -> real, g: Geometry, story: string): (pages: seq<seq<string>>)
    ensures 1 <= |pages| <= |SplitLines(story)| + 1
  {
    PageLines(Paginate(g, WrapAll(width, g.limit, SplitLines(story))))
  }

  /** Placing word `j`: `emitted` are the lines emitted so far for this
      source line and `target` all of them. A word that makes the line too
      wide emits the line without it and starts the next line. */
  lemma PlaceWord(width: string -> real, limit: real, words: seq<string>, j: nat,
                  current: seq<string>, emitted: seq<string>, target: seq<string>)
    requires j < |words|
    requires emitted + Joins(GroupFrom(width, limit, words, j, current)) == target
    ensures width(Join(current + [words[j]])) > limit ==>
      (emitted + [Join(current)]) + Joins(GroupFrom(width, limit, words, j + 1, [words[j]])) == target
    ensures width(Join(current + [words[j]])) <= limit ==>
      emitted + Joins(GroupFrom(width, limit, words, j + 1, current + [words[j]])) == target
  {
    if width(Join(current + [words[j]])) > limit {
      var tail := GroupFrom(width, limit, words, j + 1, [words[j]]);
      assert Joins([current] + tail) == [Join(current)] + Joins(tail);
    }
  }

  /** After the last word, the line being filled is emitted if it holds any word. */
  lemma FlushLine(width: string -> real, limit: real, words: seq<string>,
                  current: seq<string>, emitted: seq<string>, target: seq<string>)
    requires emitted + Joins(GroupFrom(width, limit, words, |words|, current)) == target
    ensures target == if current != [] then emitted + [Join(current)] else emitted
  {
  }

  /** Placing block `i` on the current page: the lines of the page grow by
      the block, and the pages closed so far, followed by the pagination of
      the remaining blocks, still make up the whole pagination. */
  lemma PlaceBlock<T>(g: Geometry, blocks: seq<seq<T>>, i: nat, done: seq<seq<seq<T>>>,
                      pageBlocks: seq<seq<T>>, y0: real, page: seq<T>, y: real)
    requires i < |blocks|
    requires done + PaginateFrom(g, blocks, i, pageBlocks, y0) == Paginate(g, blocks)
    requires page == Flatten(pageBlocks) + blocks[i]
    requires y == y0 - Descent(g.leading, |blocks[i]|)
    ensures page == Flatten(pageBlocks + [blocks[i]])
    ensures y < g.bottom ==>
      (done + [pageBlocks + [blocks[i]]]) + PaginateFrom(g, blocks, i + 1, [], g.nextTop) == Paginate(g, blocks)
    ensures g.bottom <= y ==>
      done + PaginateFrom(g, blocks, i + 1, pageBlocks + [blocks[i]], y) == Paginate(g, blocks)
  {
    FlattenAppend(pageBlocks, [blocks[i]]);
    assert Flatten([blocks[i]]) == blocks[i] + Flatten([blocks[i]][1..]);
    if y < g.bottom {
      var rest := PaginateFrom(g, blocks, i + 1, [], g.nextTop);
      assert done + ([pageBlocks + [blocks[i]]] + rest) == (done + [pageBlocks + [blocks[i]]]) + rest;
    }
  }

  lemma PageLinesAppend<T>(done: seq<seq<seq<T>>>, page: seq<seq<T>>)
    ensures PageLines(done + [page]) == PageLines(done) + [Flatten(page)]
  {
  }

  /** Draws the output lines of one source line: the "wrap long lines"
      block of `save_to_pdf`. `page` and `y` are the lines already on the
      current page and the text cursor; each `textLine` appends one line and
      lowers the cursor by the leading. */
  method WrapSourceLine(line: string, width: string -> real, g: Geometry, page: seq<string>, y: real)
    returns (page': seq<string>, y': real)
    ensures page' == page + WrapLine(width, g.limit, line)
    ensures y' == y - Descent(g.leading, |WrapLine(width, g.limit, line)|)
  {
    var words := Split(line);
    var current: seq<string> := [];
    ghost var emitted: seq<string> := [];
    ghost var target := WrapLine(width, g.limit, line);
    page', y' := page, y;
    for j := 0 to |words|
      invariant page' == page + emitted
      invariant y' == y - Descent(g.leading, |emitted|)
      invariant emitted + Joins(GroupFrom(width, g.limit, words, j, current)) == target
    {
      PlaceWord(width, g.limit, words, j, current, emitted, target);
      current := current + [words[j]];
      if width(Join(current)) > g.limit {
        current := current[..|current| - 1];  // the word that did not fit
        page' := page' + [Join(current)];
        emitted := emitted + [Join(current)];
        y' := y' - g.leading;
        current := [words[j]];
      }
    }
    FlushLine(width, g.limit, words, current, emitted, target);
    if current != [] {
      page' := page' + [Join(current)];
      emitted := emitted + [Join(current)];
      y' := y' - g.leading;
    }
  }

  /** The text flow of `save_to_pdf`: returns the lines drawn on each page,
      in order, instead of drawing them. */
  method SaveToPdf(story: string, width: string -> real, g: Geometry) returns (pages: seq<seq<string>>)
    ensures pages == Layout(width, g, story)
  {
    var lines := SplitLines(story);
    ghost var blocks := WrapAll(width, g.limit, lines);
    ghost var done: seq<seq<seq<string>>> := [];
    ghost var pageBlocks: seq<seq<string>> := [];
    pages := [];
    var page: seq<string> := [];
    var y := g.firstTop;
    for i := 0 to |lines|
      invariant done + PaginateFrom(g, blocks, i, pageBlocks, y) == Paginate(g, blocks)
      invariant pages == PageLines(done)
      invariant page == Flatten(pageBlocks)
    {
      ghost var y0 := y;
      page, y := WrapSourceLine(lines[i], width, g, page, y);
      assert blocks[i] == WrapLine(width, g.limit, lines[i]);
      PlaceBlock(g, blocks, i, done, pageBlocks, y0, page, y);
      pageBlocks := pageBlocks + [blocks[i]];
      if y < g.bottom {  // bottom margin: start a new page
        PageLinesAppend(done, pageBlocks);
        done := done + [pageBlocks];
        pages := pages + [page];
        pageBlocks := [];
        page := [];
        y := g.nextTop;
      }
    }
    PageLinesAppend(done, pageBlocks);
    pages := pages + [page];
  }
}
