/** What `save_to_pdf` guarantees about a whole story. */
module LayoutProps {
  import opened Text
  import opened PdfLayout
  import opened WrapProps
  import opened PageProps

  /** The lines of the pages, read one page after the other, are the lines
      of the blocks, read one block after the other. */
  lemma {:induction false} PageLinesFlatten<T>(pages: seq<seq<seq<T>>>)
    ensures Flatten(PageLines(pages)) == Flatten(Flatten(pages))
    decreases |pages|
  {
    if pages != [] {
      PageLinesFlatten(pages[1..]);
      assert PageLines(pages)[1..] == PageLines(pages[1..]);
      FlattenAppend(pages[0], Flatten(pages[1..]));
    }
  }

  /** Wrapping every source line keeps the words of all of them, in order. */
  lemma {:induction false} WrapAllWords(width: string -> real, limit: real, lines: seq<string>)
    ensures WordsOf(Flatten(WrapAll(width, limit, lines))) == WordsOf(lines)
    decreases |lines|
  {
    if lines != [] {
      var blocks := WrapAll(width, limit, lines);
      assert blocks[1..] == WrapAll(width, limit, lines[1..]);
      WrapAllWords(width, limit, lines[1..]);
      WordsOfAppend(blocks[0], Flatten(blocks[1..]));
      WrapLineWords(width, limit, lines[0]);
    }
  }

  /** The PDF holds every word of the story exactly once, in the story's
      order, across all its pages. */
  lemma LayoutWords(width: string -> real, g: Geometry, story: string)
    ensures WordsOf(Flatten(Layout(width, g, story))) == Split(story)
  {
    var lines := SplitLines(story);
    var blocks := WrapAll(width, g.limit, lines);
    PageLinesFlatten(Paginate(g, blocks));
    PaginateBlocks(g, blocks);
    WrapAllWords(width, g.limit, lines);
    SplitLinesWords(story);
  }

  /** The pages of the PDF are the pages of whole source lines: every page
      is the output lines of consecutive source lines, the pages follow the
      source lines in order, and they break exactly as the cursor rule says. */
  lemma LayoutPages(width: string -> real, g: Geometry, story: string)
    ensures var pages := Paginate(g, WrapAll(width, g.limit, SplitLines(story)));
      Layout(width, g, story) == PageLines(pages)
      && Flatten(pages) == WrapAll(width, g.limit, SplitLines(story))
      && WellPaged(g, g.firstTop, pages)
  {
    var blocks := WrapAll(width, g.limit, SplitLines(story));
    PaginateBlocks(g, blocks);
    PaginateWellPaged(g, blocks);
  }
}
