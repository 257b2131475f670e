/** What the pagination of `save_to_pdf` guarantees: pages hold whole
    source lines, in order, and a page ends exactly when the text cursor has
    dropped below the bottom margin. */
module PageProps {
  import opened Text
  import opened PdfLayout

  /** The text cursor after the blocks of `page` were drawn from `top`:
      each block lowers it by one leading per output line. */
  function Cursor<T>(g: Geometry, top: real, page: seq<seq<T>>): real
  {
    if page == [] then top
    else Cursor(g, top, page[..|page| - 1]) - Descent(g.leading, |page[|page| - 1]|)
  }

  /** No block of `page` left the cursor below the bottom margin. */
  predicate Settled<T>(g: Geometry, top: real, page: seq<seq<T>>)
  {
    forall m :: 1 <= m <= |page| ==> g.bottom <= Cursor(g, top, page[..m])
  }

  /** A page that was ended: only its last block took the cursor below the
      bottom margin. */
  predicate Closed<T>(g: Geometry, top: real, page: seq<seq<T>>)
  {
    page != [] && Settled(g, top, page[..|page| - 1]) && Cursor(g, top, page) < g.bottom
  }

  /** Every page but the last is closed and the last one is settled; the
      first page starts at `top` and every later one at `g.nextTop`. */
  predicate WellPaged<T>(g: Geometry, top: real, pages: seq<seq<seq<T>>>)
    decreases |pages|
  {
    |pages| >= 1 &&
    if |pages| == 1 then Settled(g, top, pages[0])
    else Closed(g, top, pages[0]) && WellPaged(g, g.nextTop, pages[1..])
  }

  /** The pages, read one after the other, hold the blocks of the current
      page and then the blocks still to place. */
  lemma {:induction false} PaginateFromBlocks<T>(g: Geometry, blocks: seq<seq<T>>, i: nat, page: seq<seq<T>>, y: real)
    requires i <= |blocks|
    ensures Flatten(PaginateFrom(g, blocks, i, page, y)) == page + blocks[i..]
    decreases |blocks| - i
  {
    if i == |blocks| {
      assert Flatten([page]) == page + Flatten([page][1..]);
    } else {
      var page' := page + [blocks[i]];
      var y' := y - Descent(g.leading, |blocks[i]|);
      assert blocks[i..] == [blocks[i]] + blocks[i + 1..];
      if y' < g.bottom {
        var rest := PaginateFrom(g, blocks, i + 1, [], g.nextTop);
        PaginateFromBlocks(g, blocks, i + 1, [], g.nextTop);
        FlattenAppend([page'], rest);
        assert Flatten([page']) == page' + Flatten([page'][1..]);
      } else {
        PaginateFromBlocks(g, blocks, i + 1, page', y');
      }
    }
  }

  /** Pagination keeps every block, in order: no source line is lost,
      repeated or moved. */
  lemma PaginateBlocks<T>(g: Geometry, blocks: seq<seq<T>>)
    ensures Flatten(Paginate(g, blocks)) == blocks
  {
    PaginateFromBlocks(g, blocks, 0, [], g.firstTop);
    assert blocks[0..] == blocks;
  }

  /** Adding a block that leaves the cursor at or above the bottom margin
      keeps a page settled. */
  lemma SettledGrow<T>(g: Geometry, top: real, page: seq<seq<T>>, b: seq<T>)
    requires Settled(g, top, page)
    requires g.bottom <= Cursor(g, top, page + [b])
    ensures Settled(g, top, page + [b])
  {
    var page' := page + [b];
    forall m | 1 <= m <= |page'| ensures g.bottom <= Cursor(g, top, page'[..m]) {
      if m <= |page| {
        assert page'[..m] == page[..m];
      } else {
        assert page'[..m] == page';
      }
    }
  }

  /** Pagination from a settled page whose cursor is `y`. */
  lemma {:induction false} PaginateFromWellPaged<T>(g: Geometry, blocks: seq<seq<T>>, i: nat, top: real, page: seq<seq<T>>, y: real)
    requires i <= |blocks|
    requires Settled(g, top, page)
    requires y == Cursor(g, top, page)
    ensures WellPaged(g, top, PaginateFrom(g, blocks, i, page, y))
    decreases |blocks| - i
  {
    if i < |blocks| {
      var page' := page + [blocks[i]];
      var y' := y - Descent(g.leading, |blocks[i]|);
      assert page'[..|page'| - 1] == page;
      assert y' == Cursor(g, top, page');
      if y' < g.bottom {
        var rest := PaginateFrom(g, blocks, i + 1, [], g.nextTop);
        PaginateFromWellPaged(g, blocks, i + 1, g.nextTop, [], g.nextTop);
        assert ([page'] + rest)[1..] == rest;
      } else {
        SettledGrow(g, top, page, blocks[i]);
        PaginateFromWellPaged(g, blocks, i + 1, top, page', y');
      }
    }
  }

  /** The pages of `save_to_pdf`: the first starts at `firstTop`, each later
      one at `nextTop`; a page ends after the source line that took the
      cursor below the bottom margin, and only then. */
  lemma PaginateWellPaged<T>(g: Geometry, blocks: seq<seq<T>>)
    ensures WellPaged(g, g.firstTop, Paginate(g, blocks))
  {
    PaginateFromWellPaged(g, blocks, 0, g.firstTop, [], g.firstTop);
  }

  /** The cursor drops by one leading per output line on the page. */
  lemma {:induction false} CursorLines<T>(g: Geometry, top: real, page: seq<seq<T>>)
    ensures Cursor(g, top, page) == top - Descent(g.leading, |Flatten(page)|)
    decreases |page|
  {
    if page != [] {
      var init := page[..|page| - 1];
      var last := page[|page| - 1];
      CursorLines(g, top, init);
      assert page == init + [last];
      FlattenAppend(init, [last]);
      assert Flatten([last]) == last + Flatten([last][1..]);
      DescentAdd(g.leading, |Flatten(init)|, |last|);
    }
  }

  /** Drawing `a` and then `b` lines lowers the cursor as drawing `a + b` does. */
  lemma {:induction false} DescentAdd(leading: real, a: nat, b: nat)
    ensures Descent(leading, a + b) == Descent(leading, a) + Descent(leading, b)
    decreases b
  {
    if b > 0 {
      DescentAdd(leading, a, b - 1);
    }
  }

  /** `n` lines lower the cursor by `n` leadings. */
  lemma {:induction false} DescentLines(leading: real, n: nat)
    ensures Descent(leading, n) == leading * n as real
  {
    if n > 0 {
      DescentLines(leading, n - 1);
    }
  }

  /** On A4, a page that was ended holds at least 50 lines if it is the
      first page and at least 53 otherwise: the cursor starts about 741.9 or
      791.9 points up, drops 14 points per line and the page ends only below 50. */
  lemma A4Capacity(top: real, page: seq<seq<string>>)
    requires top == A4Geometry.firstTop || top == A4Geometry.nextTop
    requires Closed(A4Geometry, top, page)
    ensures top == A4Geometry.firstTop ==> |Flatten(page)| >= 50
    ensures top == A4Geometry.nextTop ==> |Flatten(page)| >= 53
  {
    CursorLines(A4Geometry, top, page);
    DescentLines(A4Geometry.leading, |Flatten(page)|);
  }
}
