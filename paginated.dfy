/** The inline keyboard of a navigation node's children: one page of child
    buttons laid out `row_width` to a row, the previous/next page buttons,
    and a back button. */
module Paginated {
  import opened Wrappers
  import Seqs
  import Text
  import Callbacks
  import K = Keyboards
  import NavTree

  /** An inline button: its caption and its callback data. */
  datatype Button = Button(text: string, data: string)

  /** A child node: its kind, its id as the callback data shows it, and its
      label. */
  datatype Child = Child(kind: string, ident: string, caption: string)

  /** `nav:{kind}:{ident}` under the child's label. */
  function ChildButton(c: Child): Button {
    Button(c.caption, "nav:" + c.kind + ":" + c.ident)
  }

  function PageButton(text: string, page: int): Button {
    Button(text, "nav:page:" + Text.IntToString(page))
  }

  const BackButton := Button("🔙", "nav:back")

  // ----- page arithmetic ----------------------------------------------------

  lemma MulMono(a: int, w: nat)
    requires a >= 1
    ensures a * w >= w
  {
    var k := a - 1;
    assert a * w == k * w + w;
    assert k * w >= 0;
  }

  /** A quotient and remainder that add up are the ones `/` and `%` give. */
  lemma DivUnique(x: int, w: nat, q: int, r: int)
    requires w >= 1 && 0 <= r < w && x == q * w + r
    ensures x / w == q && x % w == r
  {
    var q2 := x / w;
    var r2 := x % w;
    assert x == q2 * w + r2;
    assert (q - q2) * w == q * w - q2 * w;
    if q > q2 {
      MulMono(q - q2, w);
    } else if q < q2 {
      MulMono(q2 - q, w);
    }
  }

  /** Counting one more: the remainder steps up, or wraps to zero. */
  lemma ModNext(i: nat, w: nat)
    requires w >= 1
    ensures (i + 1) % w == if i % w + 1 == w then 0 else i % w + 1
  {
    var q := i / w;
    var r := i % w;
    assert i == q * w + r;
    if r + 1 == w {
      assert i + 1 == (q + 1) * w + 0;
      DivUnique(i + 1, w, q + 1, 0);
    } else {
      DivUnique(i + 1, w, q, r + 1);
    }
  }

  /** The page size used: the one asked for, else the configured one; one
      that is not positive shows everything on one page. */
  function PerPage(perPage: Option<int>, configured: int, total: nat): (r: int)
    ensures r >= 1
    ensures perPage.Some? && perPage.value >= 1 ==> r == perPage.value
    ensures perPage.None? && configured >= 1 ==> r == configured
  {
    var p := if perPage.Some? then perPage.value else configured;
    if p <= 0 then (if total == 0 then 1 else total) else p
  }

  /** `max(1, ceil(total / per_page))`. */
  function PageCount(total: nat, per: int): (r: int)
    requires per >= 1
    ensures r >= 1
  {
    if total == 0 then 1 else (total + per - 1) / per
  }

  /** The pages hold the children: one page more would be empty, one page
      less too small. */
  lemma PageCountBounds(total: nat, per: int)
    requires per >= 1
    ensures total == 0 ==> PageCount(total, per) == 1
    ensures total > 0 ==> (PageCount(total, per) - 1) * per < total <= PageCount(total, per) * per
  {
    if total > 0 {
      var x := total + per - 1;
      var q := x / per;
      var r := x % per;
      assert x == q * per + r;
      assert (q - 1) * per == q * per - per;
    }
  }

  /** `max(1, min(page, pages))`. */
  function Clamp(page: int, pages: int): (r: int)
    requires pages >= 1
    ensures 1 <= r <= pages
    ensures 1 <= page <= pages ==> r == page
  {
    if page < 1 then 1 else if page > pages then pages else page
  }

  /** `children[start:end]` for page `page`: Python's slice stops at the
      end of the list. */
  function PageSlice(children: seq<Child>, page: int, per: int): (r: seq<Child>)
    requires per >= 1 && 1 <= page <= PageCount(|children|, per)
  {
    var start := (page - 1) * per;
    PageStartInRange(|children|, page, per);
    children[start..if start + per <= |children| then start + per else |children|]
  }

  lemma PageStartInRange(total: nat, page: int, per: int)
    requires per >= 1 && 1 <= page <= PageCount(total, per)
    ensures 0 <= (page - 1) * per <= total
    ensures page < PageCount(total, per) ==> (page - 1) * per + per <= total
    ensures total > 0 ==> (page - 1) * per < total
  {
    PageCountBounds(total, per);
    var pages := PageCount(total, per);
    MulNonneg(page - 1, per);
    if total > 0 && page < pages {
      SplitProduct(page - 1, pages - page, pages - 1, per);
      MulMono(pages - page, per);
    }
  }

  lemma MulNonneg(a: int, w: int)
    requires a >= 0 && w >= 0
    ensures a * w >= 0
  {
  }

  /** `(a + b) * w == a * w + b * w`. */
  lemma SplitProduct(a: int, b: int, c: int, w: int)
    requires a + b == c
    ensures c * w == a * w + b * w
  {
  }

  /** A page holds at most `per` children, and every page but the last
      exactly `per`. */
  lemma PageSize(children: seq<Child>, page: int, per: int)
    requires per >= 1 && 1 <= page <= PageCount(|children|, per)
    ensures |PageSlice(children, page, per)| <= per
    ensures page < PageCount(|children|, per) ==> |PageSlice(children, page, per)| == per
    ensures |children| > 0 ==> |PageSlice(children, page, per)| >= 1
  {
    PageStartInRange(|children|, page, per);
  }

  lemma PositiveFactor(a: int, w: nat)
    requires w >= 1 && a * w > 0
    ensures a >= 1
  {
  }

  /** Child `k` falls in page `k / per + 1`: after that page's start and
      before the next one's. */
  lemma PageOf(total: nat, per: int, k: nat)
    requires per >= 1 && k < total
    ensures 1 <= k / per + 1 <= PageCount(total, per)
    ensures (k / per) * per <= k < (k / per) * per + per
  {
    var q := k / per;
    assert k == q * per + k % per;
    PageCountBounds(total, per);
    var pages := PageCount(total, per);
    assert pages * per - q * per == (pages - q) * per;
    PositiveFactor(pages - q, per);
  }

  /** Child `k` is shown on page `k / per + 1`, at place `k % per`. */
  lemma ChildOnItsPage(children: seq<Child>, per: int, k: nat)
    requires per >= 1 && k < |children|
    ensures var p := k / per + 1;
      1 <= p <= PageCount(|children|, per)
      && k % per < |PageSlice(children, p, per)| && PageSlice(children, p, per)[k % per] == children[k]
  {
    var q := k / per;
    var start := q * per;
    assert 1 <= q + 1 <= PageCount(|children|, per) && start <= k < start + per by {
      PageOf(|children|, per, k);
    }
    assert k % per == k - start by {
      assert k == q * per + k % per;
    }
    var stop := if start + per <= |children| then start + per else |children|;
    assert PageSlice(children, q + 1, per) == children[start..stop] by {
      assert (q + 1 - 1) * per == start;
    }
  }

  // ----- the keyboard -------------------------------------------------------

  /** The previous/next row: `◀` to the page before when there is one and
      `▶` to the page after when there is one; no row when neither. */
  function NavRow(page: int, pages: int): seq<seq<Button>> {
    var row := (if page > 1 then [PageButton("◀", page - 1)] else [])
             + (if page < pages then [PageButton("▶", page + 1)] else []);
    if row == [] then [] else [row]
  }

  /** The keyboard `build_children_keyboard` returns for its inputs. */
  function ChildrenKeyboard(children: seq<Child>, page: int, perPage: Option<int>, configured: int,
                            includeBack: bool, rowWidth: int): seq<seq<Button>> {
    var per := PerPage(perPage, configured, |children|);
    var pages := PageCount(|children|, per);
    var p := Clamp(page, pages);
    K.Chunk(Seqs.Map(PageSlice(children, p, per), ChildButton), if rowWidth <= 0 then 1 else rowWidth)
      + NavRow(p, pages) + (if includeBack then [[BackButton]] else [])
  }

  /** The loop of `build_children_keyboard`: each child's button joins the
      row, and the row closes after every `width` buttons; a part-filled last
      row is kept. */
  method LayOut(slice: seq<Child>, width: int) returns (kb: seq<seq<Button>>)
    requires width >= 1
    ensures kb == K.Chunk(Seqs.Map(slice, ChildButton), width)
  {
    var buttons := Seqs.Map(slice, ChildButton);
    kb := [];
    var row: seq<Button> := [];
    assert K.Filling(buttons, 0, [], [], width);
    for i := 0 to |slice|
      invariant K.Filling(buttons, i, kb, row, width) && |row| == i % width
    {
      K.FillStep(buttons, i, kb, row, width);
      ModNext(i, width);
      row := row + [ChildButton(slice[i])];
      if (i + 1) % width == 0 {
        kb := kb + [row];
        row := [];
      }
    }
    K.FillDone(buttons, kb, row, width);
    if row != [] {
      kb := kb + [row];
    }
  }

  /** `build_children_keyboard(children, page, per_page, include_back,
      row_width)` with `PER_PAGE` as `configured`: a loop that puts the
      page's buttons into rows, closing a row after every `row_width`
      buttons. */
  method BuildChildrenKeyboard(children: seq<Child>, page: int, perPage: Option<int>, configured: int,
                               includeBack: bool, rowWidth: int) returns (kb: seq<seq<Button>>)
    ensures kb == ChildrenKeyboard(children, page, perPage, configured, includeBack, rowWidth)
  {
    var per := if perPage.Some? then perPage.value else configured;
    var total := |children|;
    if per <= 0 {
      per := if total == 0 then 1 else total;
    }
    var pages := PageCount(total, per);
    var p := Clamp(page, pages);
    var width := if rowWidth <= 0 then 1 else rowWidth;
    assert per == PerPage(perPage, configured, total);
    var slice := PageSlice(children, p, per);
    var buttons := Seqs.Map(slice, ChildButton);
    kb := LayOut(slice, width);
    ghost var childRows := kb;
    assert childRows == K.Chunk(buttons, width);
    var navRow: seq<Button> := [];
    ghost var prev: seq<Button> := if p > 1 then [PageButton("◀", p - 1)] else [];
    ghost var next: seq<Button> := if p < pages then [PageButton("▶", p + 1)] else [];
    if p > 1 {
      navRow := navRow + [PageButton("◀", p - 1)];
    }
    assert navRow == prev;
    if p < pages {
      navRow := navRow + [PageButton("▶", p + 1)];
    }
    assert navRow == prev + next;
    assert NavRow(p, pages) == if navRow == [] then [] else [navRow];
    if navRow != [] {
      kb := kb + [navRow];
    }
    assert kb == childRows + NavRow(p, pages);
    if includeBack {
      kb := kb + [[BackButton]];
    }
    assert ChildrenKeyboard(children, page, perPage, configured, includeBack, rowWidth)
      == K.Chunk(buttons, width) + NavRow(p, pages) + (if includeBack then [[BackButton]] else []);
  }

  /** The child rows hold the page's buttons in order, at most `row_width`
      (at least one) to a row. */
  lemma ChildRows(children: seq<Child>, p: int, per: int, rowWidth: int)
    requires per >= 1 && 1 <= p <= PageCount(|children|, per)
    ensures var rows := K.Chunk(Seqs.Map(PageSlice(children, p, per), ChildButton), if rowWidth <= 0 then 1 else rowWidth);
      K.Flatten(rows) == Seqs.Map(PageSlice(children, p, per), ChildButton)
      && forall i :: 0 <= i < |rows| ==> 1 <= |rows[i]| <= (if rowWidth <= 0 then 1 else rowWidth)
  {
    K.ChunkShape(Seqs.Map(PageSlice(children, p, per), ChildButton), if rowWidth <= 0 then 1 else rowWidth);
  }

  /** A previous button exactly on a page after the first. */
  lemma PrevButtonShown(page: int, pages: int)
    ensures (exists row :: row in NavRow(page, pages) && PageButton("◀", page - 1) in row) <==> page > 1
  {
    var prev := PageButton("◀", page - 1);
    var row := (if page > 1 then [prev] else [])
             + (if page < pages then [PageButton("▶", page + 1)] else []);
    assert NavRow(page, pages) == if row == [] then [] else [row];
    if page > 1 {
      assert row[0] == prev;
      assert row in NavRow(page, pages) && prev in row;
    } else {
      assert prev !in row;
    }
  }

  /** A next button exactly on a page before the last. */
  lemma NextButtonShown(page: int, pages: int)
    ensures (exists row :: row in NavRow(page, pages) && PageButton("▶", page + 1) in row) <==> page < pages
  {
    var next := PageButton("▶", page + 1);
    var row := (if page > 1 then [PageButton("◀", page - 1)] else [])
             + (if page < pages then [next] else []);
    assert NavRow(page, pages) == if row == [] then [] else [row];
    if page < pages {
      assert row[|row| - 1] == next;
      assert row in NavRow(page, pages) && next in row;
    } else {
      assert next !in row;
    }
  }

  /** A page button's data is read back by the tree's handler as a request
      for that page. */
  lemma PageButtonRoundTrip(text: string, n: int)
    ensures var d := NavTree.StripNav(PageButton(text, n).data);
      "page:" <= d && ':' in d && Callbacks.ParseInt(NavTree.SplitFirst(d, ':').1) == Some(n)
  {
    var digits := Text.IntToString(n);
    var d := "page:" + digits;
    assert NavTree.StripNav(PageButton(text, n).data) == d by {
      assert PageButton(text, n).data == "nav:" + d;
      assert ("nav:" + d)[4..] == d;
    }
    assert "page:" <= d;
    assert NavTree.SplitFirst(d, ':').1 == digits by {
      SplitAfterPage(digits);
    }
    Callbacks.ParseIntToString(n);
  }

  lemma SplitAfterPage(digits: string)
    ensures ':' in "page:" + digits && NavTree.SplitFirst("page:" + digits, ':') == ("page", digits)
  {
    var d := "page:" + digits;
    assert d == "page" + [':'] + digits;
    Callbacks.IndexOfSeparator("page", ':', digits);
    assert d[..4] == "page";
    assert d[5..] == digits;
  }

  /** Five children two to a page: three pages, the last holding the fifth
      child alone; a page past the end shows the last page. */
  lemma FiveChildrenTwoPerPage(children: seq<Child>)
    requires |children| == 5
    ensures PageCount(5, 2) == 3
    ensures PageSlice(children, 3, 2) == [children[4]]
    ensures Clamp(9, PageCount(5, 2)) == 3
  {
    assert (5 + 2 - 1) / 2 == 3;
  }
}
