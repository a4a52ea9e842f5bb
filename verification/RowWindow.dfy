/** The list that the page shows: pixel positions of rows, and the picture of a window of rows with the open detail. */
module RowWindow {

  const ROW_HEIGHT: int := 28
  const BUFFER_PX: int := 1200

  // ---------- pixels ----------

  /** The top of a row, below the open detail of row `detail` (-1 for none) where that comes first. */
  function RowIdxToPixelTop(detail: int, height: int, idx: int): int {
    idx * ROW_HEIGHT + (if detail >= 0 && height > 0 && detail < idx then height else 0)
  }

  function PixelToRowIdx(detail: int, height: int, pixel: int): int {
    var p := if pixel < 0 then 0 else pixel;
    if detail < 0 || height == 0 then p / ROW_HEIGHT
    else
      var start := detail * ROW_HEIGHT + ROW_HEIGHT;
      if p < start then p / ROW_HEIGHT
      else if p < start + height then detail
      else (p - height) / ROW_HEIGHT
  }

  /** The pixels of a row, with its detail, are exactly the ones that lead back to it. */
  lemma PixelInverse(detail: int, height: nat, p: nat, i: nat)
    ensures PixelToRowIdx(detail, height, p) == i <==>
              RowIdxToPixelTop(detail, height, i) <= p < RowIdxToPixelTop(detail, height, i + 1)
  {
  }

  lemma TopLeadsBack(detail: int, height: nat, i: nat)
    ensures PixelToRowIdx(detail, height, RowIdxToPixelTop(detail, height, i)) == i
  {
    PixelInverse(detail, height, RowIdxToPixelTop(detail, height, i), i);
  }

  lemma PixelMonotone(detail: int, height: nat, p: int, q: int)
    requires p <= q
    ensures 0 <= PixelToRowIdx(detail, height, p) <= PixelToRowIdx(detail, height, q)
  {
  }

  // ---------- pictures ----------

  datatype RowData = RowData(id: int, html: string)

  /** The elements between the two spacers. */
  datatype Node = RowEl(row: RowData) | DetailEl(html: string) | Marker(html: string)

  /** Row i, and the detail if it is open there. */
  function Line(rows: seq<RowData>, i: int, at: int, html: string): seq<Node>
    requires 0 <= i < |rows|
  {
    [RowEl(rows[i])] + (if at == i then [DetailEl(html)] else [])
  }

  predicate InWindow(rows: seq<RowData>, a: int, b: int) {
    0 <= a <= b && (a < b ==> b <= |rows|)
  }

  /** A full rebuild of rows[a..b). */
  function Picture(rows: seq<RowData>, a: int, b: int, at: int, html: string): seq<Node>
    requires InWindow(rows, a, b)
    decreases b - a
  {
    if a == b then [] else Picture(rows, a, b - 1, at, html) + Line(rows, b - 1, at, html)
  }

  lemma {:induction false} PictureJoin(rows: seq<RowData>, a: int, b: int, c: int, at: int, html: string)
    requires 0 <= a <= b <= c <= |rows|
    ensures Picture(rows, a, b, at, html) + Picture(rows, b, c, at, html) == Picture(rows, a, c, at, html)
    decreases c - b
  {
    if b < c {
      PictureJoin(rows, a, b, c - 1, at, html);
      assert Picture(rows, a, b, at, html) + Picture(rows, b, c, at, html)
          == Picture(rows, a, b, at, html) + Picture(rows, b, c - 1, at, html) + Line(rows, c - 1, at, html);
    }
  }

  lemma PictureFront(rows: seq<RowData>, a: int, b: int, at: int, html: string)
    requires 0 <= a < b <= |rows|
    ensures Picture(rows, a, b, at, html) == Line(rows, a, at, html) + Picture(rows, a + 1, b, at, html)
  {
    PictureJoin(rows, a, a + 1, b, at, html);
    assert Picture(rows, a, a, at, html) == [];
    assert Picture(rows, a, a + 1, at, html) == Line(rows, a, at, html);
  }

  /** A detail outside the window does not show. */
  lemma {:induction false} PictureOutside(rows: seq<RowData>, a: int, b: int, at: int, html: string,
                                          at': int, html': string)
    requires InWindow(rows, a, b) && !(a <= at < b) && !(a <= at' < b)
    ensures Picture(rows, a, b, at, html) == Picture(rows, a, b, at', html')
    decreases b - a
  {
    if a < b {
      PictureOutside(rows, a, b - 1, at, html, at', html');
    }
  }

  /** More rows at the end leave the picture as it is. */
  lemma {:induction false} PictureGrows(rows: seq<RowData>, more: seq<RowData>, a: int, b: int, at: int, html: string)
    requires InWindow(rows, a, b)
    ensures InWindow(rows + more, a, b) && Picture(rows + more, a, b, at, html) == Picture(rows, a, b, at, html)
    decreases b - a
  {
    if a < b {
      PictureGrows(rows, more, a, b - 1, at, html);
    }
  }

  /** The place of a row in the picture. */
  function Offset(rows: seq<RowData>, a: int, i: int, at: int, html: string): int
    requires 0 <= a <= i <= |rows|
  {
    |Picture(rows, a, i, at, html)|
  }

  lemma PictureParts(rows: seq<RowData>, a: int, b: int, at: int, html: string, i: int)
    requires 0 <= a <= i < b <= |rows|
    ensures Picture(rows, a, b, at, html) ==
              Picture(rows, a, i, at, html) + Line(rows, i, at, html) + Picture(rows, i + 1, b, at, html)
  {
    PictureJoin(rows, a, i, b, at, html);
    PictureFront(rows, i, b, at, html);
    hide Picture, Line;
    assert Picture(rows, a, i, at, html) + (Line(rows, i, at, html) + Picture(rows, i + 1, b, at, html))
        == Picture(rows, a, i, at, html) + Line(rows, i, at, html) + Picture(rows, i + 1, b, at, html);
  }

  lemma Split(x: seq<Node>, y: seq<Node>)
    ensures (x + y)[..|x|] == x && (x + y)[|x|..] == y
  {
  }

  lemma PictureAt(rows: seq<RowData>, a: int, b: int, at: int, html: string, i: int)
    requires 0 <= a <= i < b <= |rows|
    ensures var k := Offset(rows, a, i, at, html); var pic := Picture(rows, a, b, at, html);
            && 0 <= k < |pic| && pic[k] == RowEl(rows[i])
            && pic[..k] == Picture(rows, a, i, at, html)
            && pic[k..] == Line(rows, i, at, html) + Picture(rows, i + 1, b, at, html)
            && (at == i <==> k + 1 < |pic| && pic[k + 1].DetailEl?)
  {
    PictureJoin(rows, a, i, b, at, html);
    PictureFront(rows, i, b, at, html);
    if at != i && i + 1 < b {
      PictureFront(rows, i + 1, b, at, html);
    }
    assert i + 1 == b ==> Picture(rows, i + 1, b, at, html) == [];
    hide Picture;
    var pre, post := Picture(rows, a, i, at, html), Picture(rows, i, b, at, html);
    Split(pre, post);
    assert Picture(rows, a, b, at, html)[|pre|] == post[0];
    assert |post| > 1 ==> Picture(rows, a, b, at, html)[|pre| + 1] == post[1];
  }

  // ---------- heights ----------

  function Px(measure: string -> nat, n: Node): nat {
    match n
    case RowEl(_) => ROW_HEIGHT
    case DetailEl(html) => measure(html)
    case Marker(html) => measure(html)
  }

  function Height(measure: string -> nat, nodes: seq<Node>): nat {
    if nodes == [] then 0 else Height(measure, nodes[..|nodes| - 1]) + Px(measure, nodes[|nodes| - 1])
  }

  lemma {:induction false} HeightJoin(measure: string -> nat, x: seq<Node>, y: seq<Node>)
    ensures Height(measure, x + y) == Height(measure, x) + Height(measure, y)
  {
    if y == [] {
      assert x + y == x;
    } else {
      var init := y[..|y| - 1];
      HeightJoin(measure, x, init);
      assert (x + y)[..|x + y| - 1] == x + init;
    }
  }

  lemma {:induction false} PictureHeight(measure: string -> nat, rows: seq<RowData>, a: int, b: int,
                                         at: int, html: string)
    requires InWindow(rows, a, b)
    ensures Height(measure, Picture(rows, a, b, at, html)) ==
              (b - a) * ROW_HEIGHT + (if a <= at < b then measure(html) else 0)
    decreases b - a
  {
    if a < b {
      PictureHeight(measure, rows, a, b - 1, at, html);
      HeightJoin(measure, Picture(rows, a, b - 1, at, html), Line(rows, b - 1, at, html));
      LineHeight(measure, rows, b - 1, at, html);
    }
  }

  lemma LineHeight(measure: string -> nat, rows: seq<RowData>, i: int, at: int, html: string)
    requires 0 <= i < |rows|
    ensures Height(measure, Line(rows, i, at, html)) == ROW_HEIGHT + (if at == i then measure(html) else 0)
  {
    var r := [RowEl(rows[i])];
    assert Height(measure, r) == ROW_HEIGHT by {
      assert r[..0] == [];
    }
    if at == i {
      var line := Line(rows, i, at, html);
      assert line[..|line| - 1] == r && line[|line| - 1] == DetailEl(html);
    }
  }

  function TopPx(first: int, detail: int, height: int): int {
    first * ROW_HEIGHT + (if detail >= 0 && height > 0 && detail < first then height else 0)
  }

  function BottomPx(total: int, first: int, last: int, detail: int, height: int): int {
    (if total > last then (total - last) * ROW_HEIGHT else 0)
    + (if detail >= 0 && height > 0 && detail >= first && detail >= last then height else 0)
  }

  /** The top spacer ends where the first row of the window starts, and the bottom spacer is what the list still has
      below its last row. */
  lemma SpacersMean(total: nat, first: nat, last: nat, detail: int, height: nat)
    requires first <= last <= total && detail < total
    ensures TopPx(first, detail, height) == RowIdxToPixelTop(detail, height, first)
    ensures BottomPx(total, first, last, detail, height) ==
              RowIdxToPixelTop(detail, height, total) - RowIdxToPixelTop(detail, height, last)
    ensures ListPx(total, detail, height) == RowIdxToPixelTop(detail, height, total)
  {
  }

  /** The whole list: all rows, and the open detail where there is one. */
  function ListPx(total: int, detail: int, height: int): int {
    total * ROW_HEIGHT + (if detail >= 0 && height > 0 then height else 0)
  }

  /** Spacers and picture add up to the whole list exactly when the window does not lie behind the list. */
  lemma SpacersFill(measure: string -> nat, rows: seq<RowData>, a: int, b: int, at: int, html: string,
                    detail: int, height: nat)
    requires InWindow(rows, a, b)
    requires if a <= at < b then at == detail && measure(html) == height else a <= detail < b ==> height == 0
    ensures (TopPx(a, detail, height) + Height(measure, Picture(rows, a, b, at, html))
             + BottomPx(|rows|, a, b, detail, height) == ListPx(|rows|, detail, height)) <==> b <= |rows|
  {
    PictureHeight(measure, rows, a, b, at, html);
  }

  // ---------- the window of a scroll position ----------

  function FirstRow(scrollTop: int, detail: int, height: int): int {
    PixelToRowIdx(detail, height, scrollTop - BUFFER_PX)
  }

  /** One past the last row. */
  function LastRow(scrollTop: int, viewport: int, total: int, detail: int, height: int): int {
    var end := PixelToRowIdx(detail, height, scrollTop + viewport + BUFFER_PX) + 1;
    var cut := if end > total then total else end;
    var first := FirstRow(scrollTop, detail, height);
    if cut < first then first else cut
  }

  /** Every row with a pixel in the viewport, its detail included, is in the window. */
  lemma WindowCovers(scrollTop: nat, viewport: nat, total: nat, detail: int, height: nat, i: nat)
    requires i < total
    requires RowIdxToPixelTop(detail, height, i) < scrollTop + viewport
    requires scrollTop < RowIdxToPixelTop(detail, height, i + 1)
    ensures FirstRow(scrollTop, detail, height) <= i < LastRow(scrollTop, viewport, total, detail, height)
  {
    var top := RowIdxToPixelTop(detail, height, i);
    var p := if scrollTop > top then scrollTop else top;
    PixelInverse(detail, height, p, i);
    PixelMonotone(detail, height, scrollTop - BUFFER_PX, p);
    PixelMonotone(detail, height, p, scrollTop + viewport + BUFFER_PX);
    hide PixelToRowIdx, RowIdxToPixelTop;
  }

  /** Exactly the rows with a pixel in the viewport, or in the 1200 pixels above and below it, are in the window. */
  lemma WindowExactly(scrollTop: nat, viewport: nat, total: nat, detail: int, height: nat, i: nat)
    requires i < total
    ensures FirstRow(scrollTop, detail, height) <= i < LastRow(scrollTop, viewport, total, detail, height) <==>
              && RowIdxToPixelTop(detail, height, i) <= scrollTop + viewport + 1200
              && RowIdxToPixelTop(detail, height, i + 1) > (if scrollTop > 1200 then scrollTop - 1200 else 0)
  {
    var lo: nat, hi := if scrollTop > BUFFER_PX then scrollTop - BUFFER_PX else 0, scrollTop + viewport + BUFFER_PX;
    NegativePixel(detail, height, scrollTop - BUFFER_PX);
    RowSides(detail, height, lo, i);
    RowSides(detail, height, hi, i);
    PixelMonotone(detail, height, scrollTop - BUFFER_PX, hi);
    hide PixelToRowIdx, RowIdxToPixelTop;
  }

  lemma NegativePixel(detail: int, height: nat, p: int)
    ensures PixelToRowIdx(detail, height, p) == PixelToRowIdx(detail, height, if p > 0 then p else 0)
  {
  }

  lemma RowSides(detail: int, height: nat, p: nat, i: nat)
    ensures PixelToRowIdx(detail, height, p) <= i <==> p < RowIdxToPixelTop(detail, height, i + 1)
    ensures PixelToRowIdx(detail, height, p) >= i <==> p >= RowIdxToPixelTop(detail, height, i)
  {
  }

  /** Rows are 28 pixels high; an open detail is below its row and above the next. */
  lemma TopsMean(detail: int, height: nat, i: nat)
    ensures RowIdxToPixelTop(detail, height, 0) == 0
    ensures RowIdxToPixelTop(detail, height, i + 1) - RowIdxToPixelTop(detail, height, i) ==
              28 + (if i == detail then height else 0)
  {
  }

  /** Scrolling to the top of a row draws it. */
  lemma JumpShows(viewport: nat, total: nat, detail: int, height: nat, i: nat)
    requires i < total && viewport > 0
    ensures var top := RowIdxToPixelTop(detail, height, i);
            FirstRow(top, detail, height) <= i < LastRow(top, viewport, total, detail, height)
  {
    WindowCovers(RowIdxToPixelTop(detail, height, i), viewport, total, detail, height, i);
  }

  /** The window lies behind the list only when the scroll position does. */
  lemma WindowInList(scrollTop: nat, viewport: nat, total: nat, detail: int, height: nat)
    requires detail < total && scrollTop <= ListPx(total, detail, height) + BUFFER_PX
    ensures LastRow(scrollTop, viewport, total, detail, height) <= total
  {
    PixelInverse(detail, height, ListPx(total, detail, height), total);
    PixelMonotone(detail, height, scrollTop - BUFFER_PX, ListPx(total, detail, height));
  }
}
