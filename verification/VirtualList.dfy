/** The virtual list of the timeline page: the rows near the viewport are live elements between two spacers, and the
    window is patched as it moves. */
module VirtualList {
  import opened Records
  import opened LiveRows
  import opened RowWindow
  import Scores
  import Store

  // ---------- the list ----------

  function IndexOfRowId(rows: seq<RowData>, id: int): (r: int)
    ensures -1 <= r < |rows|
    ensures r >= 0 ==> rows[r].id == id
    ensures forall j :: 0 <= j < (if r < 0 then |rows| else r) ==> rows[j].id != id
  {
    if rows == [] then -1
    else
      var r := IndexOfRowId(rows[..|rows| - 1], id);
      if r >= 0 then r else if rows[|rows| - 1].id == id then |rows| - 1 else -1
  }

  class VirtualList {
    const measure: string -> nat
    var rows: seq<RowData>
    var live: seq<Node>
    var domStart: int
    var domEnd: int
    var openDetailFor: Option<int>
    var openDetailHtml: string
    var detailIdx: int
    var detailHeight: int
    var emptyMarkerHtml: string
    var topH: int
    var botH: int

    /** Where the open detail belongs in the window; -1 if nowhere. */
    ghost function Shown(): int
      reads this
    {
      ShownAt(domStart, domEnd, openDetailFor.Some?, detailIdx, openDetailHtml)
    }

    ghost predicate Windowed()
      reads this
    {
      InWindow(rows, domStart, domEnd)
    }

    /** The live elements are a full rebuild of the window, with the open detail right after its row. */
    ghost predicate Right()
      reads this
    {
      Windowed() && live == Picture(rows, domStart, domEnd, Shown(), openDetailHtml)
    }

    /** No rows have been drawn since the list was empty. */
    ghost predicate Blank()
      reads this
    {
      domStart == domEnd == 0 && (live == [] || (|live| == 1 && live[0].Marker?))
    }

    /** What every operation keeps: the rows of the window are drawn, or none yet; details may be anywhere. */
    ghost predicate Valid()
      reads this
    {
      Windowed() && 0 <= detailHeight && (Blank() || DrawnRows(live, rows, domStart, domEnd))
    }

    /** The height of the open detail is the one it has on the page. */
    ghost predicate Measured()
      reads this
    {
      && detailIdx < |rows| && 0 <= detailHeight
      && (openDetailFor.None? ==> detailIdx == -1 && detailHeight == 0)
      && (openDetailFor.Some? && detailIdx >= 0 ==>
            if openDetailHtml == "" then detailHeight == 0 else detailHeight == measure(openDetailHtml))
    }

    ghost predicate Spaced()
      reads this
    {
      topH == TopPx(domStart, detailIdx, detailHeight)
      && botH == BottomPx(|rows|, domStart, domEnd, detailIdx, detailHeight)
    }

    // ---------- the ends ----------

    method ClearLiveRows()
      modifies this`live
      ensures live == []
    {
      while live != []
        decreases |live|
      {
        live := live[1..];
      }
    }

    method RemoveFrontRow()
      modifies this`live
      ensures live == WithoutFront(old(live))
    {
      while live != [] && !live[0].RowEl?
        invariant WithoutFront(live) == WithoutFront(old(live))
        decreases |live|
      {
        live := live[1..];
      }
      if live != [] {
        live := live[1..];
        if live != [] && live[0].DetailEl? {
          live := live[1..];
        }
      }
    }

    method RemoveBackRow()
      modifies this`live
      ensures live == WithoutBack(old(live))
    {
      if live != [] && live[|live| - 1].DetailEl? {
        live := live[..|live| - 1];
      }
      while live != [] && !live[|live| - 1].RowEl?
        invariant WithoutBack(live) == WithoutBack(old(live))
        decreases |live|
      {
        live := live[..|live| - 1];
      }
      if live != [] {
        live := live[..|live| - 1];
      }
    }

    /** New elements for rows[lo..hi). */
    method BuildRows(lo: int, hi: int) returns (frag: seq<Node>)
      requires InWindow(rows, lo, hi)
      ensures frag == Picture(rows, lo, hi, -1, "")
    {
      frag := [];
      for i := lo to hi
        invariant frag == Picture(rows, lo, i, -1, "")
      {
        frag := frag + [RowEl(rows[i])];
      }
    }

    // ---------- moving the window ----------

    /** Moves the window. */
    method PatchWindow(newStart: int, newEnd: int)
      requires InWindow(rows, newStart, newEnd) && Windowed()
      modifies this`live
      ensures live == Patched(old(live), rows, domStart, domEnd, newStart, newEnd)
    {
      hide Picture, WithoutFront, WithoutBack;
      var oldStart, oldEnd := domStart, domEnd;
      if newEnd <= oldStart || newStart >= oldEnd || oldEnd == oldStart {
        ClearLiveRows();
        live := BuildRows(newStart, newEnd);
        return;
      }
      ghost var before := live;
      var i := oldStart;
      while i < newStart
        invariant oldStart <= i <= oldStart + Below(oldStart, newStart)
        invariant live == TrimFront(before, i - oldStart)
      {
        RemoveFrontRow();
        i := i + 1;
      }
      ghost var trimmed := live;
      i := newEnd;
      while i < oldEnd
        invariant newEnd <= i <= newEnd + Below(newEnd, oldEnd)
        invariant live == TrimBack(trimmed, i - newEnd)
      {
        RemoveBackRow();
        i := i + 1;
      }
      hide TrimFront, TrimBack;
      ghost var kept := live;
      var prependEnd := if oldStart > newStart then oldStart else newStart;
      NoRows(rows, newStart, -1, "");
      NoRows(rows, newEnd, -1, "");
      if newStart < prependEnd {
        var frag := BuildRows(newStart, prependEnd);
        live := frag + live;
      }
      assert live == Picture(rows, newStart, prependEnd, -1, "") + kept;
      var appendStart := if oldEnd < newEnd then oldEnd else newEnd;
      if appendStart < newEnd {
        var frag := BuildRows(appendStart, newEnd);
        live := live + frag;
      }
    }

    // ---------- the detail row ----------

    method RemoveDetails()
      modifies this`live
      ensures live == NoDetails(old(live))
    {
      var kept := [];
      var all := live;
      for i := 0 to |all|
        invariant live == old(live) == all && kept == NoDetails(all[..i])
      {
        assert all[..i + 1][..i] == all[..i];
        if !all[i].DetailEl? {
          kept := kept + [all[i]];
        }
      }
      assert all[..|all|] == all;
      live := kept;
    }

    /** The place of the live row `idx` among the elements; -1 if it is not live. */
    method FindLiveRowAt(idx: int) returns (k: int)
      ensures k == RowPlace(live, idx - domStart)
    {
      var offset := idx - domStart;
      var count := 0;
      for cur := 0 to |live|
        invariant count == RowsIn(live[..cur]) && RowPlace(live[..cur], offset) == -1
      {
        assert live[..cur + 1][..cur] == live[..cur];
        if live[cur].RowEl? {
          if count == offset {
            PlaceStays(live, cur + 1, offset);
            return cur;
          }
          count := count + 1;
        }
      }
      assert live[..|live|] == live;
      k := -1;
    }

    /** Makes the detail row match the state. */
    method SyncDetailRow()
      modifies this`live
      ensures live == Synced(old(live), domStart, domEnd, openDetailFor.Some?, detailIdx, openDetailHtml)
    {
      hide NoDetails, RowPlace;
      if openDetailFor.None? || detailIdx < domStart || detailIdx >= domEnd {
        RemoveDetails();
        return;
      }
      var k := FindLiveRowAt(detailIdx);
      if k < 0 {
        return;
      }
      if k + 1 < |live| && live[k + 1].DetailEl? {
        return;
      }
      if openDetailHtml == "" {
        return;
      }
      live := live[..k + 1] + [DetailEl(openDetailHtml)] + live[k + 1..];
    }

    // ---------- spacers and drawing ----------

    method UpdateSpacers(firstVisible: int, lastVisible: int)
      modifies this`topH, this`botH
      ensures topH == TopPx(firstVisible, detailIdx, detailHeight)
      ensures botH == BottomPx(|rows|, firstVisible, lastVisible, detailIdx, detailHeight)
    {
      topH := firstVisible * ROW_HEIGHT;
      botH := if (|rows| - lastVisible) * ROW_HEIGHT > 0 then (|rows| - lastVisible) * ROW_HEIGHT else 0;
      if detailIdx >= 0 && detailHeight > 0 {
        if detailIdx < firstVisible {
          topH := topH + detailHeight;
        } else if detailIdx >= lastVisible {
          botH := botH + detailHeight;
        }
      }
    }

    /** The spacers and the live elements are as high as the whole list, unless the window lies behind the list. */
    lemma Fills()
      requires Right() && Spaced() && Measured()
      ensures topH + Height(measure, live) + botH == ListPx(|rows|, detailIdx, detailHeight) <==> domEnd <= |rows|
    {
      SpacersFill(measure, rows, domStart, domEnd, Shown(), openDetailHtml, detailIdx, detailHeight);
    }

    /** Draws the window of a scroll position. */
    method Render(scrollTop: nat, viewport: nat)
      requires Valid()
      modifies this`live, this`domStart, this`domEnd, this`topH, this`botH
      ensures Valid() && Spaced()
      ensures rows == [] ==>
                Blank() && live == if emptyMarkerHtml == "" then [] else [Marker(emptyMarkerHtml)]
      ensures rows != [] ==>
                && domStart == FirstRow(scrollTop, detailIdx, detailHeight)
                && domEnd == LastRow(scrollTop, viewport, |rows|, detailIdx, detailHeight)
                && DrawnRows(live, rows, domStart, domEnd)
                && live == Synced(Moved(old(live), rows, old(domStart), old(domEnd), domStart, domEnd),
                                  domStart, domEnd, openDetailFor.Some?, detailIdx, openDetailHtml)
                && (Right() <==> Repairs(old(live), old(domStart), old(domEnd), domStart, domEnd))
                && (old(Blank() || Right()) ==> Right())
    {
      hide PixelToRowIdx, Picture, Synced, Moved, DrawnRows, ShownAt, Repairs;
      if |rows| == 0 {
        ClearLiveRows();
        UpdateSpacers(0, 0);
        if emptyMarkerHtml != "" {
          live := [Marker(emptyMarkerHtml)];
        }
        domStart, domEnd := 0, 0;
        return;
      }
      var newStart := PixelToRowIdx(detailIdx, detailHeight, scrollTop - BUFFER_PX);
      var newEnd := PixelToRowIdx(detailIdx, detailHeight, scrollTop + viewport + BUFFER_PX) + 1;
      PixelMonotone(detailIdx, detailHeight, scrollTop - BUFFER_PX, scrollTop + viewport + BUFFER_PX);
      if newStart < 0 {
        newStart := 0;
      }
      if newEnd > |rows| {
        newEnd := |rows|;
      }
      if newEnd < newStart {
        newEnd := newStart;
      }
      Redrawn(newStart, newEnd);
      MovedIs(live, rows, domStart, domEnd, newStart, newEnd);
      if newStart == domStart && newEnd == domEnd {
        UpdateSpacers(newStart, newEnd);
        SyncDetailRow();
        return;
      }
      PatchWindow(newStart, newEnd);
      domStart, domEnd := newStart, newEnd;
      UpdateSpacers(newStart, newEnd);
      SyncDetailRow();
    }

    /** Drawing the window [c, d) from these elements of the window [a, b) leaves the list right: the open detail is out
        of the window, or no other detail has stayed. */
    ghost predicate Repairs(before: seq<Node>, a: int, b: int, c: int, d: int)
      requires InWindow(rows, a, b) && InWindow(rows, c, d)
      reads this`rows, this`openDetailFor, this`detailIdx, this`openDetailHtml
    {
      var moved := Moved(before, rows, a, b, c, d);
      || !(openDetailFor.Some? && c <= detailIdx < d)
      || moved == Picture(rows, c, d, -1, "")
      || moved == Picture(rows, c, d, ShownAt(c, d, openDetailFor.Some?, detailIdx, openDetailHtml), openDetailHtml)
    }

    /** What drawing the window [c, d) does. */
    lemma Redrawn(c: int, d: int)
      requires Valid() && InWindow(rows, c, d) && (c == 0 ==> d > 0)
      ensures var open := openDetailFor.Some?;
              var after := Synced(Moved(live, rows, domStart, domEnd, c, d), c, d, open, detailIdx, openDetailHtml);
              && DrawnRows(after, rows, c, d)
              && (after == Picture(rows, c, d, ShownAt(c, d, open, detailIdx, openDetailHtml), openDetailHtml)
                  <==> Repairs(live, domStart, domEnd, c, d))
      ensures Blank() || Right() ==> Repairs(live, domStart, domEnd, c, d)
    {
      hide Picture, Synced, Moved, DrawnRows;
      var moved := Moved(live, rows, domStart, domEnd, c, d);
      MovedRows(c, d);
      SyncedRows(moved, rows, c, d, openDetailFor.Some?, detailIdx, openDetailHtml);
      SyncedRight(moved, rows, c, d, openDetailFor.Some?, detailIdx, openDetailHtml);
      MovedIs(live, rows, domStart, domEnd, c, d);
      if Right() {
        MovedPicture(rows, domStart, domEnd, c, d, Shown(), openDetailHtml);
      }
    }

    lemma MovedRows(c: int, d: int)
      requires Valid() && InWindow(rows, c, d) && (c == 0 ==> d > 0)
      ensures DrawnRows(Moved(live, rows, domStart, domEnd, c, d), rows, c, d)
    {
      hide Patched, Picture, NoDetails;
      if c != domStart || d != domEnd {
        PatchedRows(live, rows, domStart, domEnd, c, d);
      }
    }

    // ---------- the other steps ----------

    constructor (measure: string -> nat)
      ensures Valid() && Blank() && Right() && Measured() && rows == [] && live == [] && openDetailFor == None
    {
      this.measure := measure;
      rows, live, domStart, domEnd := [], [], 0, 0;
      openDetailFor, openDetailHtml, detailIdx, detailHeight := None, "", -1, 0;
      emptyMarkerHtml, topH, botH := "", 0, 0;
    }

    /** A fetched page of rows; a page without rows may bring a marker to show instead. */
    method Ingest(more: seq<RowData>, marker: string)
      requires Valid()
      modifies this`rows, this`emptyMarkerHtml
      ensures Valid() && rows == old(rows) + more
      ensures emptyMarkerHtml == if rows == [] && marker != "" then marker else old(emptyMarkerHtml)
      ensures old(Right()) ==> Right()
      ensures old(Measured()) ==> Measured()
    {
      hide Picture, NoDetails;
      PictureGrows(rows, more, domStart, domEnd, Shown(), openDetailHtml);
      PictureGrows(rows, more, domStart, domEnd, -1, "");
      rows := rows + more;
      if |rows| == 0 {
        if marker != "" {
          emptyMarkerHtml := marker;
        }
      }
    }

    /** New filters: the list starts over. */
    method Reset()
      modifies this`rows, this`live, this`domStart, this`domEnd, this`openDetailFor, this`openDetailHtml,
               this`detailIdx, this`detailHeight, this`emptyMarkerHtml
      ensures Valid() && rows == [] && Blank() && Right() && Measured()
    {
      rows := [];
      openDetailFor, openDetailHtml, detailIdx, detailHeight := None, "", -1, 0;
      emptyMarkerHtml := "";
      domStart, domEnd := 0, 0;
      ClearLiveRows();
    }

    /** Closing repairs every list: no detail is left, wherever there were any. */
    method CloseDetail()
      requires Valid()
      modifies this`openDetailFor, this`openDetailHtml, this`detailIdx, this`detailHeight
      modifies this`live, this`topH, this`botH
      ensures Valid() && live == NoDetails(old(live)) && openDetailFor == None && Spaced() && Measured()
      ensures old(Blank()) ==> Blank()
      ensures !Blank() ==> Right()
    {
      hide Picture, NoDetails;
      NoDetailsSmall(live);
      openDetailFor, openDetailHtml, detailIdx, detailHeight := None, "", -1, 0;
      RemoveDetails();
      PictureNoDetails(rows, domStart, domEnd, -1, "");
      UpdateSpacers(domStart, domEnd);
    }

    /** The answer to the request for the detail of a row arrives. `source` is the row it was asked from, -1 if
        that row is not live any more. The list is right afterwards exactly when no other detail is live
        and the id leads back to the row. */
    method DetailArrives(id: int, html: string, source: int)
      requires Valid()
      requires source == -1 || domStart <= source < domEnd
      modifies this`openDetailFor, this`openDetailHtml, this`detailIdx, this`detailHeight
      modifies this`live, this`topH, this`botH
      ensures Valid() && openDetailFor == Some(id) && openDetailHtml == html && detailIdx == IndexOfRowId(rows, id)
      ensures html == "" || source == -1 ==> live == old(live)
      ensures html != "" && source != -1 ==>
                var k := RowPlace(old(live), source - domStart);
                && k >= 0 && old(live)[k] == RowEl(rows[source]) && live == Inserted(old(live), k, html)
                && Details(live) == Details(old(live)) + 1
                && Spaced() && detailHeight == measure(html) && Measured()
                && (Right() <==> Details(old(live)) == 0 && detailIdx == source)
                && (Details(old(live)) == 0 ==> live == Picture(rows, domStart, domEnd, source, html))
    {
      hide Picture, IndexOfRowId, Details, NoDetails, RowPlace;
      openDetailFor, openDetailHtml, detailIdx := Some(id), html, IndexOfRowId(rows, id);
      if html == "" || source == -1 {
        return;
      }
      var k := FindLiveRowAt(source);
      PlaceOfRow(live, rows, domStart, domEnd, source);
      InsertedCounts(live, k, html);
      ArrivedRight(live, rows, domStart, domEnd, source, html, Shown());
      live := live[..k + 1] + [DetailEl(html)] + live[k + 1..];
      detailHeight := measure(html);
      UpdateSpacers(domStart, domEnd);
    }
  }

  /** The id of a row leads back to it exactly when no row before it has that id. Alerts and events are counted
      apart, so two rows can have one id. */
  lemma IdLeadsBack(rows: seq<RowData>, k: int)
    requires 0 <= k < |rows|
    ensures IndexOfRowId(rows, rows[k].id) == k <==> forall j :: 0 <= j < k ==> rows[j].id != rows[k].id
  {
    var r := IndexOfRowId(rows, rows[k].id);
    assert rows[k].id == rows[k].id && r >= 0 && r <= k;
  }

  // ---------- details in the wrong place ----------

  /** What the page keeps of a row: the number of its record, whatever its kind. */
  function DataOf(r: Row, html: string): RowData {
    RowData(r.Id(), html)
  }

  /** The first alert and the first event of a store have the same number, and the number leads to the alert. */
  lemma SameNumberExample(a: Row, e: Row)
    requires a.AlertRow? && e.EventRow?
    ensures var bodies := Store.AddAll(Store.EMPTY, [a, e]).bodies;
            && Scores.A(1) in bodies && Scores.E(1) in bodies
            && var shown := [DataOf(bodies[Scores.A(1)], "alert"), DataOf(bodies[Scores.E(1)], "event")];
               shown[1].id == 1 && IndexOfRowId(shown, shown[1].id) == 0
  {
    hide Store.AddAll;
    Store.FirstNumbers(a, e);
    var bodies := Store.AddAll(Store.EMPTY, [a, e]).bodies;
    IdLeadsBack([DataOf(bodies[Scores.A(1)], "alert"), DataOf(bodies[Scores.E(1)], "event")], 0);
  }

  /** Two rows on the page, and no detail. */
  method TwoRowList(measure: string -> nat, first: RowData, second: RowData) returns (list: VirtualList)
    ensures fresh(list) && list.Valid() && list.Right() && list.rows == [first, second]
    ensures list.domStart == 0 && list.domEnd == 2 && list.live == [RowEl(first), RowEl(second)]
    ensures Details(list.live) == 0
  {
    hide Picture, NoDetails, Details;
    list := new VirtualList(measure);
    list.Ingest([first, second], "");
    list.Render(0, 600);
    TwoRows(list.rows, list.openDetailHtml);
    PictureDetails(list.rows, 0, 2, -1, list.openDetailHtml);
  }

  /** So the detail of the event, asked for and shown below its row, is taken for the detail of the alert. */
  method WrongNumberExample(measure: string -> nat) returns (list: VirtualList)
    ensures fresh(list) && list.Valid() && list.rows == [RowData(1, "alert"), RowData(1, "event")]
    ensures list.live == [RowEl(list.rows[0]), RowEl(list.rows[1]), DetailEl("detail")]
    ensures list.openDetailFor == Some(1) && list.detailIdx == 0 && !list.Right()
  {
    hide NoDetails, Details;
    list := TwoRowList(measure, RowData(1, "alert"), RowData(1, "event"));
    TwoRows(list.rows, "");
    IdLeadsBack(list.rows, 0);
    list.DetailArrives(1, "detail", 1);
  }

  lemma TwoRows(rows: seq<RowData>, html: string)
    requires |rows| == 2
    ensures Picture(rows, 0, 2, -1, html) == [RowEl(rows[0]), RowEl(rows[1])]
  {
    assert Picture(rows, 0, 1, -1, html) == [RowEl(rows[0])];
  }

  /** Two answers that come one after the other leave two details on the page, and drawing it again does not help;
      closing does. */
  method TwoAnswersExample(measure: string -> nat) returns (list: VirtualList)
    ensures fresh(list) && list.Valid() && list.rows == [RowData(1, "first"), RowData(2, "second")]
    ensures !list.Right()
  {
    hide Picture, NoDetails, Details, RowPlace, Inserted, Patched, DrawnRows;
    list := TwoRowList(measure, RowData(1, "first"), RowData(2, "second"));
    IdLeadsBack(list.rows, 0);
    IdLeadsBack(list.rows, 1);
    list.DetailArrives(1, "detail", 0);
    list.DetailArrives(2, "detail", 1);
    PictureDetails(list.rows, 0, 2, -1, "");
    PictureDetails(list.rows, 0, 2, 1, "detail");
    list.Render(0, 600);
  }
}
