/** The live elements of the list as sequences: what removing, moving the window and placing the detail make of them,
    with details in the right place or anywhere. */
module LiveRows {
  import opened RowWindow

  // ---------- removing from the ends ----------

  function WithoutFront(live: seq<Node>): seq<Node> {
    if live == [] then []
    else if !live[0].RowEl? then WithoutFront(live[1..])
    else if |live| > 1 && live[1].DetailEl? then live[2..]
    else live[1..]
  }

  function WithoutBack(live: seq<Node>): seq<Node> {
    if live == [] then []
    else if !live[|live| - 1].RowEl? then WithoutBack(live[..|live| - 1])
    else live[..|live| - 1]
  }

  /** Removing at the front takes the first row and its detail. */
  lemma FrontOfPicture(rows: seq<RowData>, a: int, b: int, at: int, html: string)
    requires 0 <= a < b <= |rows|
    ensures WithoutFront(Picture(rows, a, b, at, html)) == Picture(rows, a + 1, b, at, html)
  {
    PictureFront(rows, a, b, at, html);
    var rest := Picture(rows, a + 1, b, at, html);
    if a + 1 < b {
      PictureFront(rows, a + 1, b, at, html);
    }
    assert at != a ==> Picture(rows, a, b, at, html) == [RowEl(rows[a])] + rest;
    assert at == a ==> Picture(rows, a, b, at, html) == [RowEl(rows[a]), DetailEl(html)] + rest;
  }

  /** Removing at the back takes the last row and its detail. */
  lemma BackOfPicture(rows: seq<RowData>, a: int, b: int, at: int, html: string)
    requires 0 <= a < b <= |rows|
    ensures WithoutBack(Picture(rows, a, b, at, html)) == Picture(rows, a, b - 1, at, html)
  {
    var pic, init := Picture(rows, a, b, at, html), Picture(rows, a, b - 1, at, html);
    if at == b - 1 {
      assert pic[..|pic| - 1] == init + [RowEl(rows[b - 1])];
      assert pic[..|pic| - 1][..|pic| - 2] == init;
    } else {
      assert pic[..|pic| - 1] == init;
    }
  }

  function NoDetails(live: seq<Node>): seq<Node> {
    if live == [] then []
    else NoDetails(live[..|live| - 1]) + (if live[|live| - 1].DetailEl? then [] else [live[|live| - 1]])
  }

  lemma {:induction false} NoDetailsJoin(x: seq<Node>, y: seq<Node>)
    ensures NoDetails(x + y) == NoDetails(x) + NoDetails(y)
  {
    if y == [] {
      assert x + y == x;
    } else {
      var init := y[..|y| - 1];
      NoDetailsJoin(x, init);
      assert (x + y)[..|x + y| - 1] == x + init;
    }
  }

  lemma {:induction false} PictureNoDetails(rows: seq<RowData>, a: int, b: int, at: int, html: string)
    requires InWindow(rows, a, b)
    ensures NoDetails(Picture(rows, a, b, at, html)) == Picture(rows, a, b, -1, "")
    decreases b - a
  {
    if a < b {
      PictureNoDetails(rows, a, b - 1, at, html);
      NoDetailsJoin(Picture(rows, a, b - 1, at, html), Line(rows, b - 1, at, html));
      LineNoDetails(rows, b - 1, at, html);
      hide NoDetails;
      assert Line(rows, b - 1, -1, "") == [RowEl(rows[b - 1])];
    }
  }

  lemma LineNoDetails(rows: seq<RowData>, i: int, at: int, html: string)
    requires 0 <= i < |rows|
    ensures NoDetails(Line(rows, i, at, html)) == [RowEl(rows[i])]
  {
    var r := [RowEl(rows[i])];
    assert NoDetails(r) == r by {
      assert r[..0] == [];
    }
    if at == i {
      var line := Line(rows, i, at, html);
      assert line[..|line| - 1] == r && line[|line| - 1].DetailEl?;
    }
  }

  // ---------- finding a row ----------

  function RowsIn(live: seq<Node>): nat {
    if live == [] then 0 else RowsIn(live[..|live| - 1]) + (if live[|live| - 1].RowEl? then 1 else 0)
  }

  lemma {:induction false} RowsInJoin(x: seq<Node>, y: seq<Node>)
    ensures RowsIn(x + y) == RowsIn(x) + RowsIn(y)
  {
    if y == [] {
      assert x + y == x;
    } else {
      var init := y[..|y| - 1];
      RowsInJoin(x, init);
      assert (x + y)[..|x + y| - 1] == x + init;
    }
  }

  lemma {:induction false} RowsInPicture(rows: seq<RowData>, a: int, b: int, at: int, html: string)
    requires InWindow(rows, a, b)
    ensures RowsIn(Picture(rows, a, b, at, html)) == b - a
    decreases b - a
  {
    if a < b {
      RowsInPicture(rows, a, b - 1, at, html);
      RowsInJoin(Picture(rows, a, b - 1, at, html), Line(rows, b - 1, at, html));
      var r := [RowEl(rows[b - 1])];
      assert RowsIn(r) == 1 by {
        assert r[..0] == [];
      }
      if at == b - 1 {
        var line := Line(rows, b - 1, at, html);
        assert line[..|line| - 1] == r && line[|line| - 1].DetailEl?;
      }
    }
  }

  lemma {:induction false} RowsInPrefix(live: seq<Node>, j: nat, k: nat)
    requires j <= k <= |live|
    ensures RowsIn(live[..j]) <= RowsIn(live[..k])
  {
    if j < k {
      RowsInPrefix(live, j, k - 1);
      assert live[..k][..k - 1] == live[..k - 1];
    }
  }

  /** The k-th element of the picture is the row that comes after i - a other rows. */
  lemma FoundRow(rows: seq<RowData>, a: int, b: int, at: int, html: string, i: int, k: int)
    requires 0 <= a <= i < b <= |rows|
    requires 0 <= k < |Picture(rows, a, b, at, html)| && Picture(rows, a, b, at, html)[k].RowEl?
    requires RowsIn(Picture(rows, a, b, at, html)[..k]) == i - a
    ensures k == Offset(rows, a, i, at, html)
  {
    hide Picture, Line;
    var pic := Picture(rows, a, b, at, html);
    var o := Offset(rows, a, i, at, html);
    PictureAt(rows, a, b, at, html, i);
    RowsInPicture(rows, a, i, at, html);
    assert RowsIn(pic[..o]) == i - a;
    assert pic[..k + 1][..k] == pic[..k] && pic[..o + 1][..o] == pic[..o];
    if k < o {
      RowsInPrefix(pic, k + 1, o);
    } else if o < k {
      RowsInPrefix(pic, o + 1, k);
    }
  }

  // ---------- how many details ----------

  function Details(live: seq<Node>): nat {
    if live == [] then 0 else Details(live[..|live| - 1]) + (if live[|live| - 1].DetailEl? then 1 else 0)
  }

  lemma {:induction false} DetailsJoin(x: seq<Node>, y: seq<Node>)
    ensures Details(x + y) == Details(x) + Details(y)
  {
    if y == [] {
      assert x + y == x;
    } else {
      var init := y[..|y| - 1];
      DetailsJoin(x, init);
      assert (x + y)[..|x + y| - 1] == x + init;
    }
  }

  lemma {:induction false} PictureDetails(rows: seq<RowData>, a: int, b: int, at: int, html: string)
    requires InWindow(rows, a, b)
    ensures Details(Picture(rows, a, b, at, html)) == if a <= at < b then 1 else 0
    decreases b - a
  {
    if a < b {
      PictureDetails(rows, a, b - 1, at, html);
      DetailsJoin(Picture(rows, a, b - 1, at, html), Line(rows, b - 1, at, html));
      var r := [RowEl(rows[b - 1])];
      assert Details(r) == 0 by {
        assert r[..0] == [];
      }
      if at == b - 1 {
        var line := Line(rows, b - 1, at, html);
        assert line[..|line| - 1] == r && line[|line| - 1].DetailEl?;
      }
    }
  }

  /** The picture tells where the detail is. */
  lemma PictureTells(rows: seq<RowData>, a: int, b: int, at: int, html: string, at': int, html': string)
    requires 0 <= a <= at < b <= |rows| && at != at'
    ensures Picture(rows, a, b, at, html) != Picture(rows, a, b, at', html')
  {
    PictureDetails(rows, a, b, at, html);
    PictureDetails(rows, a, b, at', html');
    if a <= at' < b {
      var lo := if at < at' then at else at';
      PictureAt(rows, a, b, at, html, lo);
      PictureAt(rows, a, b, at', html', lo);
      PictureOutside(rows, a, lo, at, html, at', html');
    }
  }

  /** A detail put after row i. */
  lemma InsertDetail(rows: seq<RowData>, a: int, b: int, i: int, html: string, k: int)
    requires 0 <= a <= i < b <= |rows| && k == Offset(rows, a, i, -1, html)
    ensures var pic := Picture(rows, a, b, -1, html);
            0 <= k < |pic| && pic[..k + 1] + [DetailEl(html)] + pic[k + 1..] == Picture(rows, a, b, i, html)
  {
    PictureParts(rows, a, b, -1, html, i);
    PictureParts(rows, a, b, i, html, i);
    PictureOutside(rows, a, i, -1, html, i, html);
    PictureOutside(rows, i + 1, b, -1, html, i, html);
    hide Picture;
    InsertAfter(Picture(rows, a, i, -1, html), RowEl(rows[i]), Picture(rows, i + 1, b, -1, html), DetailEl(html));
    assert Line(rows, i, i, html) == [RowEl(rows[i]), DetailEl(html)];
    assert Line(rows, i, -1, html) == [RowEl(rows[i])];
    hide Line;
  }

  lemma InsertAfter(pre: seq<Node>, r: Node, post: seq<Node>, d: Node)
    ensures var s := pre + [r] + post; var k := |pre|;
            s[..k + 1] + [d] + s[k + 1..] == pre + [r, d] + post
  {
  }

  // ---------- details anywhere ----------

  /** The rows of the window are drawn, with details anywhere among them. */
  ghost predicate DrawnRows(live: seq<Node>, rows: seq<RowData>, a: int, b: int)
    requires InWindow(rows, a, b)
  {
    NoDetails(live) == Picture(rows, a, b, -1, "")
  }

  lemma NoDetailsOne(n: Node)
    ensures NoDetails([n]) == if n.DetailEl? then [] else [n]
  {
    assert [n][..0] == [];
  }

  lemma NoDetailsFront(live: seq<Node>)
    requires live != []
    ensures NoDetails(live) == (if live[0].DetailEl? then [] else [live[0]]) + NoDetails(live[1..])
  {
    NoDetailsJoin([live[0]], live[1..]);
    NoDetailsOne(live[0]);
    hide NoDetails;
    assert live == [live[0]] + live[1..];
  }

  ghost predicate AllRows(nodes: seq<Node>) {
    forall i :: 0 <= i < |nodes| ==> nodes[i].RowEl?
  }

  lemma {:induction false} PictureAllRows(rows: seq<RowData>, a: int, b: int)
    requires InWindow(rows, a, b)
    ensures AllRows(Picture(rows, a, b, -1, "")) && |Picture(rows, a, b, -1, "")| == b - a
    decreases b - a
  {
    if a < b {
      PictureAllRows(rows, a, b - 1);
    }
  }

  /** Removing at the front takes the first row, whatever details there are. */
  lemma {:induction false} FrontRows(live: seq<Node>)
    requires NoDetails(live) != [] && AllRows(NoDetails(live))
    ensures NoDetails(WithoutFront(live)) == NoDetails(live)[1..]
    decreases |live|
  {
    hide NoDetails;
    assert live != [] by {
      NoDetailsNone();
    }
    NoDetailsFront(live);
    assert !live[0].DetailEl? ==> NoDetails(live)[0] == live[0];
    if live[0].DetailEl? {
      assert NoDetails(live) == NoDetails(live[1..]);
      FrontRows(live[1..]);
    } else if |live| > 1 && live[1].DetailEl? {
      NoDetailsFront(live[1..]);
      assert live[1..][1..] == live[2..];
    }
  }

  lemma NoDetailsSmall(live: seq<Node>)
    ensures live == [] || (|live| == 1 && live[0].Marker?) ==> NoDetails(live) == live
  {
    if |live| == 1 {
      NoDetailsOne(live[0]);
      assert live == [live[0]];
    }
  }

  lemma NoDetailsNone()
    ensures NoDetails([]) == []
  {
  }

  lemma {:induction false} BackRows(live: seq<Node>)
    requires NoDetails(live) != [] && AllRows(NoDetails(live))
    ensures NoDetails(WithoutBack(live)) == NoDetails(live)[..|NoDetails(live)| - 1]
    decreases |live|
  {
    var init, last := live[..|live| - 1], live[|live| - 1];
    if last.DetailEl? {
      assert NoDetails(live) == NoDetails(init);
      BackRows(init);
    } else {
      assert NoDetails(live)[|NoDetails(live)| - 1] == last;
    }
  }

  // ---------- moving the window ----------

  function TrimFront(live: seq<Node>, n: nat): seq<Node> {
    if n == 0 then live else WithoutFront(TrimFront(live, n - 1))
  }

  function TrimBack(live: seq<Node>, n: nat): seq<Node> {
    if n == 0 then live else WithoutBack(TrimBack(live, n - 1))
  }

  /** How far one number is below another. */
  function Below(x: int, y: int): nat {
    if x < y then y - x else 0
  }

  /** What the live elements of [a, b) become when the window moves to [c, d). */
  function Patched(live: seq<Node>, rows: seq<RowData>, a: int, b: int, c: int, d: int): seq<Node>
    requires InWindow(rows, a, b) && InWindow(rows, c, d)
  {
    if d <= a || c >= b || a == b then Picture(rows, c, d, -1, "")
    else
      Picture(rows, c, c + Below(c, a), -1, "") + TrimBack(TrimFront(live, Below(a, c)), Below(d, b))
      + Picture(rows, d - Below(b, d), d, -1, "")
  }

  lemma {:induction false} TrimFrontRows(live: seq<Node>, rows: seq<RowData>, a: int, b: int, n: nat)
    requires InWindow(rows, a, b) && DrawnRows(live, rows, a, b) && n <= b - a
    ensures DrawnRows(TrimFront(live, n), rows, a + n, b)
    decreases n
  {
    if n > 0 {
      hide NoDetails, WithoutFront;
      TrimFrontRows(live, rows, a, b, n - 1);
      PictureAllRows(rows, a + n - 1, b);
      FrontRows(TrimFront(live, n - 1));
      PictureFront(rows, a + n - 1, b, -1, "");
    }
  }

  lemma {:induction false} TrimBackRows(live: seq<Node>, rows: seq<RowData>, a: int, b: int, n: nat)
    requires InWindow(rows, a, b) && DrawnRows(live, rows, a, b) && n <= b - a
    ensures DrawnRows(TrimBack(live, n), rows, a, b - n)
    decreases n
  {
    if n > 0 {
      hide NoDetails, WithoutBack;
      TrimBackRows(live, rows, a, b, n - 1);
      PictureAllRows(rows, a, b - n + 1);
      BackRows(TrimBack(live, n - 1));
      assert Picture(rows, a, b - n + 1, -1, "") == Picture(rows, a, b - n, -1, "") + [RowEl(rows[b - n])];
    }
  }

  lemma JoinThree(rows: seq<RowData>, a: int, b: int, c: int, d: int, at: int, html: string)
    requires 0 <= a <= b <= c <= d <= |rows|
    ensures Picture(rows, a, b, at, html) + Picture(rows, b, c, at, html) + Picture(rows, c, d, at, html)
         == Picture(rows, a, d, at, html)
  {
    hide Picture;
    PictureJoin(rows, a, b, c, at, html);
    PictureJoin(rows, a, c, d, at, html);
  }

  /** The rows of the new window are drawn if those of the old one were. */
  lemma PatchedRows(live: seq<Node>, rows: seq<RowData>, a: int, b: int, c: int, d: int)
    requires InWindow(rows, a, b) && InWindow(rows, c, d) && (a == b || DrawnRows(live, rows, a, b))
    ensures DrawnRows(Patched(live, rows, a, b, c, d), rows, c, d)
  {
    hide Picture, NoDetails, TrimFront, TrimBack;
    PictureNoDetails(rows, c, d, -1, "");
    if !(d <= a || c >= b || a == b) {
      var lo, hi := c + Below(c, a), d - Below(b, d);
      var kept := TrimBack(TrimFront(live, Below(a, c)), Below(d, b));
      TrimFrontRows(live, rows, a, b, Below(a, c));
      TrimBackRows(TrimFront(live, Below(a, c)), rows, lo, b, Below(d, b));
      PictureNoDetails(rows, c, lo, -1, "");
      PictureNoDetails(rows, hi, d, -1, "");
      NoDetailsJoin(Picture(rows, c, lo, -1, "") + kept, Picture(rows, hi, d, -1, ""));
      NoDetailsJoin(Picture(rows, c, lo, -1, ""), kept);
      JoinThree(rows, c, lo, hi, d, -1, "");
    }
  }

  lemma {:induction false} TrimFrontPicture(rows: seq<RowData>, a: int, b: int, at: int, html: string, n: nat)
    requires InWindow(rows, a, b) && n <= b - a
    ensures TrimFront(Picture(rows, a, b, at, html), n) == Picture(rows, a + n, b, at, html)
    decreases n
  {
    if n > 0 {
      hide Picture, WithoutFront;
      TrimFrontPicture(rows, a, b, at, html, n - 1);
      FrontOfPicture(rows, a + n - 1, b, at, html);
    }
  }

  lemma {:induction false} TrimBackPicture(rows: seq<RowData>, a: int, b: int, at: int, html: string, n: nat)
    requires InWindow(rows, a, b) && n <= b - a
    ensures TrimBack(Picture(rows, a, b, at, html), n) == Picture(rows, a, b - n, at, html)
    decreases n
  {
    if n > 0 {
      hide Picture, WithoutBack;
      TrimBackPicture(rows, a, b, at, html, n - 1);
      BackOfPicture(rows, a, b - n + 1, at, html);
    }
  }

  /** A full rebuild of the old window becomes a full rebuild of the new one, and a detail stays with its row. */
  lemma PatchedPicture(rows: seq<RowData>, a: int, b: int, c: int, d: int, at: int, html: string)
    requires InWindow(rows, a, b) && InWindow(rows, c, d) && (at == -1 || a <= at < b)
    ensures Patched(Picture(rows, a, b, at, html), rows, a, b, c, d) == Picture(rows, c, d, at, html)
  {
    hide Picture, TrimFront, TrimBack;
    if d <= a || c >= b || a == b {
      PictureOutside(rows, c, d, -1, "", at, html);
    } else {
      OverlapPicture(rows, a, b, c, d, at, html);
    }
  }

  lemma OverlapPicture(rows: seq<RowData>, a: int, b: int, c: int, d: int, at: int, html: string)
    requires InWindow(rows, a, b) && InWindow(rows, c, d) && (at == -1 || a <= at < b)
    requires a < d && c < b && a < b
    ensures Patched(Picture(rows, a, b, at, html), rows, a, b, c, d) == Picture(rows, c, d, at, html)
  {
    hide Picture, TrimFront, TrimBack, Below, Patched;
    OverlapBounds(|rows|, a, b, c, d, at);
    KeptPicture(rows, a, b, c, d, at, html);
    PatchedParts(Picture(rows, a, b, at, html), rows, a, b, c, d);
    NewAround(rows, c, c + Below(c, a), d - Below(b, d), d, at, html);
  }

  lemma PatchedParts(live: seq<Node>, rows: seq<RowData>, a: int, b: int, c: int, d: int)
    requires InWindow(rows, a, b) && InWindow(rows, c, d) && a < d && c < b && a < b
    ensures InWindow(rows, c, c + Below(c, a)) && InWindow(rows, d - Below(b, d), d)
    ensures Patched(live, rows, a, b, c, d) ==
              Picture(rows, c, c + Below(c, a), -1, "") + TrimBack(TrimFront(live, Below(a, c)), Below(d, b))
              + Picture(rows, d - Below(b, d), d, -1, "")
  {
    hide Picture, TrimFront, TrimBack;
  }

  lemma OverlapBounds(total: nat, a: int, b: int, c: int, d: int, at: int)
    requires 0 <= a < b <= total && 0 <= c <= d && (c < d ==> d <= total) && a < d && c < b
    requires at == -1 || a <= at < b
    ensures var lo, hi := c + Below(c, a), d - Below(b, d);
            0 <= c <= lo <= hi <= d <= total && !(c <= at < lo) && !(hi <= at < d)
  {
  }

  /** New rows on both sides of the part that stays. */
  lemma NewAround(rows: seq<RowData>, c: int, lo: int, hi: int, d: int, at: int, html: string)
    requires 0 <= c <= lo <= hi <= d <= |rows| && !(c <= at < lo) && !(hi <= at < d)
    ensures Picture(rows, c, lo, -1, "") + Picture(rows, lo, hi, at, html) + Picture(rows, hi, d, -1, "")
         == Picture(rows, c, d, at, html)
  {
    hide Picture;
    PictureOutside(rows, c, lo, -1, "", at, html);
    PictureOutside(rows, hi, d, -1, "", at, html);
    JoinThree(rows, c, lo, hi, d, at, html);
  }

  /** The part of the old window that stays. */
  lemma KeptPicture(rows: seq<RowData>, a: int, b: int, c: int, d: int, at: int, html: string)
    requires InWindow(rows, a, b) && InWindow(rows, c, d) && a < d && c < b
    ensures InWindow(rows, c + Below(c, a), d - Below(b, d))
    ensures TrimBack(TrimFront(Picture(rows, a, b, at, html), Below(a, c)), Below(d, b))
         == Picture(rows, c + Below(c, a), d - Below(b, d), at, html)
  {
    hide Picture, TrimFront, TrimBack;
    TrimFrontPicture(rows, a, b, at, html, Below(a, c));
    TrimBackPicture(rows, c + Below(c, a), b, at, html, Below(d, b));
  }

  /** The live elements once the window is where it should be. */
  function Moved(live: seq<Node>, rows: seq<RowData>, a: int, b: int, c: int, d: int): seq<Node>
    requires InWindow(rows, a, b) && InWindow(rows, c, d)
  {
    if c == a && d == b then live else Patched(live, rows, a, b, c, d)
  }

  lemma MovedIs(live: seq<Node>, rows: seq<RowData>, a: int, b: int, c: int, d: int)
    requires InWindow(rows, a, b) && InWindow(rows, c, d)
    ensures Moved(live, rows, a, b, c, d) == if c == a && d == b then live else Patched(live, rows, a, b, c, d)
  {
  }

  lemma MovedPicture(rows: seq<RowData>, a: int, b: int, c: int, d: int, at: int, html: string)
    requires InWindow(rows, a, b) && InWindow(rows, c, d) && (at == -1 || a <= at < b)
    ensures Moved(Picture(rows, a, b, at, html), rows, a, b, c, d) ==
              Picture(rows, c, d, if c <= at < d then at else -1, html)
    ensures Picture(rows, c, d, -1, html) == Picture(rows, c, d, -1, "")
  {
    hide Picture;
    PatchedPicture(rows, a, b, c, d, at, html);
    PictureOutside(rows, c, d, -1, html, -1, "");
    if !(c <= at < d) {
      PictureOutside(rows, c, d, at, html, -1, html);
    }
  }

  lemma NoRows(rows: seq<RowData>, a: int, at: int, html: string)
    requires 0 <= a
    ensures Picture(rows, a, a, at, html) == []
  {
  }

  // ---------- placing the detail ----------

  /** The place of the live row that comes after n others; -1 if there is none. */
  function RowPlace(live: seq<Node>, n: int): (k: int)
    ensures -1 <= k < |live|
  {
    if live == [] then -1
    else
      var init, last := live[..|live| - 1], live[|live| - 1];
      var k := RowPlace(init, n);
      if k >= 0 then k else if last.RowEl? && RowsIn(init) == n then |init| else -1
  }

  lemma {:induction false} PlaceStays(live: seq<Node>, j: nat, n: int)
    requires j <= |live| && RowPlace(live[..j], n) >= 0
    ensures RowPlace(live, n) == RowPlace(live[..j], n)
  {
    if j < |live| {
      assert live[..|live| - 1][..j] == live[..j];
      PlaceStays(live[..|live| - 1], j, n);
    } else {
      assert live[..j] == live;
    }
  }

  lemma {:induction false} NoPlace(live: seq<Node>, n: int)
    requires RowsIn(live) <= n
    ensures RowPlace(live, n) == -1
  {
    if live != [] {
      NoPlace(live[..|live| - 1], n);
    }
  }

  lemma RowsInOne(n: Node)
    ensures RowsIn([]) == 0 && RowsIn([n]) == if n.RowEl? then 1 else 0
  {
    assert [n][..0] == [];
  }

  lemma {:induction false} RowsInDrawn(live: seq<Node>)
    ensures RowsIn(live) == RowsIn(NoDetails(live))
  {
    if live != [] {
      var init, last := live[..|live| - 1], live[|live| - 1];
      RowsInDrawn(init);
      RowsInJoin(NoDetails(init), if last.DetailEl? then [] else [last]);
      RowsInOne(last);
    }
  }

  /** Every row of the window is found where it is drawn. */
  lemma {:induction false} PlaceOfRow(live: seq<Node>, rows: seq<RowData>, a: int, b: int, i: int)
    requires InWindow(rows, a, b) && DrawnRows(live, rows, a, b) && a <= i < b
    ensures var k := RowPlace(live, i - a);
            k >= 0 && live[k] == RowEl(rows[i]) && RowsIn(live[..k]) == i - a
    decreases |live|
  {
    hide RowsIn;
    assert live != [];
    var init, last := live[..|live| - 1], live[|live| - 1];
    if last.DetailEl? {
      PlaceOfRow(init, rows, a, b, i);
      assert init[..RowPlace(init, i - a)] == live[..RowPlace(init, i - a)];
    } else {
      var pic := Picture(rows, a, b - 1, -1, "");
      assert NoDetails(init) == pic && last == RowEl(rows[b - 1]) by {
        SplitLast(NoDetails(init), last, pic, RowEl(rows[b - 1]));
      }
      if i < b - 1 {
        PlaceOfRow(init, rows, a, b - 1, i);
        assert init[..RowPlace(init, i - a)] == live[..RowPlace(init, i - a)];
      } else {
        RowsInDrawn(init);
        RowsInPicture(rows, a, b - 1, -1, "");
        NoPlace(init, i - a);
      }
    }
  }

  lemma SplitLast(x: seq<Node>, m: Node, y: seq<Node>, n: Node)
    requires x + [m] == y + [n]
    ensures x == y && m == n
  {
    assert (x + [m])[|x|] == m && (y + [n])[|y|] == n;
    assert x == (x + [m])[..|x|] == (y + [n])[..|y|] == y;
  }

  /** A detail put anywhere. */
  function Inserted(live: seq<Node>, k: nat, html: string): seq<Node>
    requires k < |live|
  {
    live[..k + 1] + [DetailEl(html)] + live[k + 1..]
  }

  lemma InsertedCounts(live: seq<Node>, k: nat, html: string)
    requires k < |live|
    ensures NoDetails(Inserted(live, k, html)) == NoDetails(live)
    ensures Details(Inserted(live, k, html)) == Details(live) + 1
  {
    hide NoDetails, Details;
    var d := [DetailEl(html)];
    assert live == live[..k + 1] + live[k + 1..];
    DetailsJoin(live[..k + 1], live[k + 1..]);
    DetailsJoin(live[..k + 1] + d, live[k + 1..]);
    DetailsJoin(live[..k + 1], d);
    NoDetailsJoin(live[..k + 1], live[k + 1..]);
    NoDetailsJoin(live[..k + 1] + d, live[k + 1..]);
    NoDetailsJoin(live[..k + 1], d);
    OneDetail(html);
  }

  lemma OneDetail(html: string)
    ensures Details([DetailEl(html)]) == 1 && NoDetails([DetailEl(html)]) == []
  {
    assert [DetailEl(html)][..0] == [];
  }

  lemma {:induction false} WithoutDetails(live: seq<Node>)
    ensures Details(live) == 0 <==> NoDetails(live) == live
    ensures |NoDetails(live)| == |live| - Details(live)
  {
    if live != [] {
      WithoutDetails(live[..|live| - 1]);
      assert live == live[..|live| - 1] + [live[|live| - 1]];
    }
  }

  /** No detail is live. */
  lemma BarePicture(live: seq<Node>, rows: seq<RowData>, a: int, b: int)
    requires InWindow(rows, a, b) && DrawnRows(live, rows, a, b)
    ensures live == Picture(rows, a, b, -1, "") <==> Details(live) == 0
  {
    WithoutDetails(live);
    PictureDetails(rows, a, b, -1, "");
  }

  /** What the live elements of [a, b) become when the detail is made to match the state. */
  function Synced(live: seq<Node>, a: int, b: int, open: bool, idx: int, html: string): seq<Node> {
    if !open || idx < a || idx >= b then NoDetails(live)
    else
      var k := RowPlace(live, idx - a);
      if k < 0 || (k + 1 < |live| && live[k + 1].DetailEl?) || html == "" then live else Inserted(live, k, html)
  }

  function ShownAt(a: int, b: int, open: bool, idx: int, html: string): int {
    if open && a <= idx < b && html != "" then idx else -1
  }

  /** The rows stay as they are. */
  lemma SyncedRows(live: seq<Node>, rows: seq<RowData>, a: int, b: int, open: bool, idx: int, html: string)
    requires InWindow(rows, a, b) && DrawnRows(live, rows, a, b)
    ensures DrawnRows(Synced(live, a, b, open, idx, html), rows, a, b)
  {
    hide NoDetails, Picture, Inserted;
    PictureNoDetails(rows, a, b, -1, "");
    if RowPlace(live, idx - a) >= 0 {
      InsertedCounts(live, RowPlace(live, idx - a), html);
    }
  }

  /** The list is right afterwards exactly when the open detail is out of the window, or no other detail is live. */
  lemma SyncedRight(live: seq<Node>, rows: seq<RowData>, a: int, b: int, open: bool, idx: int, html: string)
    requires InWindow(rows, a, b) && DrawnRows(live, rows, a, b)
    ensures var shown := ShownAt(a, b, open, idx, html);
            Synced(live, a, b, open, idx, html) == Picture(rows, a, b, shown, html) <==>
              || !(open && a <= idx < b)
              || live == Picture(rows, a, b, -1, "") || live == Picture(rows, a, b, shown, html)
  {
    hide Picture, NoDetails, RowPlace, Inserted;
    var shown := ShownAt(a, b, open, idx, html);
    PictureOutside(rows, a, b, -1, "", -1, html);
    if open && a <= idx < b {
      var k := RowPlace(live, idx - a);
      PlaceOfRow(live, rows, a, b, idx);
      if live == Picture(rows, a, b, -1, html) {
        FoundRow(rows, a, b, -1, html, idx, k);
        PictureAt(rows, a, b, -1, html, idx);
        InsertedAt(rows, a, b, idx, html, k);
      } else if live == Picture(rows, a, b, shown, html) {
        FoundRow(rows, a, b, shown, html, idx, k);
        PictureAt(rows, a, b, shown, html, idx);
      } else {
        InsertedCounts(live, k, html);
        BarePicture(live, rows, a, b);
        PictureDetails(rows, a, b, shown, html);
      }
    }
  }

  lemma InsertedAt(rows: seq<RowData>, a: int, b: int, i: int, html: string, k: int)
    requires 0 <= a <= i < b <= |rows| && k == Offset(rows, a, i, -1, html)
    ensures 0 <= k < |Picture(rows, a, b, -1, html)|
    ensures Inserted(Picture(rows, a, b, -1, html), k, html) == Picture(rows, a, b, i, html)
  {
    InsertDetail(rows, a, b, i, html, k);
  }

  /** A detail put after its row makes the picture with the detail exactly when no other detail is live. */
  lemma ArrivedRight(live: seq<Node>, rows: seq<RowData>, a: int, b: int, source: int, html: string, shown: int)
    requires InWindow(rows, a, b) && DrawnRows(live, rows, a, b) && a <= source < b
    requires shown == -1 || a <= shown < b
    ensures var k := RowPlace(live, source - a);
            && k >= 0
            && (Inserted(live, k, html) == Picture(rows, a, b, shown, html) <==> Details(live) == 0 && shown == source)
            && (Details(live) == 0 ==> Inserted(live, k, html) == Picture(rows, a, b, source, html))
  {
    hide Picture, NoDetails, Details, RowPlace, Inserted;
    var k := RowPlace(live, source - a);
    PlaceOfRow(live, rows, a, b, source);
    BarePicture(live, rows, a, b);
    PictureOutside(rows, a, b, -1, "", -1, html);
    if Details(live) == 0 {
      FoundRow(rows, a, b, -1, html, source, k);
      InsertedAt(rows, a, b, source, html, k);
      if shown != source {
        PictureTells(rows, a, b, source, html, shown, html);
      }
    } else {
      InsertedCounts(live, k, html);
      PictureDetails(rows, a, b, shown, html);
    }
  }
}
