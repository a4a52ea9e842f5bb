/** Following the cursor from page to page. */
module Paging {
  import opened Records
  import opened Timeline
  import opened CollapseSpec
  import Collapse

  // ---------- the walk over the selected rows ----------

  ghost predicate After1970(rows: seq<Row>) {
    forall i :: 0 <= i < |rows| ==> rows[i].Ts() > 0
  }

  function Later(rows: seq<Row>, t: int): seq<Row> {
    Where(rows, (r: Row) => r.Ts() > t)
  }

  lemma {:induction false} WhereShorter(rows: seq<Row>, p: Choice)
    ensures |Where(rows, p)| <= |rows|
  {
    if rows != [] {
      WhereShorter(rows[..|rows| - 1], p);
    }
  }

  /** After a full page only rows later than its last row are left, so the walk gets shorter. */
  lemma LaterSplit(m: seq<Row>, n: nat)
    requires Sorted(m) && 1 <= n <= |m|
    ensures Later(m, m[n - 1].Ts()) == Later(m[n..], m[n - 1].Ts())
    ensures |Later(m, m[n - 1].Ts())| <= |m| - n
  {
    var t := m[n - 1].Ts();
    assert m == m[..n] + m[n..];
    WhereConcat(m[..n], m[n..], (r: Row) => r.Ts() > t);
    WhereNone(m[..n], (r: Row) => r.Ts() > t);
    WhereShorter(m[n..], (r: Row) => r.Ts() > t);
  }

  /** The rows of all pages in a row, when pages hold n rows. */
  ghost function Walk(m: seq<Row>, n: nat): seq<Row>
    requires n >= 1 && Sorted(m)
    decreases |m|
  {
    if |m| < n then m
    else
      LaterSplit(m, n);
      WhereSorted(m, (r: Row) => r.Ts() > m[n - 1].Ts());
      m[..n] + Walk(Later(m, m[n - 1].Ts()), n)
  }

  /** No two rows at the same time fall on either side of a page boundary. */
  ghost predicate NoTieAtBoundary(m: seq<Row>, n: nat)
    requires n >= 1
    decreases |m|
  {
    |m| <= n || (m[n - 1].Ts() < m[n].Ts() && NoTieAtBoundary(m[n..], n))
  }

  lemma LaterNoTie(m: seq<Row>, n: nat)
    requires Sorted(m) && 1 <= n < |m| && m[n - 1].Ts() < m[n].Ts()
    ensures Later(m, m[n - 1].Ts()) == m[n..]
  {
    LaterSplit(m, n);
    assert forall i :: 0 <= i < |m| - n ==> m[n..][i] == m[n + i] && m[n].Ts() <= m[n + i].Ts();
    WhereAll(m[n..], (r: Row) => r.Ts() > m[n - 1].Ts());
  }

  lemma LaterTie(m: seq<Row>, n: nat)
    requires Sorted(m) && 1 <= n < |m| && m[n - 1].Ts() >= m[n].Ts()
    ensures |Later(m, m[n - 1].Ts())| < |m| - n
  {
    var t := m[n - 1].Ts();
    LaterSplit(m, n);
    assert m[n..] == [m[n]] + m[n + 1..];
    WhereConcat([m[n]], m[n + 1..], (r: Row) => r.Ts() > t);
    WhereNone([m[n]], (r: Row) => r.Ts() > t);
    WhereShorter(m[n + 1..], (r: Row) => r.Ts() > t);
  }

  lemma {:induction false} WalkLength(m: seq<Row>, n: nat)
    requires n >= 1 && Sorted(m)
    ensures |Walk(m, n)| <= |m|
    decreases |m|
  {
    if |m| >= n {
      LaterSplit(m, n);
      WhereSorted(m, (r: Row) => r.Ts() > m[n - 1].Ts());
      WalkLength(Later(m, m[n - 1].Ts()), n);
    }
  }

  /** The pages together are the whole result exactly when no tie straddles a page boundary. */
  lemma {:induction false} WalkComplete(m: seq<Row>, n: nat)
    requires n >= 1 && Sorted(m)
    ensures Walk(m, n) == m <==> NoTieAtBoundary(m, n)
    ensures |Walk(m, n)| == |m| <==> NoTieAtBoundary(m, n)
    decreases |m|
  {
    if |m| < n {
    } else if |m| == n {
      LaterSplit(m, n);
      assert Later(m, m[n - 1].Ts()) == [];
      assert m[..n] + [] == m;
    } else if m[n - 1].Ts() < m[n].Ts() {
      LaterNoTie(m, n);
      WalkComplete(m[n..], n);
      assert m == m[..n] + m[n..];
      if Walk(m, n) == m {
        assert Walk(m[n..], n) == Walk(m, n)[n..] == m[n..];
      }
    } else {
      LaterTie(m, n);
      WhereSorted(m, (r: Row) => r.Ts() > m[n - 1].Ts());
      WalkLength(Later(m, m[n - 1].Ts()), n);
    }
  }

  /** Rows at pairwise different times never tie. */
  lemma {:induction false} StrictNoTie(m: seq<Row>, n: nat)
    requires n >= 1 && StrictlySorted(m)
    ensures NoTieAtBoundary(m, n)
    decreases |m|
  {
    if |m| > n {
      StrictNoTie(m[n..], n);
    }
  }

  // ---------- nothing twice, nothing out of order ----------

  /** Row i of a is row at[i] of b, and the places go up. */
  ghost predicate Embeds(a: seq<Row>, b: seq<Row>, at: seq<int>) {
    && |at| == |a|
    && (forall i :: 0 <= i < |a| ==> 0 <= at[i] < |b| && a[i] == b[at[i]])
    && (forall i, j :: 0 <= i < j < |a| ==> at[i] < at[j])
  }

  lemma {:induction false} WherePlaces(rows: seq<Row>, p: Choice) returns (at: seq<int>)
    ensures Embeds(Where(rows, p), rows, at)
  {
    at := [];
    if rows != [] {
      var init, last := rows[..|rows| - 1], rows[|rows| - 1];
      at := WherePlaces(init, p);
      EmbedsPush(Where(init, p), init, at, last);
      if p(last) {
        at := at + [|init|];
      }
      assert rows == init + [last];
    }
  }

  lemma EmbedsPush(a: seq<Row>, b: seq<Row>, at: seq<int>, r: Row)
    requires Embeds(a, b, at)
    ensures Embeds(a + [], b + [r], at) && Embeds(a + [r], b + [r], at + [|b|])
  {
  }

  lemma EmbedsThrough(a: seq<Row>, b: seq<Row>, c: seq<Row>, at: seq<int>, bt: seq<int>) returns (places: seq<int>)
    requires Embeds(a, b, at) && Embeds(b, c, bt)
    ensures Embeds(a, c, places)
  {
    places := seq(|a|, i requires 0 <= i < |a| => bt[at[i]]);
  }

  /** Places in the part after the first n rows, with those n rows in front. */
  lemma EmbedsBehind(a: seq<Row>, m: seq<Row>, n: nat, at: seq<int>) returns (places: seq<int>)
    requires n <= |m| && Embeds(a, m[n..], at)
    ensures Embeds(m[..n] + a, m, places)
  {
    places := seq(n, i => i) + seq(|a|, i requires 0 <= i < |a| => n + at[i]);
    var all := m[..n] + a;
    forall i | 0 <= i < |all|
      ensures 0 <= places[i] < |m| && all[i] == m[places[i]]
    {
      if i >= n {
        assert all[i] == a[i - n] && m[n..][at[i - n]] == m[n + at[i - n]];
      }
    }
  }

  lemma {:induction false} WalkPlaces(m: seq<Row>, n: nat) returns (at: seq<int>)
    requires n >= 1 && Sorted(m)
    ensures Embeds(Walk(m, n), m, at)
    decreases |m|
  {
    if |m| < n {
      at := seq(|m|, i => i);
    } else {
      hide Where;
      var t := m[n - 1].Ts();
      LaterSplit(m, n);
      WhereSorted(m, (r: Row) => r.Ts() > t);
      var inRest := WalkPlaces(Later(m, t), n);
      var inTail := WherePlaces(m[n..], (r: Row) => r.Ts() > t);
      var places := EmbedsThrough(Walk(Later(m, t), n), Later(m, t), m[n..], inRest, inTail);
      at := EmbedsBehind(Walk(Later(m, t), n), m, n, places);
    }
  }

  // ---------- the pages themselves ----------

  /** The walk gets past its first page: the page is not full, or it ends on a time that counts as a cursor. */
  ghost predicate Moves(m: seq<Row>, n: nat)
    requires n >= 1
  {
    |m| < n || m[n - 1].Ts() > 0
  }

  /** The pages a client gets that starts at `cursor` and follows the cursor while there is more. */
  ghost function Pages(rows: seq<Row>, f: Filters, cursor: int): seq<Page>
    requires Sorted(rows) && Moves(After(Matching(rows, f), cursor), PageLimit(f.limit))
    decreases |After(Matching(rows, f), cursor)|
  {
    var left := After(Matching(rows, f), cursor);
    var page := Cut(left, PageLimit(f.limit));
    if !page.hasMore then [page]
    else
      NextPage(rows, f, cursor);
      [page] + Pages(rows, f, page.next)
  }

  lemma AfterSorted(rows: seq<Row>, f: Filters, cursor: int)
    requires Sorted(rows)
    ensures Sorted(After(Matching(rows, f), cursor))
  {
    WhereSorted(rows, r => InWindow(f, r) && Wanted(f, r));
    WhereSorted(Matching(rows, f), (r: Row) => r.Ts() > cursor);
  }

  /** What the next request sees is what is left, later than the page; it is less, and can be walked on. */
  lemma NextPage(rows: seq<Row>, f: Filters, cursor: int)
    requires Sorted(rows) && Moves(After(Matching(rows, f), cursor), PageLimit(f.limit))
    requires Cut(After(Matching(rows, f), cursor), PageLimit(f.limit)).hasMore
    ensures var left := After(Matching(rows, f), cursor); var n := PageLimit(f.limit);
            var next := Cut(left, n).next;
            && next == left[n - 1].Ts() > 0
            && After(Matching(rows, f), next) == Later(left, next)
            && |After(Matching(rows, f), next)| < |left|
            && Moves(After(Matching(rows, f), next), n)
  {
    hide Matching;
    var all := Matching(rows, f);
    var left, n := After(all, cursor), PageLimit(f.limit);
    var next := left[n - 1].Ts();
    AfterSorted(rows, f, cursor);
    LaterSplit(left, n);
    if cursor > 0 {
      WhereMembers(all, (r: Row) => r.Ts() > cursor);
      assert next > cursor;
      WhereBoth(all, (r: Row) => r.Ts() > cursor, (r: Row) => r.Ts() > next, (r: Row) => r.Ts() > next);
    }
    WhereMembers(all, (r: Row) => r.Ts() > next);
  }

  function Rows(pages: seq<Page>): seq<Row> {
    if pages == [] then [] else pages[0].rows + Rows(pages[1..])
  }

  lemma {:induction false} PagesAreWalk(rows: seq<Row>, f: Filters, cursor: int)
    requires Sorted(rows) && Moves(After(Matching(rows, f), cursor), PageLimit(f.limit))
    ensures Sorted(After(Matching(rows, f), cursor))
    ensures Rows(Pages(rows, f, cursor)) == Walk(After(Matching(rows, f), cursor), PageLimit(f.limit))
    decreases |After(Matching(rows, f), cursor)|
  {
    AfterSorted(rows, f, cursor);
    hide Matching, Where;
    var left, n := After(Matching(rows, f), cursor), PageLimit(f.limit);
    var page := Cut(left, n);
    if page.hasMore {
      NextPage(rows, f, cursor);
      PagesAreWalk(rows, f, page.next);
      assert Pages(rows, f, cursor) == [page] + Pages(rows, f, page.next);
      assert Pages(rows, f, cursor)[1..] == Pages(rows, f, page.next);
    } else {
      assert [page][1..] == [];
      assert Rows([page]) == page.rows + [];
    }
  }

  /** The pages are what successive requests return: each asks with the cursor of the one before, and all
      but the last say there is more. */
  lemma {:induction false} PagesFollowCursor(rows: seq<Row>, f: Filters, cursor: int)
    requires Sorted(rows) && Moves(After(Matching(rows, f), cursor), PageLimit(f.limit))
    ensures var pages := Pages(rows, f, cursor);
            && pages != [] && pages[0] == PageOf(rows, f.(cursor := cursor))
            && (forall i :: 0 < i < |pages| ==> pages[i] == PageOf(rows, f.(cursor := pages[i - 1].next)))
            && (forall i :: 0 <= i < |pages| ==> (pages[i].hasMore <==> i < |pages| - 1))
    decreases |After(Matching(rows, f), cursor)|
  {
    SameMatching(rows, f, cursor);
    hide Matching, Where;
    var page := Cut(After(Matching(rows, f), cursor), PageLimit(f.limit));
    if page.hasMore {
      NextPage(rows, f, cursor);
      var rest := Pages(rows, f, page.next);
      PagesFollowCursor(rows, f, page.next);
      var pages := [page] + rest;
      assert Pages(rows, f, cursor) == pages;
      forall i | 0 < i < |pages|
        ensures pages[i] == PageOf(rows, f.(cursor := pages[i - 1].next))
      {
        assert pages[i] == rest[i - 1];
      }
    }
  }

  // ---------- main results ----------

  /** Following the cursor to the end gives the whole result, row for row, exactly when no tie straddles a
      page boundary. */
  lemma PagesComplete(rows: seq<Row>, f: Filters)
    requires Sorted(rows) && Moves(Matching(rows, f), PageLimit(f.limit))
    ensures Rows(Pages(rows, f, 0)) == Matching(rows, f) <==> NoTieAtBoundary(Matching(rows, f), PageLimit(f.limit))
  {
    PagesAreWalk(rows, f, 0);
    AfterSorted(rows, f, 0);
    WalkComplete(Matching(rows, f), PageLimit(f.limit));
  }

  /** With ties, what comes is still in order and has nothing twice. */
  lemma PagesNoDuplicates(rows: seq<Row>, f: Filters) returns (at: seq<int>)
    requires Sorted(rows) && Moves(Matching(rows, f), PageLimit(f.limit))
    ensures Embeds(Rows(Pages(rows, f, 0)), Matching(rows, f), at)
  {
    PagesAreWalk(rows, f, 0);
    AfterSorted(rows, f, 0);
    at := WalkPlaces(Matching(rows, f), PageLimit(f.limit));
  }

  /** A walk that does not move gets the same page again for ever: its first page is full and ends at or
      before the epoch, and such a cursor means "from the start". */
  lemma StuckForEver(rows: seq<Row>, f: Filters)
    requires Sorted(rows) && !Moves(Matching(rows, f), PageLimit(f.limit))
    ensures var page := PageOf(rows, f.(cursor := 0));
            page.hasMore && PageOf(rows, f.(cursor := page.next)) == page
  {
    var g := f.(cursor := 0);
    SameMatching(rows, f, 0);
    SameMatching(rows, f, PageOf(rows, g).next);
  }

  lemma SameMatching(rows: seq<Row>, f: Filters, cursor: int)
    ensures Matching(rows, f.(cursor := cursor)) == Matching(rows, f)
  {
    var g := f.(cursor := cursor);
    WhereSame(rows, r => InWindow(g, r) && Wanted(g, r), r => InWindow(f, r) && Wanted(f, r));
  }

  /** Distinct times after 1970 are enough. */
  lemma DistinctTimesComplete(rows: seq<Row>, f: Filters)
    requires StrictlySorted(rows) && After1970(rows)
    ensures Sorted(rows) && Moves(Matching(rows, f), PageLimit(f.limit))
    ensures Rows(Pages(rows, f, 0)) == Matching(rows, f)
  {
    WhereStrict(rows, r => InWindow(f, r) && Wanted(f, r));
    WhereMembers(rows, r => InWindow(f, r) && Wanted(f, r));
    StrictNoTie(Matching(rows, f), PageLimit(f.limit));
    PagesComplete(rows, f);
  }

  lemma {:induction false} WhereStrict(rows: seq<Row>, p: Choice)
    requires StrictlySorted(rows)
    ensures StrictlySorted(Where(rows, p))
  {
    if rows != [] {
      var init, last := rows[..|rows| - 1], rows[|rows| - 1];
      WhereStrict(init, p);
      WhereMembers(init, p);
      forall i | 0 <= i < |Where(init, p)|
        ensures Where(init, p)[i].Ts() < last.Ts()
      {
        var j :| 0 <= j < |init| && init[j] == Where(init, p)[i];
        assert rows[j].Ts() < rows[|rows| - 1].Ts();
      }
    }
  }

  // ---------- garbage and bursts ----------

  function Kept(pages: seq<Page>): seq<Row> {
    if pages == [] then [] else Keep(pages[0].rows) + Kept(pages[1..])
  }

  /** Dropping garbage page by page is dropping it from the whole. */
  lemma {:induction false} KeptByPage(pages: seq<Page>)
    ensures Kept(pages) == Keep(Rows(pages))
  {
    if pages != [] {
      KeptByPage(pages[1..]);
      WhereConcat(pages[0].rows, Rows(pages[1..]), r => !IsGarbage(r));
    }
  }

  ghost predicate AllGarbageUpTo(x: seq<Row>, t: int) {
    forall i :: 0 <= i < |x| && x[i].Ts() <= t ==> IsGarbage(x[i])
  }

  /** Whatever a page boundary skips is garbage: rows at the time of a page's last row that come after it. */
  ghost predicate SkipsGarbage(m: seq<Row>, n: nat)
    requires n >= 1 && Sorted(m)
    decreases |m|
  {
    if |m| < n then true
    else
      LaterSplit(m, n);
      WhereSorted(m, (r: Row) => r.Ts() > m[n - 1].Ts());
      AllGarbageUpTo(m[n..], m[n - 1].Ts()) && SkipsGarbage(Later(m, m[n - 1].Ts()), n)
  }

  lemma {:induction false} SplitByTime(x: seq<Row>, t: int)
    requires Sorted(x)
    ensures x == Where(x, (r: Row) => r.Ts() <= t) + Later(x, t)
  {
    if x != [] {
      var init := x[..|x| - 1];
      SplitByTime(init, t);
      if x[|x| - 1].Ts() <= t {
        WhereNone(init, (r: Row) => r.Ts() > t);
      }
    }
  }

  lemma {:induction false} KeepNothing(rows: seq<Row>)
    ensures Keep(rows) == [] <==> forall i :: 0 <= i < |rows| ==> IsGarbage(rows[i])
  {
    if rows != [] {
      var init := rows[..|rows| - 1];
      KeepNothing(init);
      assert forall i :: 0 <= i < |init| ==> rows[i] == init[i];
    }
  }

  lemma TiedGarbage(x: seq<Row>, t: int)
    ensures Keep(Where(x, (r: Row) => r.Ts() <= t)) == [] <==> AllGarbageUpTo(x, t)
  {
    var p := (r: Row) => r.Ts() <= t;
    var tied := Where(x, p);
    KeepNothing(tied);
    WhereMembers(x, p);
    WhereFinds(x, p);
    hide Where, IsGarbage, Keep;
    if AllGarbageUpTo(x, t) {
      forall i | 0 <= i < |tied|
        ensures IsGarbage(tied[i])
      {
        assert p(tied[i]) && tied[i] in x;
      }
    }
  }

  /** What is kept of all rows: of the first n, of those that are skipped, and of the later ones. */
  lemma KeepParts(m: seq<Row>, n: nat)
    requires Sorted(m) && 1 <= n <= |m|
    ensures var t := m[n - 1].Ts();
            Keep(m) == Keep(m[..n]) + (Keep(Where(m[n..], (r: Row) => r.Ts() <= t)) + Keep(Later(m, t)))
  {
    var t := m[n - 1].Ts();
    hide Where, IsGarbage;
    LaterSplit(m, n);
    SplitByTime(m[n..], t);
    assert m == m[..n] + m[n..];
    WhereConcat(m[..n], m[n..], r => !IsGarbage(r));
    WhereConcat(Where(m[n..], (r: Row) => r.Ts() <= t), Later(m, t), r => !IsGarbage(r));
  }

  lemma {:induction false} WhereFinds(rows: seq<Row>, p: Choice)
    ensures forall i :: 0 <= i < |rows| && p(rows[i]) ==> rows[i] in Where(rows, p)
  {
    if rows != [] {
      var init := rows[..|rows| - 1];
      WhereFinds(init, p);
      assert forall i :: 0 <= i < |init| ==> rows[i] == init[i];
    }
  }

  /** The walk keeps all that is to be kept exactly when it skips only garbage. */
  lemma {:induction false} WalkKept(m: seq<Row>, n: nat)
    requires n >= 1 && Sorted(m)
    ensures |Keep(Walk(m, n))| <= |Keep(m)|
    ensures Keep(Walk(m, n)) == Keep(m) <==> SkipsGarbage(m, n)
    ensures |Keep(Walk(m, n))| == |Keep(m)| <==> SkipsGarbage(m, n)
    decreases |m|
  {
    if |m| >= n {
      var t := m[n - 1].Ts();
      LaterSplit(m, n);
      WhereSorted(m, (r: Row) => r.Ts() > t);
      WalkKept(Later(m, t), n);
      KeepParts(m, n);
      TiedGarbage(m[n..], t);
      WhereConcat(m[..n], Walk(Later(m, t), n), r => !IsGarbage(r));
      hide Where, IsGarbage, AllGarbageUpTo;
      Cancel(Keep(m[..n]), Keep(Walk(Later(m, t), n)), Keep(Where(m[n..], (r: Row) => r.Ts() <= t)), Keep(Later(m, t)));
    }
  }

  lemma Cancel(a: seq<Row>, x: seq<Row>, y: seq<Row>, z: seq<Row>)
    requires |x| <= |z|
    ensures |a + x| == |a + (y + z)| <==> y == [] && |x| == |z|
    ensures a + x == a + (y + z) <==> y == [] && x == z
    ensures |a + x| <= |a + (y + z)|
  {
    if a + x == a + (y + z) {
      assert x == (a + x)[|a|..] == y + z;
    }
  }

  /** With garbage dropped, the pages are the whole result exactly when all they skip is garbage. */
  lemma PagesCompleteKept(rows: seq<Row>, f: Filters)
    requires Sorted(rows) && Moves(Matching(rows, f), PageLimit(f.limit))
    ensures Sorted(Matching(rows, f))
    ensures Kept(Pages(rows, f, 0)) == Keep(Matching(rows, f)) <==> SkipsGarbage(Matching(rows, f), PageLimit(f.limit))
    ensures |Kept(Pages(rows, f, 0))| == |Keep(Matching(rows, f))| <==>
            SkipsGarbage(Matching(rows, f), PageLimit(f.limit))
  {
    PagesAreWalk(rows, f, 0);
    AfterSorted(rows, f, 0);
    WalkKept(Matching(rows, f), PageLimit(f.limit));
    KeptByPage(Pages(rows, f, 0));
  }

  /** The rows shown for each page, folded or not, stand for as many records as the page selected. */
  function TotalShown(outs: seq<seq<Row>>): int {
    if outs == [] then 0 else TotalSeq(outs[0]) + TotalShown(outs[1..])
  }

  lemma {:induction false} UnfoldedTotal(rows: seq<Row>)
    requires Unfolded(rows)
    ensures TotalSeq(rows) == |rows|
  {
    if rows != [] {
      UnfoldedTotal(rows[..|rows| - 1]);
    }
  }

  lemma PresentedTotal(out: seq<Row>, selected: seq<Row>, f: Filters, dir: string -> string)
    requires Presents(out, selected, f, dir) && Unfolded(selected)
    ensures TotalSeq(out) == if f.dropGarbage then |Keep(selected)| else |selected|
  {
    var kept := if f.dropGarbage then Keep(selected) else selected;
    WhereMembers(selected, r => !IsGarbage(r));
    assert Unfolded(kept);
    if f.collapse {
      Collapse.BurstCountsAddUp(kept, out, Collapse.KeyOf(dir));
    } else {
      UnfoldedTotal(kept);
    }
  }

  lemma {:induction false} PagesTotal(outs: seq<seq<Row>>, pages: seq<Page>, f: Filters, dir: string -> string)
    requires |outs| == |pages|
    requires forall i :: 0 <= i < |pages| ==> Presents(outs[i], pages[i].rows, f, dir) && Unfolded(pages[i].rows)
    ensures TotalShown(outs) == if f.dropGarbage then |Kept(pages)| else |Rows(pages)|
  {
    if pages != [] {
      PresentedTotal(outs[0], pages[0].rows, f, dir);
      assert forall i :: 0 <= i < |pages| - 1 ==> outs[1..][i] == outs[i + 1] && pages[1..][i] == pages[i + 1];
      PagesTotal(outs[1..], pages[1..], f, dir);
    }
  }

  lemma {:induction false} RowsOfPages(pages: seq<Page>, i: nat)
    requires i < |pages|
    ensures forall r :: r in pages[i].rows ==> r in Rows(pages)
  {
    if i > 0 {
      RowsOfPages(pages[1..], i - 1);
    }
  }

  lemma PagesUnfolded(rows: seq<Row>, f: Filters, i: nat)
    requires Sorted(rows) && Unfolded(rows) && Moves(Matching(rows, f), PageLimit(f.limit))
    requires i < |Pages(rows, f, 0)|
    ensures Unfolded(Pages(rows, f, 0)[i].rows)
  {
    hide Pages, Walk, Rows, Where;
    var pages := Pages(rows, f, 0);
    var m := Matching(rows, f);
    PagesAreWalk(rows, f, 0);
    AfterSorted(rows, f, 0);
    var at := WalkPlaces(m, PageLimit(f.limit));
    WhereMembers(rows, r => InWindow(f, r) && Wanted(f, r));
    RowsOfPages(pages, i);
    forall j | 0 <= j < |pages[i].rows|
      ensures pages[i].rows[j].burst.None?
    {
      assert pages[i].rows[j] in Rows(pages);
      var k :| 0 <= k < |Rows(pages)| && Rows(pages)[k] == pages[i].rows[j];
      assert m[at[k]] == pages[i].rows[j];
    }
  }

  /** Bursts that straddle pages are split, but over all pages the burst counts add up to the number of rows the pages
      hold; and that is the number of rows the query selects exactly when the pages skip none of them. */
  lemma BurstsAddUpOverPages(rows: seq<Row>, f: Filters, outs: seq<seq<Row>>, dir: string -> string)
    requires Sorted(rows) && Unfolded(rows) && Moves(Matching(rows, f), PageLimit(f.limit))
    requires var pages := Pages(rows, f, 0);
             |outs| == |pages| && forall i :: 0 <= i < |pages| ==> Presents(outs[i], pages[i].rows, f, dir)
    ensures var pages := Pages(rows, f, 0);
            TotalShown(outs) == if f.dropGarbage then |Kept(pages)| else |Rows(pages)|
    ensures Sorted(Matching(rows, f))
    ensures var m := Matching(rows, f); var n := PageLimit(f.limit);
            TotalShown(outs) == (if f.dropGarbage then |Keep(m)| else |m|) <==>
            if f.dropGarbage then SkipsGarbage(m, n) else NoTieAtBoundary(m, n)
  {
    hide Presents, Pages, Walk, Where, Keep, SkipsGarbage, NoTieAtBoundary;
    var pages := Pages(rows, f, 0);
    forall i | 0 <= i < |pages|
      ensures Unfolded(pages[i].rows)
    {
      PagesUnfolded(rows, f, i);
    }
    PagesTotal(outs, pages, f, dir);
    PagesCompleteKept(rows, f);
    PagesAreWalk(rows, f, 0);
    WalkComplete(Matching(rows, f), PageLimit(f.limit));
  }

  // ---------- rows that get lost, and a page that comes for ever ----------

  /** Everything, one row a page. */
  const ONE_BY_ONE: Filters := Filters(None, None, true, true, _ => true, 0, 1, false, false)

  function AlertAt(id: int, ts: int): Row {
    BareAlert(id, ts, "rule", 7, 1)
  }

  lemma AllMatch(rows: seq<Row>)
    ensures Matching(rows, ONE_BY_ONE) == rows
  {
    WhereAll(rows, r => InWindow(ONE_BY_ONE, r) && Wanted(ONE_BY_ONE, r));
  }

  /** Two alerts at one time: the pages show the first and lose the second. */
  lemma TieExample()
    ensures var rows := [AlertAt(1, 5), AlertAt(2, 5)];
            && Sorted(rows) && Matching(rows, ONE_BY_ONE) == rows && Moves(rows, PageLimit(ONE_BY_ONE.limit))
            && Rows(Pages(rows, ONE_BY_ONE, 0)) == [AlertAt(1, 5)]
  {
    var rows := [AlertAt(1, 5), AlertAt(2, 5)];
    AllMatch(rows);
    PagesAreWalk(rows, ONE_BY_ONE, 0);
    WhereNone(rows, (r: Row) => r.Ts() > rows[0].Ts());
    hide Pages, Where;
    assert Later(rows, rows[0].Ts()) == [];
    assert Walk(rows, 1) == rows[..1] + Walk([], 1);
  }

  /** One alert at the epoch: the page is full, and the next page is the same page. */
  lemma StuckExample()
    ensures var rows := [AlertAt(1, 0)];
            var page := PageOf(rows, ONE_BY_ONE);
            page.rows == rows && page.hasMore && PageOf(rows, ONE_BY_ONE.(cursor := page.next)) == page
  {
    AllMatch([AlertAt(1, 0)]);
    hide Where;
  }
}
