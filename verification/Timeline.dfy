/** Timeline queries over the shared snapshot: time windows, filters, one page, the whole result. */
module Timeline {
  import opened Records
  import opened CollapseSpec
  import opened CollapseOrder
  import Collapse

  const DEFAULT_LIMIT := 500
  const MAX_LIMIT := 5000

  /** A query. `matches` stands for the per-row filters; times are bounds of an inclusive window. */
  datatype Filters = Filters(
    from: Option<int>, to: Option<int>,
    includeAlerts: bool, includeEvents: bool,
    matches: Row -> bool,
    cursor: int, limit: int,
    collapse: bool, dropGarbage: bool)

  // ---------- selecting rows ----------

  type Choice = Row -> bool

  function Where(rows: seq<Row>, p: Choice): seq<Row> {
    if rows == [] then []
    else
      var last := rows[|rows| - 1];
      Where(rows[..|rows| - 1], p) + (if p(last) then [last] else [])
  }

  lemma WherePush(rows: seq<Row>, r: Row, p: Choice)
    ensures Where(rows + [r], p) == if p(r) then Where(rows, p) + [r] else Where(rows, p)
  {
    assert (rows + [r])[..|rows|] == rows;
  }

  lemma {:induction false} WhereConcat(a: seq<Row>, b: seq<Row>, p: Choice)
    ensures Where(a + b, p) == Where(a, p) + Where(b, p)
  {
    if b == [] {
      assert a + b == a;
    } else {
      var init, last := b[..|b| - 1], b[|b| - 1];
      assert a + b == a + init + [last] && b == init + [last];
      WhereConcat(a, init, p);
      WherePush(a + init, last, p);
      WherePush(init, last, p);
    }
  }

  /** Choosing twice is choosing once by both. */
  lemma {:induction false} WhereBoth(rows: seq<Row>, p: Choice, q: Choice, both: Choice)
    requires forall r :: r in rows ==> (both(r) <==> p(r) && q(r))
    ensures Where(Where(rows, p), q) == Where(rows, both)
  {
    if rows != [] {
      var init, last := rows[..|rows| - 1], rows[|rows| - 1];
      assert rows == init + [last] && last in rows;
      WhereBoth(init, p, q, both);
      WherePush(init, last, p);
      WherePush(init, last, both);
      WherePush(Where(init, p), last, q);
    }
  }

  lemma {:induction false} WhereNone(rows: seq<Row>, p: Choice)
    requires forall i :: 0 <= i < |rows| ==> !p(rows[i])
    ensures Where(rows, p) == []
  {
    if rows != [] {
      WhereNone(rows[..|rows| - 1], p);
    }
  }

  lemma {:induction false} WhereAll(rows: seq<Row>, p: Choice)
    requires forall i :: 0 <= i < |rows| ==> p(rows[i])
    ensures Where(rows, p) == rows
  {
    if rows != [] {
      WhereAll(rows[..|rows| - 1], p);
    }
  }

  lemma {:induction false} WhereSame(rows: seq<Row>, p: Choice, q: Choice)
    requires forall i :: 0 <= i < |rows| ==> (p(rows[i]) <==> q(rows[i]))
    ensures Where(rows, p) == Where(rows, q)
  {
    if rows != [] {
      WhereSame(rows[..|rows| - 1], p, q);
    }
  }

  lemma {:induction false} WhereMembers(rows: seq<Row>, p: Choice)
    ensures forall i :: 0 <= i < |Where(rows, p)| ==> p(Where(rows, p)[i]) && Where(rows, p)[i] in rows
  {
    if rows != [] {
      WhereMembers(rows[..|rows| - 1], p);
    }
  }

  lemma {:induction false} WhereSorted(rows: seq<Row>, p: Choice)
    requires Sorted(rows)
    ensures Sorted(Where(rows, p))
  {
    if rows != [] {
      var init, last := rows[..|rows| - 1], rows[|rows| - 1];
      WhereSorted(init, p);
      WhereMembers(init, p);
      forall i | 0 <= i < |Where(init, p)|
        ensures Where(init, p)[i].Ts() <= last.Ts()
      {
        var j :| 0 <= j < |init| && init[j] == Where(init, p)[i];
        assert rows[j].Ts() <= rows[|rows| - 1].Ts();
      }
    }
  }

  // ---------- what a query selects ----------

  predicate InWindow(f: Filters, r: Row) {
    (f.from.Some? ==> f.from.value <= r.Ts()) && (f.to.Some? ==> r.Ts() <= f.to.value)
  }

  /** If neither kind is asked for, both are. */
  predicate Wanted(f: Filters, r: Row) {
    var both := !f.includeAlerts && !f.includeEvents;
    (r.AlertRow? ==> both || f.includeAlerts) && (r.EventRow? ==> both || f.includeEvents) && f.matches(r)
  }

  function Matching(rows: seq<Row>, f: Filters): seq<Row> {
    Where(rows, r => InWindow(f, r) && Wanted(f, r))
  }

  function After(rows: seq<Row>, cursor: int): seq<Row> {
    if cursor > 0 then Where(rows, (r: Row) => r.Ts() > cursor) else rows
  }

  /** A limit in range is kept; none means the default. */
  function PageLimit(limit: int): (n: nat)
    ensures 1 <= n <= MAX_LIMIT
    ensures 1 <= limit <= MAX_LIMIT ==> n == limit
    ensures limit <= 0 ==> n == DEFAULT_LIMIT
  {
    if limit <= 0 then DEFAULT_LIMIT else if limit > MAX_LIMIT then MAX_LIMIT else limit
  }

  /** A page before garbage is dropped and bursts are folded. */
  datatype Page = Page(rows: seq<Row>, next: int, hasMore: bool)

  function Cut(left: seq<Row>, n: nat): Page
    requires n >= 1
  {
    var rows := if |left| >= n then left[..n] else left;
    Page(rows, if rows == [] then 0 else rows[|rows| - 1].Ts(), |left| >= n)
  }

  function PageOf(rows: seq<Row>, f: Filters): Page {
    Cut(After(Matching(rows, f), f.cursor), PageLimit(f.limit))
  }

  // ---------- sensor noise ----------

  /** isGarbage. Alerts never are. */
  predicate IsGarbage(r: Row) {
    r.EventRow? &&
    var e := r.event;
    || (e.category == "Dns"
        && (FieldOf(e, "QueryName") == "" || FieldOf(e, "QueryName") == "." || FieldOf(e, "RecordType") == "OTHER"))
    || (FieldOf(e, "Image") == "" && FieldOf(e, "ProcessId") == "" && FieldOf(e, "CommandLine") == ""
        && FieldOf(e, "TargetFilename") == "" && FieldOf(e, "QueryName") == "" && FieldOf(e, "SourceIp") == ""
        && FieldOf(e, "DestinationIp") == "")
  }

  function Keep(rows: seq<Row>): seq<Row> {
    Where(rows, r => !IsGarbage(r))
  }

  /** DropGarbage compacts the first n rows in place: it writes into the array it is still reading. Rows that
      survive move down; nothing from their new end on is touched. */
  method DropGarbage(a: array<Row>, n: nat) returns (m: nat)
    requires n <= a.Length
    modifies a
    ensures m <= n && a[..m] == Keep(old(a[..n]))
    ensures a[m..] == old(a[m..])
  {
    m := 0;
    for i := 0 to n
      invariant m <= i && a[..m] == Keep(old(a[..i]))
      invariant a[m..] == old(a[m..])
    {
      var r := a[i];
      assert r == a[m..][i - m] == old(a[m..])[i - m];
      assert old(a[..i + 1]) == old(a[..i]) + [r];
      WherePush(old(a[..i]), r, x => !IsGarbage(x));
      if !IsGarbage(r) {
        ghost var tail := a[m..];
        a[m] := r;
        m := m + 1;
        assert a[..m] == a[..m - 1] + [r];
        assert a[m..] == tail[1..];
      }
    }
  }

  // ---------- time windows ----------

  /** sort.Search for the first row at or after a time, or strictly after it. */
  method SearchTime(a: array<Row>, lo: nat, hi: nat, t: int, strict: bool) returns (k: nat)
    requires lo <= hi <= a.Length && Sorted(a[..])
    ensures lo <= k <= hi
    ensures forall i :: lo <= i < k ==> if strict then a[i].Ts() <= t else a[i].Ts() < t
    ensures forall i :: k <= i < hi ==> if strict then a[i].Ts() > t else a[i].Ts() >= t
  {
    k := lo;
    var j := hi;
    while k < j
      invariant lo <= k <= j <= hi
      invariant forall i :: lo <= i < k ==> if strict then a[i].Ts() <= t else a[i].Ts() < t
      invariant forall i :: j <= i < hi ==> if strict then a[i].Ts() > t else a[i].Ts() >= t
    {
      var h := (k + j) / 2;
      assert forall i :: lo <= i < hi ==> a[i] == a[..][i];
      if (if strict then a[h].Ts() > t else a[h].Ts() >= t) {
        j := h;
      } else {
        k := h + 1;
      }
    }
  }

  /** rowsBetween: two binary searches find exactly the rows inside the window. */
  method RowsBetween(a: array<Row>, from: Option<int>, to: Option<int>) returns (lo: nat, hi: nat)
    requires Sorted(a[..])
    ensures lo <= hi <= a.Length
    ensures forall i :: 0 <= i < a.Length ==>
      (lo <= i < hi <==> (from.Some? ==> from.value <= a[i].Ts()) && (to.Some? ==> a[i].Ts() <= to.value))
  {
    lo, hi := 0, a.Length;
    if from.Some? {
      lo := SearchTime(a, 0, a.Length, from.value, false);
    }
    if to.Some? {
      hi := SearchTime(a, 0, a.Length, to.value, true);
    }
    if lo > hi {
      lo := hi;
    }
  }

  // ---------- one page ----------

  /** What a query returns for the rows it selected. */
  ghost predicate Presents(out: seq<Row>, selected: seq<Row>, f: Filters, dir: string -> string) {
    var kept := if f.dropGarbage then Keep(selected) else selected;
    if f.collapse then
      && Collapse.Output(out, kept, Collapse.KeyOf(dir))
      && multiset(out) == Folded(kept, Collapse.KeyOf(dir))
      && (Sorted(out) <==> NoOvertaking(kept, Collapse.KeyOf(dir)))
    else out == kept
  }

  /** The last steps of every query, on a buffer of its own. */
  method Present(buf: array<Row>, n: nat, f: Filters, dir: string -> string) returns (out: seq<Row>)
    requires n <= buf.Length && Sorted(buf[..n])
    modifies buf
    ensures Presents(out, old(buf[..n]), f, dir)
  {
    var m := n;
    if f.dropGarbage {
      m := DropGarbage(buf, n);
      WhereSorted(old(buf[..n]), r => !IsGarbage(r));
    }
    out := buf[..m];
    if f.collapse {
      out := Collapse.CollapseRows(out, dir);
    }
  }

  lemma WhereMiddle(rows: seq<Row>, start: nat, hi: nat, p: Choice, q: Choice)
    requires start <= hi <= |rows|
    requires forall i :: 0 <= i < |rows| ==> (p(rows[i]) <==> start <= i < hi && q(rows[i]))
    ensures Where(rows, p) == Where(rows[start..hi], q)
  {
    hide Where;
    var front, middle, back := rows[..start], rows[start..hi], rows[hi..];
    assert rows == front + (middle + back);
    WhereConcat(front, middle + back, p);
    WhereConcat(middle, back, p);
    assert forall i :: 0 <= i < |back| ==> back[i] == rows[hi + i];
    WhereNone(front, p);
    WhereNone(back, p);
    assert forall i :: 0 <= i < |middle| ==> middle[i] == rows[start + i];
    WhereSame(middle, p, q);
  }

  /** The rows of a page, read off a slice of the snapshot. */
  lemma PageSlice(rows: seq<Row>, f: Filters, lo: nat, start: nat, hi: nat)
    requires lo <= start <= hi <= |rows|
    requires forall i :: 0 <= i < |rows| ==> (lo <= i < hi <==> InWindow(f, rows[i]))
    requires f.cursor <= 0 ==> start == lo
    requires f.cursor > 0 ==> forall i :: lo <= i < hi ==> (start <= i <==> rows[i].Ts() > f.cursor)
    ensures After(Matching(rows, f), f.cursor) == Where(rows[start..hi], r => Wanted(f, r))
  {
    hide Where;
    var c := f.cursor;
    var both := (r: Row) => InWindow(f, r) && Wanted(f, r) && (c > 0 ==> r.Ts() > c);
    var inWindow := (r: Row) => InWindow(f, r) && Wanted(f, r);
    if c > 0 {
      WhereBoth(rows, inWindow, (r: Row) => r.Ts() > c, both);
    } else {
      WhereSame(rows, inWindow, both);
    }
    WhereMiddle(rows, start, hi, both, r => Wanted(f, r));
  }

  /** The loop of a page: it reads on from `start` until the page is full or the window ends. */
  method ReadPage(snap: array<Row>, start: nat, hi: nat, f: Filters, buf: array<Row>) returns (n: nat, full: bool)
    requires start <= hi <= snap.Length && buf.Length >= 1 && snap != buf
    modifies buf
    ensures n <= buf.Length
    ensures var page := Cut(Where(snap[start..hi], r => Wanted(f, r)), buf.Length);
            buf[..n] == page.rows && full == page.hasMore
  {
    hide Where;
    ghost var all := snap[..];
    ghost var wanted: Choice := r => Wanted(f, r);
    n, full := 0, false;
    var i := start;
    WhereNone([], wanted);
    assert all[start..start] == [];
    while i < hi
      invariant start <= i <= hi && n < buf.Length && snap[..] == all && !full
      invariant buf[..n] == Where(all[start..i], wanted)
    {
      var r := snap[i];
      assert all[start..i + 1] == all[start..i] + [r];
      WherePush(all[start..i], r, wanted);
      i := i + 1;
      if !Wanted(f, r) {
        continue;
      }
      buf[n] := r;
      n := n + 1;
      assert buf[..n] == buf[..n - 1] + [r];
      if n >= buf.Length {
        full := true;
        break;
      }
    }
    assert all[start..hi] == all[start..i] + all[i..hi] && snap[start..hi] == all[start..hi];
    WhereConcat(all[start..i], all[i..hi], wanted);
    if !full {
      assert all[i..hi] == [];
      WhereNone([], wanted);
    }
    PageEnd(buf[..n], Where(all[i..hi], wanted), buf.Length, full);
  }

  lemma PageEnd(found: seq<Row>, unread: seq<Row>, limit: nat, full: bool)
    requires limit >= 1 && (if full then |found| == limit else |found| < limit && unread == [])
    ensures Cut(found + unread, limit).rows == found && Cut(found + unread, limit).hasMore == full
  {
    assert (found + unread)[..|found|] == found;
    assert unread == [] ==> found + unread == found;
  }

  /** TimelinePage. The snapshot array is only read. */
  method TimelinePage(snap: array<Row>, f: Filters, dir: string -> string)
    returns (out: seq<Row>, next: int, hasMore: bool)
    requires Sorted(snap[..])
    ensures Presents(out, PageOf(snap[..], f).rows, f, dir)
    ensures next == PageOf(snap[..], f).next && hasMore == PageOf(snap[..], f).hasMore
    ensures snap[..] == old(snap[..])
  {
    hide Where, Presents, Wanted;
    var limit := PageLimit(f.limit);
    var lo, hi := RowsBetween(snap, f.from, f.to);
    var start := lo;
    if f.cursor > 0 {
      start := SearchTime(snap, lo, hi, f.cursor, true);
    }
    ghost var all := snap[..];
    assert snap[start..hi] == all[start..hi];
    PageSlice(all, f, lo, start, hi);
    var buf := new Row[limit];
    var n, full := ReadPage(snap, start, hi, f, buf);
    hasMore := full;
    if n > 0 {
      next := buf[n - 1].Ts();
    } else {
      next := 0;
    }
    PageSorted(all, f);
    out := Present(buf, n, f, dir);
  }

  lemma PageSorted(rows: seq<Row>, f: Filters)
    requires Sorted(rows)
    ensures Sorted(PageOf(rows, f).rows)
  {
    hide Where;
    WhereSorted(rows, r => InWindow(f, r) && Wanted(f, r));
    WhereSorted(Matching(rows, f), (r: Row) => r.Ts() > f.cursor);
  }

  // ---------- the whole result ----------

  /** matchingRows. The rows are copied out of the snapshot before anything is done to them in place. */
  method MatchingRows(snap: array<Row>, f: Filters, dir: string -> string) returns (out: seq<Row>)
    requires Sorted(snap[..])
    ensures Presents(out, Matching(snap[..], f), f, dir)
    ensures snap[..] == old(snap[..])
  {
    hide Where, Presents;
    var lo, hi := RowsBetween(snap, f.from, f.to);
    ghost var all := snap[..];
    ghost var wanted: Choice := r => Wanted(f, r);
    WhereMiddle(all, lo, hi, r => InWindow(f, r) && Wanted(f, r), wanted);
    var buf := new Row[hi - lo];
    var n := 0;
    WhereNone([], wanted);
    assert all[lo..lo] == [];
    for i := lo to hi
      invariant n <= i - lo && snap[..] == all
      invariant buf[..n] == Where(all[lo..i], wanted)
    {
      var r := snap[i];
      assert all[lo..i + 1] == all[lo..i] + [r];
      WherePush(all[lo..i], r, wanted);
      if !Wanted(f, r) {
        continue;
      }
      buf[n] := r;
      n := n + 1;
      assert buf[..n] == buf[..n - 1] + [r];
    }
    WhereSorted(all, r => InWindow(f, r) && Wanted(f, r));
    assert buf[..n] == Matching(all, f);
    out := Present(buf, n, f, dir);
  }
}
