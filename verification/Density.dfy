/** TimelineDensity: the rows of a query counted into buckets of time. */
module Density {
  import opened Records
  import opened Timeline
  import opened CollapseKey
  import opened CollapseSpec
  import opened CollapseOrder
  import opened CollapseUnique
  import Collapse

  /** Alerts and events in one bucket. */
  datatype Bin = Bin(a: nat, e: nat) {
    function Total(): nat {
      a + e
    }

    function Add(r: Row): Bin {
      if r.AlertRow? then Bin(a + 1, e) else Bin(a, e + 1)
    }
  }

  datatype Chart = Chart(fromNs: int, toNs: int, buckets: seq<Bin>, max: nat)

  /** No rows, a chart, or the run-time error of an index below zero. */
  datatype Answer = Nothing | Drawn(chart: Chart) | IndexPanic

  function BucketCount(n: int): (k: nat)
    ensures 1 <= k <= 2000
    ensures (n <= 0 ==> k == 240) && (1 <= n <= 2000 ==> k == n)
  {
    if n <= 0 then 240 else if n > 2000 then 2000 else n
  }

  function Width(span: int, n: nat): (w: int)
    requires span > 0 && n >= 1
    ensures w >= 1
  {
    if span / n <= 0 then 1 else span / n
  }

  /** Go divides towards zero. */
  function Quot(a: int, b: int): int
    requires b > 0
  {
    if a >= 0 then a / b else -((-a) / b)
  }

  /** The bucket of a time; the last record is clamped into the last bucket. */
  function Index(ts: int, from: int, w: int, n: nat): int
    requires w > 0 && n >= 1
  {
    var q := Quot(ts - from, w);
    if q >= n then n - 1 else q
  }

  // ---------- the counts ----------

  /** How many of the rows fall into bucket b. */
  function Tally(rows: seq<Row>, from: int, w: int, n: nat, b: int): Bin
    requires w > 0 && n >= 1
  {
    if rows == [] then Bin(0, 0)
    else
      var last := rows[|rows| - 1];
      var before := Tally(rows[..|rows| - 1], from, w, n, b);
      if Index(last.Ts(), from, w, n) == b then before.Add(last) else before
  }

  lemma TallyPush(rows: seq<Row>, r: Row, from: int, w: int, n: nat, b: int)
    requires w > 0 && n >= 1
    ensures Tally(rows + [r], from, w, n, b)
            == if Index(r.Ts(), from, w, n) == b then Tally(rows, from, w, n, b).Add(r) else Tally(rows, from, w, n, b)
  {
    assert (rows + [r])[..|rows|] == rows;
  }

  /** All buckets. */
  function Tallies(rows: seq<Row>, from: int, w: int, n: nat): seq<Bin>
    requires w > 0 && n >= 1
  {
    seq(n, b => Tally(rows, from, w, n, b))
  }

  lemma TalliesNone(from: int, w: int, n: nat)
    requires w > 0 && n >= 1
    ensures Tallies([], from, w, n) == seq(n, _ => Bin(0, 0))
  {
  }

  lemma TalliesPush(rows: seq<Row>, r: Row, from: int, w: int, n: nat)
    requires w > 0 && n >= 1 && Index(r.Ts(), from, w, n) >= 0
    ensures var b := Index(r.Ts(), from, w, n); var before := Tallies(rows, from, w, n);
            b < n && Tallies(rows + [r], from, w, n) == before[b := before[b].Add(r)]
  {
    IndexBelow(r.Ts(), from, w, n);
    forall b | 0 <= b < n
      ensures var was := Tallies(rows, from, w, n)[b];
              Tallies(rows + [r], from, w, n)[b] == if b == Index(r.Ts(), from, w, n) then was.Add(r) else was
    {
      TallyPush(rows, r, from, w, n, b);
    }
  }

  function Kinds(rows: seq<Row>): Bin {
    if rows == [] then Bin(0, 0) else Kinds(rows[..|rows| - 1]).Add(rows[|rows| - 1])
  }

  ghost predicate IsMax(max: nat, bins: seq<Bin>) {
    (forall b :: 0 <= b < |bins| ==> bins[b].Total() <= max) && exists b :: 0 <= b < |bins| && bins[b].Total() == max
  }

  lemma MaxUpdate(max: nat, bins: seq<Bin>, b: nat, r: Row)
    requires IsMax(max, bins) && b < |bins|
    ensures var t := bins[b].Add(r).Total(); IsMax(if t > max then t else max, bins[b := bins[b].Add(r)])
  {
    var after := bins[b := bins[b].Add(r)];
    var m :| 0 <= m < |bins| && bins[m].Total() == max;
    assert after[b].Total() == bins[b].Total() + 1;
    assert after[m].Total() >= max;
  }

  ghost predicate NoneBelow(rows: seq<Row>, from: int, w: int, n: nat)
    requires w > 0 && n >= 1
  {
    forall i :: 0 <= i < |rows| ==> Index(rows[i].Ts(), from, w, n) >= 0
  }

  /** The chart of the rows for a proper time span. */
  ghost predicate IsChart(c: Chart, rows: seq<Row>, n: nat)
    requires n >= 1 && rows != []
  {
    var from, to := rows[0].Ts(), rows[|rows| - 1].Ts();
    && c.fromNs == from && c.toNs == to && to > from
    && c.buckets == Tallies(rows, from, Width(to - from, n), n)
    && IsMax(c.max, c.buckets)
  }

  // ---------- the chart ----------

  /** The answer for rows in the order they are given. */
  ghost predicate Answers(r: Answer, rows: seq<Row>, nBuckets: int) {
    if rows == [] then r.Nothing?
    else if rows[|rows| - 1].Ts() <= rows[0].Ts() then
      r == Drawn(Chart(rows[0].Ts(), rows[0].Ts(), [Kinds(rows)], Kinds(rows).Total()))
    else
      var n := BucketCount(nBuckets);
      var ok := NoneBelow(rows, rows[0].Ts(), Width(rows[|rows| - 1].Ts() - rows[0].Ts(), n), n);
      if ok then r.Drawn? && IsChart(r.chart, rows, n) else r.IndexPanic?
  }

  /** TimelineDensity: the rows that the query shows, counted. */
  method TimelineDensity(snap: array<Row>, f: Filters, dir: string -> string, nBuckets: int) returns (r: Answer)
    requires Sorted(snap[..])
    ensures exists rows :: Presents(rows, Matching(snap[..], f), f, dir) && Answers(r, rows, nBuckets)
    ensures snap[..] == old(snap[..])
  {
    hide Presents, Answers;
    var rows := MatchingRows(snap, f, dir);
    r := CountRows(rows, nBuckets);
  }

  /** The part after the rows have been selected. */
  method CountRows(rows: seq<Row>, nBuckets: int) returns (r: Answer)
    ensures Answers(r, rows, nBuckets)
  {
    var n := BucketCount(nBuckets);
    if rows == [] {
      return Nothing;
    }
    var from, to := rows[0].Ts(), rows[|rows| - 1].Ts();
    if to <= from {
      var bin := Bin(0, 0);
      for i := 0 to |rows|
        invariant bin == Kinds(rows[..i])
      {
        assert rows[..i + 1][..i] == rows[..i];
        bin := bin.Add(rows[i]);
      }
      assert rows[..|rows|] == rows;
      return Drawn(Chart(from, from, [bin], bin.Total()));
    }
    var w := Width(to - from, n);
    var ok, buckets, mx := FillBuckets(rows, from, w, n);
    if !ok {
      return IndexPanic;
    }
    return Drawn(Chart(from, to, buckets, mx));
  }

  /** The loop over the rows. */
  method FillBuckets(rows: seq<Row>, from: int, w: int, n: nat) returns (ok: bool, bins: seq<Bin>, mx: nat)
    requires w > 0 && n >= 1
    ensures ok <==> NoneBelow(rows, from, w, n)
    ensures ok ==> bins == Tallies(rows, from, w, n) && IsMax(mx, bins)
  {
    hide Tallies, Index, IsMax;
    var buckets := new Bin[n](_ => Bin(0, 0));
    TalliesNone(from, w, n);
    mx, bins := 0, [];
    MaxNone(n);
    assert buckets[..] == seq(n, _ => Bin(0, 0));
    for i := 0 to |rows|
      invariant NoneBelow(rows[..i], from, w, n)
      invariant buckets[..] == Tallies(rows[..i], from, w, n)
      invariant IsMax(mx, buckets[..])
    {
      var idx := Index(rows[i].Ts(), from, w, n);
      if idx < 0 {
        return false, [], 0;
      }
      assert rows[..i + 1] == rows[..i] + [rows[i]];
      TalliesPush(rows[..i], rows[i], from, w, n);
      MaxUpdate(mx, buckets[..], idx, rows[i]);
      buckets[idx] := buckets[idx].Add(rows[i]);
      if buckets[idx].Total() > mx {
        mx := buckets[idx].Total();
      }
    }
    assert rows[..|rows|] == rows;
    ok, bins := true, buckets[..];
  }

  lemma MaxNone(n: nat)
    requires n >= 1
    ensures IsMax(0, seq(n, _ => Bin(0, 0)))
  {
    assert seq(n, _ => Bin(0, 0))[0].Total() == 0;
  }

  // ---------- indices ----------

  /** An index is below zero exactly for rows at least one bucket earlier than the first row. */
  lemma IndexBelow(ts: int, from: int, w: int, n: nat)
    requires w > 0 && n >= 1
    ensures Index(ts, from, w, n) < 0 <==> ts <= from - w
    ensures Index(ts, from, w, n) < n
  {
    var d := from - ts;
    if d >= w {
      assert d / w >= 1;
    } else if d > 0 {
      assert d / w == 0;
    }
  }

  /** So the code answers without a run-time error exactly when no row comes a bucket before the first. */
  lemma PanicIff(rows: seq<Row>, n: nat)
    requires n >= 1 && rows != [] && rows[|rows| - 1].Ts() > rows[0].Ts()
    ensures var from := rows[0].Ts(); var w := Width(rows[|rows| - 1].Ts() - from, n);
            NoneBelow(rows, from, w, n) <==> forall i :: 0 <= i < |rows| ==> rows[i].Ts() > from - w
  {
    var from := rows[0].Ts();
    var w := Width(rows[|rows| - 1].Ts() - from, n);
    forall i | 0 <= i < |rows|
      ensures Index(rows[i].Ts(), from, w, n) >= 0 <==> rows[i].Ts() > from - w
    {
      IndexBelow(rows[i].Ts(), from, w, n);
    }
  }

  /** Rows in time order never panic; folded rows need not be in time order and can. */
  lemma SortedNeverPanics(rows: seq<Row>, n: nat)
    requires n >= 1 && Sorted(rows) && rows != [] && rows[|rows| - 1].Ts() > rows[0].Ts()
    ensures NoneBelow(rows, rows[0].Ts(), Width(rows[|rows| - 1].Ts() - rows[0].Ts(), n), n)
  {
    PanicIff(rows, n);
  }

  /** A query panics only if it folds bursts and one overtakes an older one; in particular, never without folding. */
  lemma PanicNeedsOvertaking(rows: seq<Row>, f: Filters, dir: string -> string, out: seq<Row>, r: Answer, nBuckets: int)
    requires Sorted(rows) && Presents(out, Matching(rows, f), f, dir) && Answers(r, out, nBuckets)
    ensures var kept := if f.dropGarbage then Keep(Matching(rows, f)) else Matching(rows, f);
            r.IndexPanic? ==> f.collapse && !NoOvertaking(kept, Collapse.KeyOf(dir))
  {
    hide NoOvertaking, Collapse.Output, Folded, Tallies, Tally, Kinds, Where;
    WhereSorted(rows, r => InWindow(f, r) && Wanted(f, r));
    WhereSorted(Matching(rows, f), r => !IsGarbage(r));
    if Sorted(out) && out != [] && out[|out| - 1].Ts() > out[0].Ts() {
      SortedNeverPanics(out, BucketCount(nBuckets));
    }
  }

  /** The exact condition: there is a span, and the first row selected, which is the earliest, lies a whole bucket
      before the first row shown. */
  lemma PanicExactly(rows: seq<Row>, f: Filters, dir: string -> string, out: seq<Row>, r: Answer, nBuckets: int)
    requires Sorted(rows) && Presents(out, Matching(rows, f), f, dir) && Answers(r, out, nBuckets)
    ensures var kept := if f.dropGarbage then Keep(Matching(rows, f)) else Matching(rows, f);
            && (kept == [] <==> out == [])
            && (r.IndexPanic? <==>
                && out != [] && out[|out| - 1].Ts() > out[0].Ts()
                && kept[0].Ts() <= out[0].Ts() - Width(out[|out| - 1].Ts() - out[0].Ts(), BucketCount(nBuckets)))
  {
    hide NoOvertaking, Collapse.Output, Folded, Tallies, Tally, Kinds, Where, NoneBelow, Width;
    WhereSorted(rows, r => InWindow(f, r) && Wanted(f, r));
    WhereSorted(Matching(rows, f), r => !IsGarbage(r));
    var kept := if f.dropGarbage then Keep(Matching(rows, f)) else Matching(rows, f);
    EarliestShown(kept, out, f.collapse, dir);
    if out != [] && out[|out| - 1].Ts() > out[0].Ts() {
      PanicIff(out, BucketCount(nBuckets));
    }
  }

  lemma EarliestShown(kept: seq<Row>, out: seq<Row>, folded: bool, dir: string -> string)
    requires Sorted(kept)
    requires if folded then multiset(out) == Folded(kept, Collapse.KeyOf(dir)) else out == kept
    ensures kept == [] <==> out == []
    ensures kept != [] ==> forall i :: 0 <= i < |out| ==> kept[0].Ts() <= out[i].Ts()
    ensures kept != [] ==> exists i :: 0 <= i < |out| && out[i].Ts() == kept[0].Ts()
  {
    hide Folded;
    if folded && kept == [] {
      FoldedNothing(Collapse.KeyOf(dir));
      assert |multiset(out)| == |out|;
    } else if folded {
      var first := FoldedStart(kept, Collapse.KeyOf(dir));
      assert first in multiset(out);
      forall i | 0 <= i < |out|
        ensures kept[0].Ts() <= out[i].Ts()
      {
        assert out[i] in multiset(out);
      }
    }
  }

  /** No filters but folding. */
  const ALL_FOLDED: Filters := Filters(None, None, true, true, _ => true, 0, 0, true, false)

  /** The rows that come out of order make it panic, with any number of buckets from three. */
  lemma FoldedRowsPanic(dir: string -> string, out: seq<Row>, r: Answer, nBuckets: int)
    requires BucketCount(nBuckets) >= 3
    requires Presents(out, Matching([ALERT_AT_0, FILE_AT_1, DNS_AT_4], ALL_FOLDED), ALL_FOLDED, dir)
    requires Answers(r, out, nBuckets)
    ensures r.IndexPanic?
  {
    hide Collapse.Output, NoOvertaking, Folded, Tallies, Tally, Kinds;
    var rows := [ALERT_AT_0, FILE_AT_1, DNS_AT_4];
    AllMatch(rows);
    OvertakingExample(dir);
    assert out == [FILE_AT_1, ALERT_AT_0, DNS_AT_4];
    var n := BucketCount(nBuckets);
    PanicIff(out, n);
    assert out[1].Ts() == 0 && out[0].Ts() == SECOND && out[|out| - 1].Ts() == 4 * SECOND;
    ThirdOfSpan(3 * SECOND, n);
  }

  lemma ThirdOfSpan(span: int, n: nat)
    requires n >= 3 && span >= 3
    ensures Width(span, n) <= span / 3
  {
    DivShrinks(span, n);
  }

  lemma DivShrinks(span: nat, n: nat)
    requires n >= 3
    ensures span / n <= span / 3
  {
    DivBounds(span, n);
    DivBounds(span, 3);
    if span / n > span / 3 {
      MulMonotone(span / 3 + 1, span / n, 3);
      MulMonotone(3, n, span / n);
    }
  }

  lemma AllMatch(rows: seq<Row>)
    ensures Matching(rows, ALL_FOLDED) == rows
  {
    WhereAll(rows, r => InWindow(ALL_FOLDED, r) && Wanted(ALL_FOLDED, r));
  }

  lemma IndexMonotone(s: int, t: int, from: int, w: int, n: nat)
    requires w > 0 && n >= 1 && from <= s <= t
    ensures Index(s, from, w, n) <= Index(t, from, w, n)
  {
    DivMonotone(s - from, t - from, w);
  }

  lemma DivMonotone(a: int, b: int, w: int)
    requires w > 0 && a <= b
    ensures a / w <= b / w
  {
    DivBounds(a, w);
    DivBounds(b, w);
    Cancel(a / w, b / w + 1, w);
  }

  // ---------- conservation ----------

  function SumBins(bins: seq<Bin>): Bin {
    if bins == [] then Bin(0, 0)
    else
      var s, last := SumBins(bins[..|bins| - 1]), bins[|bins| - 1];
      Bin(s.a + last.a, s.e + last.e)
  }

  lemma {:induction false} SumReplace(bins: seq<Bin>, b: nat, r: Row)
    requires b < |bins|
    ensures SumBins(bins[b := bins[b].Add(r)]) == SumBins(bins).Add(r)
  {
    var m := |bins| - 1;
    var after := bins[b := bins[b].Add(r)];
    if b == m {
      assert after[..m] == bins[..m];
    } else {
      SumReplace(bins[..m], b, r);
      assert after[..m] == bins[..m][b := bins[b].Add(r)];
    }
  }

  lemma {:induction false} SumZero(bins: seq<Bin>)
    requires forall b :: 0 <= b < |bins| ==> bins[b] == Bin(0, 0)
    ensures SumBins(bins) == Bin(0, 0)
  {
    if bins != [] {
      SumZero(bins[..|bins| - 1]);
    }
  }

  /** Every alert and every event is in exactly one bucket. */
  lemma {:induction false} BucketsAddUp(rows: seq<Row>, from: int, w: int, n: nat)
    requires w > 0 && n >= 1 && NoneBelow(rows, from, w, n)
    ensures SumBins(Tallies(rows, from, w, n)) == Kinds(rows)
  {
    if rows == [] {
      SumZero(Tallies(rows, from, w, n));
    } else {
      var init, last := rows[..|rows| - 1], rows[|rows| - 1];
      assert rows == init + [last];
      assert forall i :: 0 <= i < |init| ==> init[i] == rows[i];
      BucketsAddUp(init, from, w, n);
      TalliesPush(init, last, from, w, n);
      SumReplace(Tallies(init, from, w, n), Index(last.Ts(), from, w, n), last);
    }
  }

  lemma ChartAddsUp(c: Chart, rows: seq<Row>, n: nat)
    requires n >= 1 && rows != [] && IsChart(c, rows, n)
    requires NoneBelow(rows, rows[0].Ts(), Width(rows[|rows| - 1].Ts() - rows[0].Ts(), n), n)
    ensures SumBins(c.buckets) == Kinds(rows)
  {
    var w := Width(c.toNs - c.fromNs, n);
    BucketsAddUp(rows, c.fromNs, w, n);
  }

  // ---------- how far the buckets are from equal parts ----------

  lemma DivBounds(a: int, b: int)
    requires b > 0
    ensures (a / b) * b <= a < (a / b + 1) * b
  {
  }

  /** A row that is clamped into the last bucket lies within fewer than n nanoseconds of the end. */
  lemma ClampedNearEnd(ts: int, from: int, to: int, n: nat)
    requires n >= 1 && from <= ts <= to && from < to
    requires Quot(ts - from, Width(to - from, n)) >= n
    ensures to - ts < n
  {
    var span := to - from;
    var w := Width(span, n);
    DivBounds(ts - from, w);
    assert ts - from >= n * w by {
      MulMonotone(n, (ts - from) / w, w);
    }
    DivBounds(span, n);
    if span / n > 0 {
      assert (w + 1) * n == w * n + n;
    }
  }

  lemma MulMonotone(a: int, b: int, w: int)
    requires a <= b && w >= 0
    ensures a * w <= b * w
  {
  }

  /** The client draws bucket i over the exact n-th part of the span; this is the part a time lies in. */
  function ExactIndex(ts: int, from: int, to: int, n: nat): int
    requires n >= 1 && from < to
  {
    var p := (ts - from) * n / (to - from);
    if p >= n then n - 1 else p
  }

  /** If the span is at least n squared, the server's bucket is the client's or the next one. */
  lemma ServerMeetsClient(ts: int, from: int, to: int, n: nat)
    requires n >= 1 && from <= ts <= to && to - from >= n * n
    requires from < to
    ensures var i := Index(ts, from, Width(to - from, n), n); var p := ExactIndex(ts, from, to, n);
            p <= i <= p + 1
  {
    var span, d := to - from, ts - from;
    var w := span / n;
    WideBuckets(span, n);
    MulLeft(d, 0, n);
    var width := Divide(span, n);
    var q := Divide(d, w);
    var p := Divide(d * n, span);
    Expand(q, 1, w);
    Expand(p, 1, span);
    NotBefore(d, span, n, w, q, p);
    NotFarAfter(d, span, n, w, q, p, span - w * n);
  }

  lemma WideBuckets(span: int, n: nat)
    requires n >= 1 && span >= n * n
    ensures span / n >= n && Width(span, n) == span / n
  {
    DivMonotone(n * n, span, n);
    assert n * n / n == n by {
      DivBounds(n * n, n);
      if n * n / n < n {
        MulMonotone(n * n / n + 1, n, n);
      } else if n * n / n > n {
        MulMonotone(n + 1, n * n / n, n);
      }
    }
  }

  lemma Divide(a: int, b: int) returns (q: int)
    requires b > 0 && a >= 0
    ensures q == a / b && q >= 0 && q * b <= a < q * b + b
  {
    q := a / b;
    DivBounds(a, b);
    Expand(q, 1, b);
  }

  lemma NotBefore(d: int, span: int, n: int, w: int, q: int, p: int)
    requires w * n <= span && n >= 1 && w >= 1 && p >= 0
    requires p * span <= d * n && d < (q + 1) * w
    ensures p <= q
  {
    MulLeft(p, w * n, span);
    Scale((q + 1) * w, d, n);
    assert ((q + 1) * w) * n == (q + 1) * (w * n) by {
      Reorder(q + 1, w, n);
    }
    assert w * n >= 1 by {
      MulLeft(w, 1, n);
    }
    Cancel(p, q + 1, w * n);
  }

  lemma NotFarAfter(d: int, span: int, n: int, w: int, q: int, p: int, rem: int)
    requires span == w * n + rem && 0 <= rem < n <= w && 0 <= d <= span && span > 0 && q >= 0
    requires q * w <= d && d * n < (p + 1) * span
    ensures q <= p + 1
  {
    MulLeft(q, rem, w);
    MulMonotone(q * w, d, n);
    Reorder(q, w, n);
    Expand2(q, w * n, rem);
    assert q * span <= d * n + q * rem;
    Expand(p + 1, 1, span);
    Cancel(q, p + 2, span);
  }

  lemma Expand(a: int, b: int, c: int)
    ensures (a + b) * c == a * c + b * c
  {
  }

  lemma Expand2(a: int, b: int, c: int)
    ensures a * (b + c) == a * b + a * c
  {
  }

  lemma Reorder(a: int, b: int, c: int)
    ensures (a * b) * c == a * (b * c)
  {
  }

  lemma Cancel(a: int, b: int, c: int)
    requires a * c < b * c && c > 0
    ensures a < b
  {
    if a >= b {
      MulMonotone(b, a, c);
    }
  }

  lemma Scale(a: int, b: int, n: int)
    requires a > b && n >= 1
    ensures a * n > b * n
  {
  }

  lemma MulLeft(c: int, a: int, b: int)
    requires a <= b && c >= 0
    ensures c * a <= c * b
  {
  }
}
