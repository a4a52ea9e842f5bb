/** The chart in numbers: how many alerts and how many events every bucket holds, and which times it covers. */
module DensityCounts {
  import opened Records
  import opened Timeline
  import opened Density

  // ---------- counting rows ----------

  /** The places of the rows that a choice picks. */
  ghost function Chosen(rows: seq<Row>, p: Choice): set<int> {
    set i | 0 <= i < |rows| && p(rows[i])
  }

  lemma ChosenPush(rows: seq<Row>, r: Row, p: Choice)
    ensures |Chosen(rows + [r], p)| == |Chosen(rows, p)| + (if p(r) then 1 else 0)
  {
    var all := rows + [r];
    assert forall i :: 0 <= i < |rows| ==> all[i] == rows[i];
    assert Chosen(all, p) == Chosen(rows, p) + (if p(r) then {|rows|} else {});
  }

  lemma ChosenNone(p: Choice)
    ensures |Chosen([], p)| == 0
  {
    assert Chosen([], p) == {};
  }

  const IsAlert: Choice := (r: Row) => r.AlertRow?
  const IsEvent: Choice := (r: Row) => r.EventRow?

  // ---------- which times a bucket covers ----------

  /** Bucket b of width w: the first also holds what lies less than a bucket before the start, the last all that is
      later. */
  predicate Covers(ts: int, from: int, w: int, n: nat, b: nat) {
    && (if b == 0 then from - w < ts else from + b * w <= ts)
    && (b < n - 1 ==> ts < from + (b + 1) * w)
  }

  function AlertsIn(from: int, w: int, n: nat, b: nat): Choice {
    (r: Row) => r.AlertRow? && Covers(r.Ts(), from, w, n, b)
  }

  function EventsIn(from: int, w: int, n: nat, b: nat): Choice {
    (r: Row) => r.EventRow? && Covers(r.Ts(), from, w, n, b)
  }

  lemma IndexMeans(ts: int, from: int, w: int, n: nat, b: nat)
    requires w > 0 && b < n
    ensures Index(ts, from, w, n) == b <==> Covers(ts, from, w, n, b)
  {
    hide Index;
    IndexBelow(ts, from, w, n);
    if b > 0 {
      MulMonotone(1, b, w);
    }
    if from - w < ts < from {
      EarlyIndex(ts, from, w, n);
      MulMonotone(1, b + 1, w);
    } else if ts >= from {
      var q := Divide(ts - from, w);
      LateIndex(ts, from, w, n, q);
      Between(ts - from, w, q, b);
      Between(ts - from, w, q, n - 1);
      MulMonotone(b, n - 1, w);
    }
  }

  lemma EarlyIndex(ts: int, from: int, w: int, n: nat)
    requires w > 0 && n >= 1 && from - w < ts < from
    ensures Index(ts, from, w, n) == 0
  {
    assert (from - ts) / w == 0;
  }

  lemma LateIndex(ts: int, from: int, w: int, n: nat, q: int)
    requires w > 0 && n >= 1 && ts >= from && q == (ts - from) / w
    ensures Index(ts, from, w, n) == if q >= n then n - 1 else q
  {
  }

  lemma Between(d: int, w: int, q: int, b: int)
    requires w > 0 && q * w <= d < q * w + w
    ensures b <= q <==> b * w <= d
    ensures b == q <==> b * w <= d < (b + 1) * w
  {
    if b <= q {
      MulMonotone(b, q, w);
    } else {
      MulMonotone(q + 1, b, w);
    }
    if b < q {
      MulMonotone(b + 1, q, w);
    }
    assert (q + 1) * w == q * w + w;
  }

  /** The width of a bucket: the span divided by the number of buckets, rounded down, but at least one nanosecond. */
  lemma WidthMeans(span: int, n: nat)
    requires span > 0 && n >= 1
    ensures var w := Width(span, n);
            if span < n then w == 1 else w * n <= span < (w + 1) * n
  {
    DivBounds(span, n);
  }

  // ---------- what the chart counts ----------

  lemma {:induction false} TallyMeans(rows: seq<Row>, from: int, w: int, n: nat, b: nat)
    requires w > 0 && b < n
    ensures var bin := Tally(rows, from, w, n, b);
            && bin.a == |Chosen(rows, AlertsIn(from, w, n, b))|
            && bin.e == |Chosen(rows, EventsIn(from, w, n, b))|
  {
    var alerts, events := AlertsIn(from, w, n, b), EventsIn(from, w, n, b);
    if rows == [] {
      ChosenNone(alerts);
      ChosenNone(events);
    } else {
      hide Chosen, Covers, Index;
      var init, last := rows[..|rows| - 1], rows[|rows| - 1];
      assert rows == init + [last];
      TallyMeans(init, from, w, n, b);
      IndexMeans(last.Ts(), from, w, n, b);
      ChosenPush(init, last, alerts);
      ChosenPush(init, last, events);
    }
  }

  lemma {:induction false} KindsMean(rows: seq<Row>)
    ensures Kinds(rows).a == |Chosen(rows, IsAlert)| && Kinds(rows).e == |Chosen(rows, IsEvent)|
  {
    if rows == [] {
      ChosenNone(IsAlert);
      ChosenNone(IsEvent);
    } else {
      hide Chosen;
      var init, last := rows[..|rows| - 1], rows[|rows| - 1];
      assert rows == init + [last];
      KindsMean(init);
      ChosenPush(init, last, IsAlert);
      ChosenPush(init, last, IsEvent);
    }
  }

  /** Every bucket holds the numbers of alerts and of events of its times; the maximum is the largest sum of the two;
      and over all buckets these are the numbers of alerts and of events. */
  lemma ChartMeans(c: Chart, rows: seq<Row>, n: nat)
    requires n >= 1 && rows != [] && IsChart(c, rows, n)
    requires NoneBelow(rows, rows[0].Ts(), Width(rows[|rows| - 1].Ts() - rows[0].Ts(), n), n)
    ensures c.fromNs == rows[0].Ts() < c.toNs == rows[|rows| - 1].Ts() && |c.buckets| == n
    ensures var w := Width(c.toNs - c.fromNs, n);
            forall b :: 0 <= b < n ==>
              && c.buckets[b].a == |Chosen(rows, AlertsIn(c.fromNs, w, n, b))|
              && c.buckets[b].e == |Chosen(rows, EventsIn(c.fromNs, w, n, b))|
    ensures forall b :: 0 <= b < n ==> c.buckets[b].a + c.buckets[b].e <= c.max
    ensures exists b :: 0 <= b < n && c.buckets[b].a + c.buckets[b].e == c.max
    ensures SumBins(c.buckets).a == |Chosen(rows, IsAlert)| && SumBins(c.buckets).e == |Chosen(rows, IsEvent)|
  {
    hide Chosen, Covers, Tally, Kinds, Width, NoneBelow, SumBins, AlertsIn, EventsIn, IsChart;
    ChartBuckets(c, rows, n);
    ChartMax(c, rows, n);
    ChartAddsUp(c, rows, n);
    KindsMean(rows);
  }

  lemma ChartBuckets(c: Chart, rows: seq<Row>, n: nat)
    requires n >= 1 && rows != [] && IsChart(c, rows, n)
    ensures c.fromNs == rows[0].Ts() < c.toNs == rows[|rows| - 1].Ts() && |c.buckets| == n
    ensures var w := Width(c.toNs - c.fromNs, n);
            forall b :: 0 <= b < n ==>
              && c.buckets[b].a == |Chosen(rows, AlertsIn(c.fromNs, w, n, b))|
              && c.buckets[b].e == |Chosen(rows, EventsIn(c.fromNs, w, n, b))|
  {
    hide Chosen, Covers, Tally, Kinds, Width, IsMax, AlertsIn, EventsIn;
    var w := Width(c.toNs - c.fromNs, n);
    forall b | 0 <= b < n
      ensures c.buckets[b].a == |Chosen(rows, AlertsIn(c.fromNs, w, n, b))|
      ensures c.buckets[b].e == |Chosen(rows, EventsIn(c.fromNs, w, n, b))|
    {
      TallyMeans(rows, c.fromNs, w, n, b);
    }
  }

  lemma ChartMax(c: Chart, rows: seq<Row>, n: nat)
    requires n >= 1 && rows != [] && IsChart(c, rows, n)
    ensures |c.buckets| == n
    ensures forall b :: 0 <= b < n ==> c.buckets[b].a + c.buckets[b].e <= c.max
    ensures exists b :: 0 <= b < n && c.buckets[b].a + c.buckets[b].e == c.max
  {
    hide Tally, Width;
    var m :| 0 <= m < |c.buckets| && c.buckets[m].Total() == c.max;
    assert c.buckets[m].a + c.buckets[m].e == c.max;
    assert forall b :: 0 <= b < n ==> c.buckets[b].Total() == c.buckets[b].a + c.buckets[b].e;
  }

  /** Rows of one instant make one bucket with the numbers of alerts and of events. */
  lemma InstantMeans(r: Answer, rows: seq<Row>, nBuckets: int)
    requires Answers(r, rows, nBuckets) && rows != [] && rows[|rows| - 1].Ts() <= rows[0].Ts()
    ensures r.Drawn? && |r.chart.buckets| == 1 && r.chart.fromNs == r.chart.toNs == rows[0].Ts()
    ensures r.chart.buckets[0].a == |Chosen(rows, IsAlert)| && r.chart.buckets[0].e == |Chosen(rows, IsEvent)|
    ensures r.chart.max == |Chosen(rows, IsAlert)| + |Chosen(rows, IsEvent)|
  {
    hide Chosen, Kinds;
    KindsMean(rows);
  }
}
