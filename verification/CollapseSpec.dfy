/** What folding bursts means: the rows of each key, cut wherever the gap is wider than the window. */
module CollapseSpec {
  import opened Records
  import opened CollapseKey

  const BURST_MEMBER_CAP: nat := 50

  /** How rows are keyed; the empty key never folds. */
  type Keying = Row -> string

  /** Rows of one key share one window. */
  ghost predicate KeyingOk(key: Keying) {
    forall r, s :: key(r) == key(s) && key(r) != "" ==> Window(r) == Window(s)
  }

  // ---------- segments ----------

  /** The rows of one key, in order. */
  function Sub(rows: seq<Row>, key: Keying, k: string): seq<Row> {
    if rows == [] then []
    else
      var last := rows[|rows| - 1];
      Sub(rows[..|rows| - 1], key, k) + (if key(last) == k then [last] else [])
  }

  /** Rows that belong together: the first one and those that follow it. */
  datatype Seg = Seg(head: Row, rest: seq<Row>) {
    function Last(): Row {
      if rest == [] then head else rest[|rest| - 1]
    }

    function Size(): nat {
      1 + |rest|
    }

    function Rows(): seq<Row> {
      [head] + rest
    }

    function With(r: Row): Seg {
      Seg(head, rest + [r])
    }
  }

  predicate Continues(prev: Row, r: Row) {
    r.Ts() - prev.Ts() <= Window(r)
  }

  /** Cuts a sequence before every row that comes later than its window allows. */
  function Segments(sub: seq<Row>): (segs: seq<Seg>)
    ensures sub != [] ==> segs != []
  {
    if sub == [] then []
    else
      var n := |sub| - 1;
      var segs := Segments(sub[..n]);
      if n > 0 && Continues(sub[n - 1], sub[n]) then segs[..|segs| - 1] + [segs[|segs| - 1].With(sub[n])]
      else segs + [Seg(sub[n], [])]
  }

  function MemberIDs(rest: seq<Row>): seq<int> {
    seq(if |rest| < BURST_MEMBER_CAP then |rest| else BURST_MEMBER_CAP, i requires 0 <= i < |rest| => rest[i].Id())
  }

  /** The row that stands for a segment: its head, with the exact statistics if there is more than one row. */
  function Summary(seg: Seg): Row {
    if seg.rest == [] then seg.head
    else
      var stats := Burst(seg.Size(), seg.Last().Ts() - seg.head.Ts(), seg.Last().Ts(), MemberIDs(seg.rest));
      seg.head.(burst := Some(stats))
  }

  function Summaries(segs: seq<Seg>): seq<Row> {
    if segs == [] then [] else Summaries(segs[..|segs| - 1]) + [Summary(segs[|segs| - 1])]
  }

  // ---------- all keys together ----------

  function Keys(rows: seq<Row>, key: Keying): set<string> {
    set i | 0 <= i < |rows| && key(rows[i]) != "" :: key(rows[i])
  }

  ghost function SegBag(rows: seq<Row>, key: Keying, k: string): multiset<Row> {
    multiset(Summaries(Segments(Sub(rows, key, k))))
  }

  ghost function KeyBag(rows: seq<Row>, key: Keying, ks: set<string>): multiset<Row> {
    if ks == {} then multiset{}
    else
      var k :| k in ks;
      SegBag(rows, key, k) + KeyBag(rows, key, ks - {k})
  }

  /** The rows to be shown, whatever their order: rows without a key as they are, one row for every segment of
      every key. */
  ghost function Folded(rows: seq<Row>, key: Keying): multiset<Row> {
    multiset(Sub(rows, key, "")) + KeyBag(rows, key, Keys(rows, key))
  }

  // ---------- segments are what they should be ----------

  function Flat(segs: seq<Seg>): seq<Row> {
    if segs == [] then [] else Flat(segs[..|segs| - 1]) + segs[|segs| - 1].Rows()
  }

  ghost predicate NoGapInside(seg: Seg) {
    forall i :: 0 <= i < |seg.rest| ==> Continues(seg.Rows()[i], seg.Rows()[i + 1])
  }

  ghost predicate WellCut(segs: seq<Seg>) {
    && (forall i :: 0 <= i < |segs| ==> NoGapInside(segs[i]))
    && (forall i :: 0 < i < |segs| ==> !Continues(segs[i - 1].Last(), segs[i].head))
  }

  lemma FlatPush(segs: seq<Seg>, seg: Seg)
    ensures Flat(segs + [seg]) == Flat(segs) + seg.Rows()
  {
    assert (segs + [seg])[..|segs|] == segs;
  }

  lemma FlatWith(segs: seq<Seg>, seg: Seg, r: Row)
    ensures Flat(segs + [seg.With(r)]) == Flat(segs + [seg]) + [r]
  {
    FlatPush(segs, seg);
    FlatPush(segs, seg.With(r));
  }

  lemma CutPush(segs: seq<Seg>, r: Row)
    requires WellCut(segs)
    requires segs != [] ==> !Continues(segs[|segs| - 1].Last(), r)
    ensures WellCut(segs + [Seg(r, [])])
  {
    var after := segs + [Seg(r, [])];
    forall i | 0 < i < |after|
      ensures !Continues(after[i - 1].Last(), after[i].head)
    {
      assert after[i - 1] == segs[i - 1];
    }
  }

  lemma CutExtend(init: seq<Seg>, last: Seg, r: Row)
    requires WellCut(init + [last]) && Continues(last.Last(), r)
    ensures WellCut(init + [last.With(r)])
  {
    var before, after := init + [last], init + [last.With(r)];
    assert before[|init|] == last && after[|init|] == last.With(r);
    assert NoGapInside(last);
    LongerNoGap(last, r);
    forall i | 0 <= i < |after|
      ensures NoGapInside(after[i])
    {
      assert i < |init| ==> after[i] == before[i];
    }
    forall i | 0 < i < |after|
      ensures !Continues(after[i - 1].Last(), after[i].head)
    {
      assert !Continues(before[i - 1].Last(), before[i].head);
    }
  }

  lemma LongerNoGap(seg: Seg, r: Row)
    requires NoGapInside(seg) && Continues(seg.Last(), r)
    ensures NoGapInside(seg.With(r))
  {
    var more := seg.With(r);
    forall i | 0 <= i < |more.rest|
      ensures Continues(more.Rows()[i], more.Rows()[i + 1])
    {
      assert more.Rows() == seg.Rows() + [r];
      assert i < |seg.rest| ==> Continues(seg.Rows()[i], seg.Rows()[i + 1]);
    }
  }

  lemma {:induction false} LastSegEnd(sub: seq<Row>)
    ensures sub == [] ==> Segments(sub) == []
    ensures sub != [] ==> Segments(sub)[|Segments(sub)| - 1].Last() == sub[|sub| - 1]
  {
  }

  /** Segments cuts at the wide gaps and nowhere else, and loses nothing. */
  lemma {:induction false} SegmentsCorrect(sub: seq<Row>)
    ensures Flat(Segments(sub)) == sub && WellCut(Segments(sub))
  {
    if sub != [] {
      var p, r := sub[..|sub| - 1], sub[|sub| - 1];
      assert sub == p + [r];
      SegmentsCorrect(p);
      SegmentsCorrectNext(p, r);
    }
  }

  lemma SegmentsCorrectNext(p: seq<Row>, r: Row)
    requires Flat(Segments(p)) == p && WellCut(Segments(p))
    ensures Flat(Segments(p + [r])) == p + [r] && WellCut(Segments(p + [r]))
  {
    hide Segments, Flat, WellCut;
    SegmentsAppend(p, r);
    var segs := Segments(p);
    LastSegEnd(p);
    if p != [] && Continues(p[|p| - 1], r) {
      var init, last := segs[..|segs| - 1], segs[|segs| - 1];
      assert segs == init + [last];
      CutExtend(init, last, r);
      FlatWith(init, last, r);
    } else {
      CutPush(segs, r);
      FlatPush(segs, Seg(r, []));
    }
  }

  // ---------- one more row ----------

  lemma SubAppend(rows: seq<Row>, r: Row, key: Keying, k: string)
    ensures Sub(rows + [r], key, k) == Sub(rows, key, k) + (if key(r) == k then [r] else [])
  {
    assert (rows + [r])[..|rows|] == rows;
  }

  lemma SubOther(rows: seq<Row>, r: Row, key: Keying, k: string)
    requires k != key(r)
    ensures Sub(rows + [r], key, k) == Sub(rows, key, k)
  {
    SubAppend(rows, r, key, k);
    assert Sub(rows, key, k) + [] == Sub(rows, key, k);
  }

  lemma {:induction false} SubKey(rows: seq<Row>, key: Keying, k: string)
    ensures forall i :: 0 <= i < |Sub(rows, key, k)| ==> key(Sub(rows, key, k)[i]) == k
  {
    if rows != [] {
      SubKey(rows[..|rows| - 1], key, k);
    }
  }

  lemma {:induction false} SubUnfolded(rows: seq<Row>, key: Keying, k: string)
    requires Unfolded(rows)
    ensures Unfolded(Sub(rows, key, k))
  {
    if rows != [] {
      SubUnfolded(rows[..|rows| - 1], key, k);
    }
  }

  lemma KeysAppend(rows: seq<Row>, r: Row, key: Keying)
    ensures Keys(rows + [r], key) == Keys(rows, key) + (if key(r) == "" then {} else {key(r)})
  {
    var all := rows + [r];
    assert all[|rows|] == r;
    assert forall i :: 0 <= i < |rows| ==> all[i] == rows[i];
    forall k | k in Keys(rows, key)
      ensures k in Keys(all, key)
    {
      var i :| 0 <= i < |rows| && key(rows[i]) == k;
      assert key(all[i]) == k;
    }
  }

  lemma {:induction false} SubEmpty(rows: seq<Row>, key: Keying, k: string)
    requires k != "" && k !in Keys(rows, key)
    ensures Sub(rows, key, k) == []
  {
    if rows != [] {
      var n := |rows| - 1;
      assert rows == rows[..n] + [rows[n]];
      KeysAppend(rows[..n], rows[n], key);
      SubEmpty(rows[..n], key, k);
    }
  }

  lemma KeyBagSome(rows: seq<Row>, key: Keying, ks: set<string>) returns (k: string)
    requires ks != {}
    ensures k in ks && KeyBag(rows, key, ks) == SegBag(rows, key, k) + KeyBag(rows, key, ks - {k})
  {
    k :| k in ks && KeyBag(rows, key, ks) == SegBag(rows, key, k) + KeyBag(rows, key, ks - {k});
  }

  lemma SwapAdd<T>(a: multiset<T>, b: multiset<T>, c: multiset<T>)
    ensures a + (b + c) == b + (a + c)
  {
  }

  /** Any key can be taken out of the sum first. */
  lemma {:induction false} KeyBagTake(rows: seq<Row>, key: Keying, ks: set<string>, k: string)
    requires k in ks
    ensures KeyBag(rows, key, ks) == SegBag(rows, key, k) + KeyBag(rows, key, ks - {k})
    decreases |ks|
  {
    var j := KeyBagSome(rows, key, ks);
    if j != k {
      KeyBagTake(rows, key, ks - {j}, k);
      KeyBagTake(rows, key, ks - {k}, j);
      assert ks - {j} - {k} == ks - {k} - {j};
      SwapAdd(SegBag(rows, key, j), SegBag(rows, key, k), KeyBag(rows, key, ks - {j} - {k}));
    }
  }

  /** A row of another key does not change the sum. */
  lemma {:induction false} KeyBagAppend(rows: seq<Row>, r: Row, key: Keying, ks: set<string>)
    requires key(r) !in ks
    ensures KeyBag(rows + [r], key, ks) == KeyBag(rows, key, ks)
    decreases |ks|
  {
    if ks != {} {
      var k := KeyBagSome(rows, key, ks);
      KeyBagTake(rows + [r], key, ks, k);
      SubOther(rows, r, key, k);
      KeyBagAppend(rows, r, key, ks - {k});
    }
  }

  /** Everything but one key. */
  ghost function Others(rows: seq<Row>, key: Keying, k: string): multiset<Row> {
    multiset(Sub(rows, key, "")) + KeyBag(rows, key, Keys(rows, key) - {k})
  }

  lemma AddOut<T>(a: multiset<T>, b: multiset<T>, c: multiset<T>)
    ensures a + (b + c) == (a + c) + b
  {
  }

  lemma FoldedSplit(rows: seq<Row>, key: Keying, k: string)
    requires k != ""
    ensures Folded(rows, key) == Others(rows, key, k) + SegBag(rows, key, k)
  {
    var ks := Keys(rows, key);
    if k in ks {
      KeyBagTake(rows, key, ks, k);
      AddOut(multiset(Sub(rows, key, "")), SegBag(rows, key, k), KeyBag(rows, key, ks - {k}));
    } else {
      SubEmpty(rows, key, k);
      assert ks - {k} == ks;
    }
  }

  lemma OthersAppend(rows: seq<Row>, r: Row, key: Keying)
    requires key(r) != ""
    ensures Others(rows + [r], key, key(r)) == Others(rows, key, key(r))
  {
    var k := key(r);
    SubOther(rows, r, key, "");
    KeysAppend(rows, r, key);
    assert Keys(rows + [r], key) - {k} == Keys(rows, key) - {k};
    KeyBagAppend(rows, r, key, Keys(rows, key) - {k});
  }

  lemma BagPush<T>(a: seq<T>, x: T)
    ensures multiset(a + [x]) == multiset(a) + multiset{x}
  {
  }

  lemma FoldedAppendPlain(rows: seq<Row>, r: Row, key: Keying)
    requires key(r) == ""
    ensures Folded(rows + [r], key) == Folded(rows, key) + multiset{r}
  {
    var ks := Keys(rows, key);
    SubAppend(rows, r, key, "");
    BagPush(Sub(rows, key, ""), r);
    KeysAppend(rows, r, key);
    assert Keys(rows + [r], key) == ks;
    KeyBagAppend(rows, r, key, ks);
    AddOut(multiset(Sub(rows, key, "")), multiset{r}, KeyBag(rows, key, ks));
  }

  lemma SegmentsAppend(sub: seq<Row>, r: Row)
    ensures var segs := Segments(sub);
            Segments(sub + [r]) == if sub != [] && Continues(sub[|sub| - 1], r)
                                   then segs[..|segs| - 1] + [segs[|segs| - 1].With(r)]
                                   else segs + [Seg(r, [])]
  {
    assert (sub + [r])[..|sub|] == sub;
  }

  lemma SummariesPush(segs: seq<Seg>, seg: Seg)
    ensures multiset(Summaries(segs + [seg])) == multiset(Summaries(segs)) + multiset{Summary(seg)}
  {
    assert (segs + [seg])[..|segs|] == segs;
    BagPush(Summaries(segs), Summary(seg));
  }

  /** The last segment of a key. */
  function LastSeg(rows: seq<Row>, key: Keying, k: string): Seg
    requires Sub(rows, key, k) != []
  {
    var segs := Segments(Sub(rows, key, k));
    segs[|segs| - 1]
  }

  /** Whether a row joins the burst its key has going. */
  predicate Extends(rows: seq<Row>, r: Row, key: Keying) {
    key(r) != "" && var sub := Sub(rows, key, key(r)); sub != [] && Continues(sub[|sub| - 1], r)
  }

  /** A row that joins a burst changes that burst's last segment... */
  lemma LastSegExtend(rows: seq<Row>, r: Row, key: Keying)
    requires Extends(rows, r, key)
    ensures Sub(rows + [r], key, key(r)) != []
    ensures LastSeg(rows + [r], key, key(r)) == LastSeg(rows, key, key(r)).With(r)
  {
    SubAppend(rows, r, key, key(r));
    SegmentsAppend(Sub(rows, key, key(r)), r);
  }

  /** ... and its summary, and nothing else. */
  lemma FoldedExtend(rows: seq<Row>, r: Row, key: Keying) returns (rest: multiset<Row>)
    requires Extends(rows, r, key)
    ensures var seg := LastSeg(rows, key, key(r));
            && Folded(rows, key) == rest + multiset{Summary(seg)}
            && Folded(rows + [r], key) == rest + multiset{Summary(seg.With(r))}
  {
    hide KeyBag, Others, Folded, Sub, Segments, Summaries, Summary;
    var k := key(r);
    var sub := Sub(rows, key, k);
    var segs := Segments(sub);
    var init, last := segs[..|segs| - 1], segs[|segs| - 1];
    SubAppend(rows, r, key, k);
    SegmentsAppend(sub, r);
    OthersAppend(rows, r, key);
    FoldedSplit(rows, key, k);
    FoldedSplit(rows + [r], key, k);
    assert segs == init + [last];
    SummariesPush(init, last);
    SummariesPush(init, last.With(r));
    rest := Others(rows, key, k) + multiset(Summaries(init));
  }

  lemma LastSegOpen(rows: seq<Row>, r: Row, key: Keying)
    requires key(r) != "" && !Extends(rows, r, key)
    ensures Sub(rows + [r], key, key(r)) != []
    ensures LastSeg(rows + [r], key, key(r)) == Seg(r, [])
  {
    SubAppend(rows, r, key, key(r));
    SegmentsAppend(Sub(rows, key, key(r)), r);
  }

  /** Any other row adds a row of its own to be shown. */
  lemma FoldedNew(rows: seq<Row>, r: Row, key: Keying)
    requires !Extends(rows, r, key)
    ensures Folded(rows + [r], key) == Folded(rows, key) + multiset{r}
  {
    if key(r) == "" {
      FoldedAppendPlain(rows, r, key);
    } else {
      hide KeyBag, Others, Folded, Sub;
      var k := key(r);
      var sub := Sub(rows, key, k);
      SubAppend(rows, r, key, k);
      SegmentsAppend(sub, r);
      OthersAppend(rows, r, key);
      FoldedSplit(rows, key, k);
      FoldedSplit(rows + [r], key, k);
      SummariesPush(Segments(sub), Seg(r, []));
    }
  }

  lemma FoldedNothing(key: Keying)
    ensures Folded([], key) == multiset{}
  {
    assert Keys([], key) == {};
  }

  /** The earliest row shown has the time of the first row. */
  lemma {:induction false} FoldedStart(rows: seq<Row>, key: Keying) returns (first: Row)
    requires rows != [] && Sorted(rows)
    ensures first in Folded(rows, key) && first.Ts() == rows[0].Ts()
    ensures forall x :: x in Folded(rows, key) ==> rows[0].Ts() <= x.Ts()
  {
    hide Folded, Extends;
    var init, r := rows[..|rows| - 1], rows[|rows| - 1];
    assert rows == init + [r];
    if init == [] {
      FoldedNothing(key);
      NothingExtends(r, key);
      FoldedNew([], r, key);
      first := r;
    } else {
      first := FoldedStart(init, key);
      if Extends(init, r, key) {
        var rest, was, now := SummaryGrows(init, r, key);
        if first == was {
          first := now;
        }
      } else {
        FoldedNew(init, r, key);
      }
    }
  }

  lemma SummaryGrows(rows: seq<Row>, r: Row, key: Keying) returns (rest: multiset<Row>, was: Row, now: Row)
    requires Extends(rows, r, key)
    ensures Folded(rows, key) == rest + multiset{was} && Folded(rows + [r], key) == rest + multiset{now}
    ensures was.Ts() == now.Ts()
  {
    hide Folded;
    rest := FoldedExtend(rows, r, key);
    var seg := LastSeg(rows, key, key(r));
    was, now := Summary(seg), Summary(seg.With(r));
  }

  lemma NothingExtends(r: Row, key: Keying)
    ensures !Extends([], r, key)
  {
  }

  // ---------- conservation ----------

  /** How many records a row stands for. */
  function Count(r: Row): int {
    if r.burst.Some? then r.burst.value.count else 1
  }

  function TotalSeq(rows: seq<Row>): int {
    if rows == [] then 0 else TotalSeq(rows[..|rows| - 1]) + Count(rows[|rows| - 1])
  }

  ghost function Total(bag: multiset<Row>): int {
    if bag == multiset{} then 0
    else
      var r :| r in bag;
      Count(r) + Total(bag - multiset{r})
  }

  lemma TotalSome(bag: multiset<Row>) returns (r: Row)
    requires bag != multiset{}
    ensures r in bag && Total(bag) == Count(r) + Total(bag - multiset{r})
  {
    hide Count;
    r :| r in bag && Total(bag) == Count(r) + Total(bag - multiset{r});
  }

  lemma {:induction false} TotalTake(bag: multiset<Row>, r: Row)
    requires r in bag
    ensures Total(bag) == Count(r) + Total(bag - multiset{r})
    decreases |bag|
  {
    hide Total, Count;
    var q := TotalSome(bag);
    if q != r {
      TotalTake(bag - multiset{q}, r);
      TotalTake(bag - multiset{r}, q);
      TakeBoth(bag, q, r);
    }
  }

  lemma TakeBoth<T>(bag: multiset<T>, q: T, r: T)
    ensures bag - multiset{q} - multiset{r} == bag - multiset{r} - multiset{q}
  {
  }

  lemma TotalAdd(bag: multiset<Row>, r: Row)
    ensures Total(bag + multiset{r}) == Total(bag) + Count(r)
  {
    TotalTake(bag + multiset{r}, r);
    assert bag + multiset{r} - multiset{r} == bag;
  }

  /** The total does not depend on the order. */
  lemma {:induction false} TotalOfSeq(rows: seq<Row>)
    ensures Total(multiset(rows)) == TotalSeq(rows)
  {
    if rows != [] {
      var n := |rows| - 1;
      assert rows == rows[..n] + [rows[n]];
      TotalOfSeq(rows[..n]);
      BagPush(rows[..n], rows[n]);
      TotalAdd(multiset(rows[..n]), rows[n]);
    }
  }

  /** Rows as they come from the store: none stands for a burst yet. */
  ghost predicate Unfolded(rows: seq<Row>) {
    forall i :: 0 <= i < |rows| ==> rows[i].burst.None?
  }

  /** No record is lost or counted twice. */
  lemma {:induction false} CountsAddUp(rows: seq<Row>, key: Keying)
    requires Unfolded(rows)
    ensures Total(Folded(rows, key)) == |rows|
  {
    if rows == [] {
      FoldedNothing(key);
    } else {
      var n := |rows| - 1;
      var p, r := rows[..n], rows[n];
      assert rows == p + [r];
      CountsAddUp(p, key);
      if Extends(p, r, key) {
        ExtendCounts(p, r, key);
      } else {
        FoldedNew(p, r, key);
        TotalAdd(Folded(p, key), r);
      }
    }
  }

  lemma ExtendCounts(p: seq<Row>, r: Row, key: Keying)
    requires Unfolded(p) && Extends(p, r, key)
    ensures Total(Folded(p + [r], key)) == Total(Folded(p, key)) + 1
  {
    hide Folded, Total;
    var seg := LastSeg(p, key, key(r));
    var rest := FoldedExtend(p, r, key);
    TotalAdd(rest, Summary(seg));
    TotalAdd(rest, Summary(seg.With(r)));
    SubUnfolded(p, key, key(r));
    SegmentHead(Sub(p, key, key(r)));
    assert Count(Summary(seg)) == seg.Size();
  }

  /** The last segment starts with a row of the sequence. */
  lemma {:induction false} SegmentHead(sub: seq<Row>)
    requires sub != []
    ensures Segments(sub)[|Segments(sub)| - 1].head in sub
  {
    var n := |sub| - 1;
    var p, r := sub[..n], sub[n];
    assert sub == p + [r];
    SegmentsAppend(p, r);
    if n > 0 && Continues(p[n - 1], r) {
      SegmentHead(p);
    }
  }
}
