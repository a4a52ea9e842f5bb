/** CollapseRows: one pass over the rows with a map of open bursts. */
module Collapse {
  import opened Records
  import opened CollapseKey
  import opened CollapseSpec
  import opened CollapseOrder

  datatype Pending = Pending(head: Row, count: nat, lastSeen: int, window: int, memberIDs: seq<int>)

  /** finalizeBurst. */
  function Finalize(b: Pending): Row {
    if b.count <= 1 then b.head
    else b.head.(burst := Some(Burst(b.count, b.lastSeen - b.head.Ts(), b.lastSeen, b.memberIDs)))
  }

  predicate Expired(b: Pending, now: int) {
    now - b.lastSeen > b.window
  }

  // ---------- open bursts as segments ----------

  function PendingOf(seg: Seg): Pending {
    Pending(seg.head, seg.Size(), seg.Last().Ts(), Window(seg.head), MemberIDs(seg.rest))
  }

  lemma FinalizeIsSummary(seg: Seg)
    ensures Finalize(PendingOf(seg)) == Summary(seg)
  {
  }

  /** How the code adds a row to a burst. */
  function Grow(b: Pending, r: Row): Pending {
    Pending(b.head, b.count + 1, r.Ts(), b.window,
            if |b.memberIDs| < BURST_MEMBER_CAP then b.memberIDs + [r.Id()] else b.memberIDs)
  }

  lemma GrowIsWith(seg: Seg, r: Row)
    ensures Grow(PendingOf(seg), r) == PendingOf(seg.With(r))
  {
    var a, b := MemberIDs(seg.rest), MemberIDs(seg.rest + [r]);
    if |seg.rest| < BURST_MEMBER_CAP {
      assert b == a + [r.Id()];
    } else {
      assert b == a;
    }
  }

  // ---------- the rows the open bursts stand for ----------

  type Bursts = map<string, Pending>

  ghost function Bag(open: Bursts): multiset<Row> {
    if open == map[] then multiset{}
    else
      var k :| k in open;
      multiset{Finalize(open[k])} + Bag(open - {k})
  }

  lemma MinusTwo(open: Bursts, j: string, k: string)
    ensures open - {j} - {k} == open - {k} - {j}
  {
  }

  /** Some burst can be taken out first. */
  lemma BagSome(open: Bursts) returns (j: string)
    requires open != map[]
    ensures j in open && Bag(open) == multiset{Finalize(open[j])} + Bag(open - {j})
  {
    j :| j in open && Bag(open) == multiset{Finalize(open[j])} + Bag(open - {j});
  }

  /** Any burst can be taken out first. */
  lemma {:induction false} BagTake(open: Bursts, k: string)
    requires k in open
    ensures Bag(open) == multiset{Finalize(open[k])} + Bag(open - {k})
    decreases |open|
  {
    var j := BagSome(open);
    if j != k {
      BagTake(open - {j}, k);
      BagTake(open - {k}, j);
      MinusTwo(open, j, k);
      SwapAdd(multiset{Finalize(open[j])}, multiset{Finalize(open[k])}, Bag(open - {j} - {k}));
    }
  }

  lemma BagAdd(open: Bursts, k: string, b: Pending)
    requires k !in open
    ensures Bag(open[k := b]) == Bag(open) + multiset{Finalize(b)}
  {
    BagTake(open[k := b], k);
    assert open[k := b] - {k} == open;
  }

  lemma {:induction false} BagSplit(open: Bursts, gone: set<string>)
    ensures Bag(open) == Bag(Restrict(open, gone)) + Bag(open - gone)
    decreases |gone|
  {
    if gone == {} {
      assert open - gone == open && Restrict(open, gone) == map[];
    } else {
      var k :| k in gone;
      BagSplit(open, gone - {k});
      BagMove(open, gone - {k}, k);
      assert gone - {k} + {k} == gone;
    }
  }

  /** Moving one key from the kept side to the other. */
  lemma BagMove(open: Bursts, gone: set<string>, k: string)
    requires k !in gone
    ensures Bag(Restrict(open, gone + {k})) + Bag(open - (gone + {k})) == Bag(Restrict(open, gone)) + Bag(open - gone)
  {
    if k in open {
      BagTake(open - gone, k);
      MinusMore(open, gone, k);
      BagAdd(Restrict(open, gone), k, open[k]);
      Shift(Bag(Restrict(open, gone)), Bag(open - (gone + {k})), Finalize(open[k]));
    } else {
      MinusMore(open, gone, k);
    }
  }

  lemma MinusMore(open: Bursts, gone: set<string>, k: string)
    requires k !in gone
    ensures k in open ==> open - gone - {k} == open - (gone + {k})
    ensures k in open ==> Restrict(open, gone + {k}) == Restrict(open, gone)[k := open[k]]
    ensures k !in open ==> open - (gone + {k}) == open - gone && Restrict(open, gone + {k}) == Restrict(open, gone)
  {
  }

  lemma Shift<T>(a: multiset<T>, b: multiset<T>, x: T)
    ensures (a + multiset{x}) + b == a + (multiset{x} + b)
  {
  }

  function Restrict(open: Bursts, ks: set<string>): Bursts {
    map k | k in open && k in ks :: open[k]
  }

  // ---------- sorting the expired bursts ----------

  function Head(b: Pending): int {
    b.head.Ts()
  }

  ghost predicate ByHead(bs: seq<Pending>) {
    forall i, j :: 0 <= i < j < |bs| ==> Head(bs[i]) <= Head(bs[j])
  }

  function FinalizeAll(bs: seq<Pending>): (rows: seq<Row>)
    ensures |rows| == |bs| && forall i :: 0 <= i < |bs| ==> rows[i] == Finalize(bs[i])
  {
    seq(|bs|, i requires 0 <= i < |bs| => Finalize(bs[i]))
  }

  lemma FinalizePush(bs: seq<Pending>, b: Pending)
    ensures FinalizeAll(bs + [b]) == FinalizeAll(bs) + [Finalize(b)]
  {
  }

  /** Puts a burst after all that are not younger. */
  function Insert(bs: seq<Pending>, b: Pending): seq<Pending> {
    if bs == [] || Head(bs[|bs| - 1]) <= Head(b) then bs + [b]
    else Insert(bs[..|bs| - 1], b) + [bs[|bs| - 1]]
  }

  lemma {:induction false} InsertKeeps(bs: seq<Pending>, b: Pending)
    requires ByHead(bs)
    ensures ByHead(Insert(bs, b)) && (forall x :: x in Insert(bs, b) <==> x == b || x in bs)
    ensures multiset(FinalizeAll(Insert(bs, b))) == multiset(FinalizeAll(bs)) + multiset{Finalize(b)}
  {
    FinalizePush(bs, b);
    if bs != [] && Head(bs[|bs| - 1]) > Head(b) {
      var init, last := bs[..|bs| - 1], bs[|bs| - 1];
      assert bs == init + [last];
      InsertKeeps(init, b);
      FinalizePush(init, last);
      FinalizePush(Insert(init, b), last);
      PushLast(Insert(init, b), last);
    } else {
      PushLast(bs, b);
    }
  }

  lemma PushLast(bs: seq<Pending>, b: Pending)
    requires ByHead(bs) && forall x :: x in bs ==> Head(x) <= Head(b)
    ensures ByHead(bs + [b])
  {
  }

  /** sort.SliceStable by head time. */
  function SortByHead(bs: seq<Pending>): seq<Pending> {
    if bs == [] then [] else Insert(SortByHead(bs[..|bs| - 1]), bs[|bs| - 1])
  }

  lemma {:induction false} SortKeeps(bs: seq<Pending>)
    ensures ByHead(SortByHead(bs)) && (forall x :: x in SortByHead(bs) <==> x in bs)
    ensures multiset(FinalizeAll(SortByHead(bs))) == multiset(FinalizeAll(bs))
  {
    if bs != [] {
      var init, last := bs[..|bs| - 1], bs[|bs| - 1];
      assert bs == init + [last];
      SortKeeps(init);
      InsertKeeps(SortByHead(init), last);
      FinalizePush(init, last);
    }
  }

  // ---------- flushing ----------

  /** The keys of the bursts to close. */
  function Leaving(open: Bursts, now: int, force: bool): set<string> {
    set k | k in open && (force || Expired(open[k], now))
  }

  ghost function Times(rows: seq<Row>): set<int> {
    set i | 0 <= i < |rows| :: rows[i].Ts()
  }

  ghost function Heads(open: Bursts): set<int> {
    set k | k in open :: Head(open[k])
  }

  /** The rows a flush shows: one for each burst, oldest head first. */
  ghost predicate Flushes(flushed: seq<Row>, bursts: Bursts) {
    Sorted(flushed) && multiset(flushed) == Bag(bursts) && Times(flushed) == Heads(bursts)
  }

  /** The list holds the bursts of the map, each once. */
  ghost predicate Lists(bs: seq<Pending>, bursts: Bursts) {
    multiset(FinalizeAll(bs)) == Bag(bursts) && forall b :: b in bs <==> b in bursts.Values
  }

  lemma ListsNone(open: Bursts)
    ensures Lists([], Restrict(open, {}))
  {
    assert Restrict(open, {}) == map[];
  }

  lemma ListsAdd(bs: seq<Pending>, bursts: Bursts, k: string, b: Pending)
    requires Lists(bs, bursts) && k !in bursts
    ensures Lists(bs + [b], bursts[k := b])
  {
    BagAdd(bursts, k, b);
    FinalizePush(bs, b);
    ValuesAdd(bursts, k, b);
  }

  /** flushExpired. The bursts are met in any order, as a Go map gives them. */
  method FlushExpired(open: Bursts, now: int, force: bool) returns (flushed: seq<Row>, left: Bursts)
    ensures Flushes(flushed, Restrict(open, Leaving(open, now, force)))
    ensures left == open - Leaving(open, now, force)
  {
    hide Bag, FinalizeAll;
    var expired, keys := [], {};
    var todo := open.Keys;
    ListsNone(open);
    while todo != {}
      invariant todo <= open.Keys && keys == Leaving(open, now, force) - todo
      invariant Lists(expired, Restrict(open, keys))
      decreases todo
    {
      var k :| k in todo;
      if force || Expired(open[k], now) {
        ListsAdd(expired, Restrict(open, keys), k, open[k]);
        MinusMore(open, keys, k);
        expired := expired + [open[k]];
        keys := keys + {k};
      }
      todo := todo - {k};
    }
    assert keys == Leaving(open, now, force);
    var sorted := SortByHead(expired);
    SortKeeps(expired);
    SortedRows(sorted, Restrict(open, keys));
    flushed := FinalizeAll(sorted);
    left := open - keys;
  }

  lemma ValuesAdd(open: Bursts, k: string, b: Pending)
    requires k !in open
    ensures open[k := b].Values == open.Values + {b}
  {
    var after := open[k := b];
    assert k in after;
    forall x | x in open.Values
      ensures x in after.Values
    {
      var j :| j in open && open[j] == x;
      assert after[j] == x;
    }
  }

  lemma SortedRows(sorted: seq<Pending>, taken: Bursts)
    requires ByHead(sorted) && forall b :: b in sorted <==> b in taken.Values
    ensures Sorted(FinalizeAll(sorted)) && Times(FinalizeAll(sorted)) == Heads(taken)
  {
    var rows := FinalizeAll(sorted);
    assert forall i :: 0 <= i < |rows| ==> rows[i].Ts() == Head(sorted[i]);
    forall t | t in Times(rows)
      ensures t in Heads(taken)
    {
      var i :| 0 <= i < |rows| && rows[i].Ts() == t;
      assert sorted[i] in taken.Values;
    }
    forall t | t in Heads(taken)
      ensures t in Times(rows)
    {
      var k :| k in taken && Head(taken[k]) == t;
      assert taken[k] in sorted;
      var i :| 0 <= i < |sorted| && sorted[i] == taken[k];
      assert rows[i].Ts() == t;
    }
  }

  // ---------- what the map holds ----------

  ghost predicate KeyOk(open: Bursts, rows: seq<Row>, key: Keying, k: string) {
    (k in open <==> Held(rows, key, k)) && (k in open ==> open[k] == PendingOf(LastSeg(rows, key, k)))
  }

  /** The map holds exactly the bursts that are open after these rows. */
  ghost predicate OpenOk(open: Bursts, rows: seq<Row>, key: Keying) {
    forall k :: KeyOk(open, rows, key, k)
  }

  lemma GrowLast(b: Pending, rows: seq<Row>, r: Row, key: Keying)
    requires Extends(rows, r, key) && b == PendingOf(LastSeg(rows, key, key(r)))
    ensures Sub(rows + [r], key, key(r)) != []
    ensures Grow(b, r) == PendingOf(LastSeg(rows + [r], key, key(r)))
  {
    LastSegExtend(rows, r, key);
    GrowIsWith(LastSeg(rows, key, key(r)), r);
  }

  lemma OpenExtend(open: Bursts, rows: seq<Row>, r: Row, key: Keying)
    requires KeyingOk(key) && InTime(rows, r, key) && OpenOk(open, rows, key) && Extends(rows, r, key)
    ensures key(r) in open && OpenOk(open[key(r) := Grow(open[key(r)], r)], rows + [r], key)
  {
    ExtendsHeld(rows, r, key);
    assert KeyOk(open, rows, key, key(r));
    var after := open[key(r) := Grow(open[key(r)], r)];
    forall k
      ensures KeyOk(after, rows + [r], key, k)
    {
      assert KeyOk(open, rows, key, k);
      HeldExtend(rows, r, key, k);
      if k == key(r) {
        GrowLast(open[k], rows, r, key);
      }
    }
  }

  /** What a row that joins a burst does to the sum. */
  lemma FoldedGrowth(rows: seq<Row>, r: Row, key: Keying, b: Pending) returns (rest: multiset<Row>)
    requires Extends(rows, r, key) && b == PendingOf(LastSeg(rows, key, key(r)))
    ensures Folded(rows, key) == rest + multiset{Finalize(b)}
    ensures Folded(rows + [r], key) == rest + multiset{Finalize(Grow(b, r))}
  {
    var seg := LastSeg(rows, key, key(r));
    rest := FoldedExtend(rows, r, key);
    FinalizeIsSummary(seg);
    FinalizeIsSummary(seg.With(r));
    GrowIsWith(seg, r);
  }

  lemma BagReplace(shown: multiset<Row>, open: Bursts, k: string, b: Pending, rest: multiset<Row>)
    requires k in open && shown + Bag(open) == rest + multiset{Finalize(open[k])}
    ensures shown + Bag(open[k := b]) == rest + multiset{Finalize(b)}
  {
    hide Bag;
    BagTake(open, k);
    BagTake(open[k := b], k);
    assert open[k := b] - {k} == open - {k};
    Exchange(shown, Bag(open - {k}), rest, Finalize(open[k]), Finalize(b));
  }

  lemma Exchange<T>(a: multiset<T>, b: multiset<T>, c: multiset<T>, x: T, y: T)
    requires a + (multiset{x} + b) == c + multiset{x}
    ensures a + (multiset{y} + b) == c + multiset{y}
  {
    assert a + b == a + (multiset{x} + b) - multiset{x};
    assert c == c + multiset{x} - multiset{x};
  }

  /** A burst in the map expires exactly when its key's last row is out of its window. */
  lemma ExpiredIsLeaving(open: Bursts, rows: seq<Row>, key: Keying, k: string, now: int)
    requires KeyingOk(key) && KeyOk(open, rows, key, k)
    ensures k in Leaving(open, now, false) <==> Leaves(rows, key, k, now)
    ensures k in open && k !in Leaving(open, now, false) <==> Stays(rows, key, k, now)
    ensures k in open ==> Head(open[k]) == HeadTime(rows, key, k)
  {
    if k in open {
      var sub := Sub(rows, key, k);
      SegmentHead(sub);
      LastSegEnd(sub);
      SubKey(rows, key, k);
      assert key(LastSeg(rows, key, k).head) == k && key(sub[|sub| - 1]) == k;
    }
  }

  /** What a row that joins no burst leaves in the map. */
  function AfterRow(left: Bursts, r: Row, key: Keying): Bursts {
    if key(r) == "" then left else left[key(r) := PendingOf(Seg(r, []))]
  }

  lemma OpenFlush(open: Bursts, rows: seq<Row>, r: Row, key: Keying)
    requires KeyingOk(key) && InTime(rows, r, key) && OpenOk(open, rows, key) && !Extends(rows, r, key)
    ensures var left := open - Leaving(open, r.Ts(), false);
            key(r) !in left && OpenOk(AfterRow(left, r, key), rows + [r], key)
  {
    var left := open - Leaving(open, r.Ts(), false);
    forall k
      ensures k == key(r) ==> k !in left
      ensures KeyOk(AfterRow(left, r, key), rows + [r], key, k)
    {
      OpenFlushKey(open, rows, r, key, k);
    }
  }

  lemma OpenFlushKey(open: Bursts, rows: seq<Row>, r: Row, key: Keying, k: string)
    requires KeyingOk(key) && InTime(rows, r, key) && KeyOk(open, rows, key, k) && !Extends(rows, r, key)
    ensures var left := open - Leaving(open, r.Ts(), false);
            (k == key(r) ==> k !in left) && KeyOk(AfterRow(left, r, key), rows + [r], key, k)
  {
    HeldFlush(rows, r, key, k);
    ExpiredIsLeaving(open, rows, key, k, r.Ts());
    if k == key(r) && k != "" {
      LastSegOpen(rows, r, key);
    }
  }

  lemma BagFlush(out: seq<Row>, flushed: seq<Row>, open: Bursts, gone: set<string>)
    requires multiset(flushed) == Bag(Restrict(open, gone))
    ensures multiset(out + flushed) + Bag(open - gone) == multiset(out) + Bag(open)
  {
    BagSplit(open, gone);
    assert multiset(out + flushed) == multiset(out) + multiset(flushed);
  }

  lemma BagAfterRow(shown: seq<Row>, left: Bursts, r: Row, key: Keying)
    requires key(r) !in left
    ensures multiset(shown + Plain(r, key)) + Bag(AfterRow(left, r, key)) == multiset(shown) + Bag(left) + multiset{r}
  {
    if key(r) == "" {
      assert multiset(shown + [r]) == multiset(shown) + multiset{r};
    } else {
      BagAdd(left, key(r), PendingOf(Seg(r, [])));
      assert Finalize(PendingOf(Seg(r, []))) == r;
      assert shown + [] == shown;
    }
  }

  /** A row without a key is shown at once. */
  function Plain(r: Row, key: Keying): seq<Row> {
    if key(r) == "" then [r] else []
  }

  // ---------- the order of what is shown ----------

  ghost predicate AllAtMost(a: set<int>, b: set<int>) {
    forall x, y :: x in a && y in b ==> x <= y
  }

  /** Shown rows are in order and no open burst is older than a shown row. */
  ghost predicate InOrder(out: seq<Row>, open: Bursts) {
    Sorted(out) && AllAtMost(Times(out), Heads(open))
  }

  lemma AtTime(rows: seq<Row>, t: int) returns (i: nat)
    requires t in Times(rows)
    ensures i < |rows| && rows[i].Ts() == t
  {
    i :| 0 <= i < |rows| && rows[i].Ts() == t;
  }

  lemma IsTime(rows: seq<Row>, i: nat)
    requires i < |rows|
    ensures rows[i].Ts() in Times(rows)
  {
  }

  lemma TimesConcat(a: seq<Row>, b: seq<Row>)
    ensures Times(a + b) == Times(a) + Times(b)
  {
    var all := a + b;
    forall t | t in Times(a) + Times(b)
      ensures t in Times(all)
    {
      if t in Times(a) {
        var i := AtTime(a, t);
        assert all[i].Ts() == t;
      } else {
        var i := AtTime(b, t);
        assert all[|a| + i].Ts() == t;
      }
    }
    forall t | t in Times(all)
      ensures t in Times(a) + Times(b)
    {
      var i := AtTime(all, t);
      if i < |a| {
        IsTime(a, i);
      } else {
        IsTime(b, i - |a|);
      }
    }
  }

  lemma SortedConcat(a: seq<Row>, b: seq<Row>)
    ensures Times(a + b) == Times(a) + Times(b)
    ensures Sorted(a + b) <==> Sorted(a) && Sorted(b) && AllAtMost(Times(a), Times(b))
  {
    TimesConcat(a, b);
    var all := a + b;
    hide Times;
    assert forall i :: 0 <= i < |a| ==> all[i] == a[i];
    assert forall i :: 0 <= i < |b| ==> all[|a| + i] == b[i];
    if Sorted(all) {
      forall x, y | x in Times(a) && y in Times(b)
        ensures x <= y
      {
        var i := AtTime(a, x);
        var j := AtTime(b, y);
        assert all[i].Ts() <= all[|a| + j].Ts();
      }
    }
    if Sorted(a) && Sorted(b) && AllAtMost(Times(a), Times(b)) {
      forall i, j | 0 <= i < j < |all|
        ensures all[i].Ts() <= all[j].Ts()
      {
        if i < |a| <= j {
          IsTime(a, i);
          IsTime(b, j - |a|);
        }
      }
    }
  }

  lemma HeadsSplit(open: Bursts, gone: set<string>)
    ensures Heads(open) == Heads(Restrict(open, gone)) + Heads(open - gone)
  {
    forall t | t in Heads(open)
      ensures t in Heads(Restrict(open, gone)) + Heads(open - gone)
    {
      var k :| k in open && Head(open[k]) == t;
      if k in gone {
        assert Head(Restrict(open, gone)[k]) == t;
      } else {
        assert Head((open - gone)[k]) == t;
      }
    }
  }

  /** Showing the bursts that leave keeps the order exactly when none of them is younger than one that stays. */
  lemma OrderFlush(out: seq<Row>, flushed: seq<Row>, open: Bursts, gone: set<string>)
    requires Flushes(flushed, Restrict(open, gone))
    ensures InOrder(out + flushed, open - gone)
            <==> InOrder(out, open) && AllAtMost(Heads(Restrict(open, gone)), Heads(open - gone))
  {
    SortedConcat(out, flushed);
    HeadsSplit(open, gone);
  }

  lemma HeadsAdd(left: Bursts, k: string, b: Pending)
    requires k !in left
    ensures Heads(left[k := b]) == Heads(left) + {Head(b)}
  {
    var after := left[k := b];
    assert k in after && after[k] == b;
    forall t | t in Heads(left)
      ensures t in Heads(after)
    {
      var j :| j in left && Head(left[j]) == t;
      assert Head(after[j]) == t;
    }
  }

  lemma OrderAfterRow(shown: seq<Row>, left: Bursts, r: Row, key: Keying)
    requires key(r) !in left && AllAtMost(Times(shown), {r.Ts()})
    ensures InOrder(shown + Plain(r, key), AfterRow(left, r, key))
            <==> InOrder(shown, left) && (key(r) == "" ==> AllAtMost({r.Ts()}, Heads(left)))
  {
    if key(r) == "" {
      SortedConcat(shown, [r]);
      assert Times([r]) == {r.Ts()} by {
        assert [r][0].Ts() in Times([r]);
      }
      assert Sorted([r]);
    } else {
      HeadsAdd(left, key(r), PendingOf(Seg(r, [])));
      assert shown + [] == shown;
    }
  }

  /** The condition on the rows, read off the map. */
  lemma OrderlyIsOrder(open: Bursts, rows: seq<Row>, r: Row, key: Keying)
    requires KeyingOk(key) && OpenOk(open, rows, key)
    ensures var gone := Leaving(open, r.Ts(), false);
            Orderly(rows, r, key) <==> AllAtMost(Heads(Restrict(open, gone)), Heads(open - gone))
                                       && (key(r) == "" ==> AllAtMost({r.Ts()}, Heads(open - gone)))
  {
    var now := r.Ts();
    var gone := Leaving(open, now, false);
    var leaving, left := Restrict(open, gone), open - gone;
    forall k
      ensures k in leaving <==> Leaves(rows, key, k, now)
      ensures k in left <==> Stays(rows, key, k, now)
      ensures k in leaving ==> Head(leaving[k]) == HeadTime(rows, key, k)
      ensures k in left ==> Head(left[k]) == HeadTime(rows, key, k)
    {
      assert KeyOk(open, rows, key, k);
      ExpiredIsLeaving(open, rows, key, k, now);
    }
    HeadsOf(leaving);
    HeadsOf(left);
    PairsOf(leaving, left);
    assert (forall k, j :: Leaves(rows, key, k, now) && Stays(rows, key, j, now)
                           ==> HeadTime(rows, key, k) <= HeadTime(rows, key, j))
           <==> (forall k, j :: k in leaving && j in left ==> Head(leaving[k]) <= Head(left[j]));
  }

  lemma HeadsOf(open: Bursts)
    ensures forall t :: AllAtMost({t}, Heads(open)) <==> forall k :: k in open ==> t <= Head(open[k])
  {
    forall t
      ensures AllAtMost({t}, Heads(open)) <==> forall k :: k in open ==> t <= Head(open[k])
    {
      if AllAtMost({t}, Heads(open)) {
        forall k | k in open
          ensures t <= Head(open[k])
        {
          assert t in {t} && Head(open[k]) in Heads(open);
        }
      }
    }
  }

  lemma PairsOf(a: Bursts, b: Bursts)
    ensures AllAtMost(Heads(a), Heads(b)) <==> forall k, j :: k in a && j in b ==> Head(a[k]) <= Head(b[j])
  {
    if AllAtMost(Heads(a), Heads(b)) {
      forall k, j | k in a && j in b
        ensures Head(a[k]) <= Head(b[j])
      {
        assert Head(a[k]) in Heads(a) && Head(b[j]) in Heads(b);
      }
    }
  }

  // ---------- what is shown when ----------

  /** The bursts that leave when a row arrives at `now` and joins none. */
  ghost function Closing(rows: seq<Row>, key: Keying, now: int): Bursts {
    map k | k in Keys(rows, key) && Leaves(rows, key, k, now) :: PendingOf(LastSeg(rows, key, k))
  }

  /** The bursts that are still open after these rows. */
  ghost function StillOpen(rows: seq<Row>, key: Keying): Bursts {
    map k | k in Keys(rows, key) && Held(rows, key, k) :: PendingOf(LastSeg(rows, key, k))
  }

  /** What has been shown after these rows: for each row that joins no burst, the bursts it closes, oldest head
      first, and then the row itself if it never folds. */
  ghost predicate Emits(out: seq<Row>, rows: seq<Row>, key: Keying)
    decreases |rows|
  {
    if rows == [] then out == []
    else
      var init, r := rows[..|rows| - 1], rows[|rows| - 1];
      if Extends(init, r, key) then Emits(out, init, key)
      else exists before, flushed ::
             && Emits(before, init, key) && Flushes(flushed, Closing(init, key, r.Ts()))
             && out == before + flushed + Plain(r, key)
  }

  /** The whole output: at the end the open bursts follow, oldest head first. */
  ghost predicate Output(out: seq<Row>, rows: seq<Row>, key: Keying) {
    exists before, flushed ::
      Emits(before, rows, key) && Flushes(flushed, StillOpen(rows, key)) && out == before + flushed
  }

  lemma HeldKey(rows: seq<Row>, key: Keying, k: string)
    requires Held(rows, key, k)
    ensures k in Keys(rows, key)
  {
    if k !in Keys(rows, key) {
      SubEmpty(rows, key, k);
    }
  }

  lemma OpenIsStillOpen(open: Bursts, rows: seq<Row>, key: Keying)
    requires OpenOk(open, rows, key)
    ensures open == StillOpen(rows, key)
  {
    hide Segments, Keys, FlushTime, Sub;
    forall k
      ensures k in open <==> k in Keys(rows, key) && Held(rows, key, k)
      ensures k in open ==> open[k] == PendingOf(LastSeg(rows, key, k))
    {
      assert KeyOk(open, rows, key, k);
      if Held(rows, key, k) {
        HeldKey(rows, key, k);
      }
    }
  }

  lemma LeavingIsClosing(open: Bursts, rows: seq<Row>, key: Keying, now: int)
    requires KeyingOk(key) && OpenOk(open, rows, key)
    ensures Restrict(open, Leaving(open, now, false)) == Closing(rows, key, now)
  {
    hide Segments, Keys, FlushTime, Sub;
    var taken := Restrict(open, Leaving(open, now, false));
    forall k
      ensures k in taken <==> k in Keys(rows, key) && Leaves(rows, key, k, now)
      ensures k in taken ==> taken[k] == PendingOf(LastSeg(rows, key, k))
    {
      assert KeyOk(open, rows, key, k);
      ExpiredIsLeaving(open, rows, key, k, now);
      if Held(rows, key, k) {
        HeldKey(rows, key, k);
      }
    }
  }

  lemma EmitsExtend(out: seq<Row>, rows: seq<Row>, r: Row, key: Keying)
    requires Emits(out, rows, key) && Extends(rows, r, key)
    ensures Emits(out, rows + [r], key)
  {
    assert (rows + [r])[..|rows|] == rows;
  }

  lemma EmitsFlush(out: seq<Row>, flushed: seq<Row>, open: Bursts, rows: seq<Row>, r: Row, key: Keying)
    requires KeyingOk(key) && OpenOk(open, rows, key) && Emits(out, rows, key) && !Extends(rows, r, key)
    requires Flushes(flushed, Restrict(open, Leaving(open, r.Ts(), false)))
    ensures Emits(out + flushed + Plain(r, key), rows + [r], key)
  {
    LeavingIsClosing(open, rows, key, r.Ts());
    hide Flushes, Closing, Extends, Plain;
    assert (rows + [r])[..|rows|] == rows;
  }

  // ---------- the invariant of the pass ----------

  ghost predicate PassOk(out: seq<Row>, open: Bursts, rows: seq<Row>, key: Keying) {
    && OpenOk(open, rows, key) && Emits(out, rows, key)
    && multiset(out) + Bag(open) == Folded(rows, key)
    && (InOrder(out, open) <==> NoOvertaking(rows, key))
    && (rows == [] ==> Times(out) + Heads(open) == {})
    && (rows != [] ==> AllAtMost(Times(out) + Heads(open), {rows[|rows| - 1].Ts()}))
  }

  /** A row joins its key's burst. */
  lemma PassExtend(out: seq<Row>, open: Bursts, rows: seq<Row>, r: Row, key: Keying)
    requires KeyingOk(key) && InTime(rows, r, key) && PassOk(out, open, rows, key) && Extends(rows, r, key)
    ensures key(r) in open && PassOk(out, open[key(r) := Grow(open[key(r)], r)], rows + [r], key)
  {
    hide Folded, Bag, FlushTime, Emits;
    EmitsExtend(out, rows, r, key);
    OpenExtend(open, rows, r, key);
    assert KeyOk(open, rows, key, key(r));
    var rest := FoldedGrowth(rows, r, key, open[key(r)]);
    BagReplace(multiset(out), open, key(r), Grow(open[key(r)], r), rest);
    NoOvertakingAppend(rows, r, key);
    SameHeads(open, key(r), Grow(open[key(r)], r));
    assert rows != [];
  }

  lemma SameHeads(open: Bursts, k: string, b: Pending)
    requires k in open && Head(b) == Head(open[k])
    ensures Heads(open[k := b]) == Heads(open)
  {
    var after := open[k := b];
    forall t | t in Heads(open)
      ensures t in Heads(after)
    {
      var j :| j in open && Head(open[j]) == t;
      assert Head(after[j]) == t;
    }
  }

  /** A row that joins no burst: flush, then show the row or open a burst for it. */
  lemma PassFlush(out: seq<Row>, flushed: seq<Row>, open: Bursts, rows: seq<Row>, r: Row, key: Keying)
    requires KeyingOk(key) && InTime(rows, r, key) && PassOk(out, open, rows, key) && !Extends(rows, r, key)
    requires Flushes(flushed, Restrict(open, Leaving(open, r.Ts(), false)))
    ensures var left := open - Leaving(open, r.Ts(), false);
            key(r) !in left && PassOk(out + flushed + Plain(r, key), AfterRow(left, r, key), rows + [r], key)
  {
    hide Folded, Bag, FlushTime, Emits;
    var gone := Leaving(open, r.Ts(), false);
    var left, shown := open - gone, out + flushed;
    EmitsFlush(out, flushed, open, rows, r, key);
    OpenFlush(open, rows, r, key);
    BagFlush(out, flushed, open, gone);
    FoldedNew(rows, r, key);
    BagAfterRow(shown, left, r, key);
    TimesFlush(out, flushed, open, gone, rows, r, key);
    OrderFlush(out, flushed, open, gone);
    OrderAfterRow(shown, left, r, key);
    OrderlyIsOrder(open, rows, r, key);
    NoOvertakingAppend(rows, r, key);
  }

  lemma TimesFlush(out: seq<Row>, flushed: seq<Row>, open: Bursts, gone: set<string>, rows: seq<Row>, r: Row,
                   key: Keying)
    requires InTime(rows, r, key) && Flushes(flushed, Restrict(open, gone)) && key(r) !in open - gone
    requires rows == [] ==> Times(out) + Heads(open) == {}
    requires rows != [] ==> AllAtMost(Times(out) + Heads(open), {rows[|rows| - 1].Ts()})
    ensures AllAtMost(Times(out + flushed), {r.Ts()})
    ensures AllAtMost(Times(out + flushed + Plain(r, key)) + Heads(AfterRow(open - gone, r, key)), {r.Ts()})
  {
    hide Bag, FlushTime, Sorted;
    var shown, left := out + flushed, open - gone;
    HeadsSplit(open, gone);
    SortedConcat(out, flushed);
    SortedConcat(shown, Plain(r, key));
    assert AllAtMost(Times(out) + Heads(open), {r.Ts()}) by {
      if rows != [] {
        assert rows[|rows| - 1].Ts() in {rows[|rows| - 1].Ts()};
      }
    }
    if key(r) != "" {
      HeadsAdd(left, key(r), PendingOf(Seg(r, [])));
    }
  }

  lemma PassStart(key: Keying)
    ensures PassOk([], map[], [], key)
  {
    FoldedNothing(key);
  }

  // ---------- the pass ----------

  function KeyOf(dir: string -> string): Keying {
    (r: Row) => Key(r, dir)
  }

  lemma KeyOfOk(dir: string -> string)
    ensures KeyingOk(KeyOf(dir))
  {
    forall r, s | KeyOf(dir)(r) == KeyOf(dir)(s) && KeyOf(dir)(r) != ""
      ensures Window(r) == Window(s)
    {
      KeyFixesKind(r, s, dir);
    }
  }

  /** The pass, for any way of keying rows that fixes the window. */
  method FoldRows(rows: seq<Row>, key: Keying) returns (out: seq<Row>)
    requires Sorted(rows) && KeyingOk(key)
    ensures Output(out, rows, key)
    ensures multiset(out) == Folded(rows, key)
    ensures Sorted(out) <==> NoOvertaking(rows, key)
  {
    hide *;
    PassStart(key);
    var open: Bursts := map[];
    out := [];
    for i := 0 to |rows|
      invariant PassOk(out, open, rows[..i], key)
    {
      assert rows[..i + 1] == rows[..i] + [rows[i]];
      SortedInTime(rows, i, key);
      out, open := TakeRow(out, open, rows[..i], rows[i], key);
    }
    assert rows[..|rows|] == rows;
    var flushed, left := FlushExpired(open, 0, true);
    FlushAll(out, flushed, open, rows, key);
    out := out + flushed;
  }

  lemma FirstPending(r: Row)
    ensures PendingOf(Seg(r, [])) == Pending(r, 1, r.Ts(), Window(r), [])
  {
    assert MemberIDs([]) == [];
  }

  /** One turn of the pass. */
  method TakeRow(shown: seq<Row>, bursts: Bursts, ghost rows: seq<Row>, r: Row, key: Keying)
    returns (out: seq<Row>, open: Bursts)
    requires KeyingOk(key) && InTime(rows, r, key) && PassOk(shown, bursts, rows, key)
    ensures PassOk(out, open, rows + [r], key)
  {
    out, open := shown, bursts;
    var k, w := key(r), Window(r);
    if k == "" {
      var flushed, left := FlushExpired(open, r.Ts(), false);
      PassFlush(out, flushed, open, rows, r, key);
      return out + flushed + [r], left;
    }
    JoinsIffExtends(open, rows, r, key);
    if k in open && r.Ts() - open[k].lastSeen <= w {
      PassExtend(out, open, rows, r, key);
      return out, open[k := Grow(open[k], r)];
    }
    var flushed, left := FlushExpired(open, r.Ts(), false);
    PassFlush(out, flushed, open, rows, r, key);
    FirstPending(r);
    assert out + flushed + [] == out + flushed;
    // The code now closes a burst still open under this key; there never is one.
    assert k !in left;
    return out + flushed, left[k := Pending(r, 1, r.Ts(), w, [])];
  }

  /** CollapseRows. The rows come out flush by flush, and folded; they come out in time order exactly when no burst
      overtakes an older one. */
  method CollapseRows(rows: seq<Row>, dir: string -> string) returns (out: seq<Row>)
    requires Sorted(rows)
    ensures Output(out, rows, KeyOf(dir))
    ensures multiset(out) == Folded(rows, KeyOf(dir))
    ensures Sorted(out) <==> NoOvertaking(rows, KeyOf(dir))
  {
    KeyOfOk(dir);
    if |rows| < 2 {
      ShortInput(rows, KeyOf(dir));
      return rows;
    }
    out := FoldRows(rows, KeyOf(dir));
  }

  /** At the end of the input every burst is shown. */
  lemma FlushAll(out: seq<Row>, flushed: seq<Row>, open: Bursts, rows: seq<Row>, key: Keying)
    requires PassOk(out, open, rows, key) && Flushes(flushed, Restrict(open, Leaving(open, 0, true)))
    ensures Output(out + flushed, rows, key)
    ensures multiset(out + flushed) == Folded(rows, key)
    ensures Sorted(out + flushed) <==> NoOvertaking(rows, key)
  {
    hide Folded, Bag, Emits, StillOpen;
    var gone := Leaving(open, 0, true);
    assert gone == open.Keys && open - gone == map[] && Restrict(open, gone) == open;
    OpenIsStillOpen(open, rows, key);
    BagFlush(out, flushed, open, gone);
    OrderFlush(out, flushed, open, gone);
  }

  lemma JoinsIffExtends(open: Bursts, rows: seq<Row>, r: Row, key: Keying)
    requires KeyingOk(key) && InTime(rows, r, key) && OpenOk(open, rows, key) && key(r) != ""
    ensures (key(r) in open && r.Ts() - open[key(r)].lastSeen <= Window(r)) <==> Extends(rows, r, key)
  {
    assert KeyOk(open, rows, key, key(r));
    if Extends(rows, r, key) {
      ExtendsHeld(rows, r, key);
    }
  }

  lemma ShortInput(rows: seq<Row>, key: Keying)
    requires |rows| < 2 && KeyingOk(key)
    ensures Output(rows, rows, key) && multiset(rows) == Folded(rows, key) && Sorted(rows) && NoOvertaking(rows, key)
  {
    hide PassOk, Folded, NoOvertaking, Output, KeyingOk;
    if rows == [] {
      NoRow(key);
    } else {
      assert rows == [rows[0]];
      OneRow(rows[0], key);
    }
  }

  lemma NoRow(key: Keying)
    ensures Output([], [], key) && multiset([]) == Folded([], key) && Sorted([]) && NoOvertaking([], key)
  {
    hide PassOk, Folded, NoOvertaking, Output, Bag, Flushes;
    var none: Bursts := map[];
    PassStart(key);
    FlushNothing();
    assert Restrict(none, Leaving(none, 0, true)) == none;
    var nothing: seq<Row> := [];
    FlushAll(nothing, nothing, none, [], key);
    assert nothing + nothing == [];
  }

  lemma OneRowPass(r: Row, key: Keying)
    requires KeyingOk(key)
    ensures PassOk(Plain(r, key), AfterRow(map[], r, key), [r], key)
  {
    hide PassOk, Bag, Flushes, KeyingOk;
    var none: Bursts := map[];
    PassStart(key);
    FlushNothing();
    assert Leaving(none, r.Ts(), false) == {} && Restrict(none, {}) == none && none - {} == none;
    PassFlush([], [], none, [], r, key);
    assert [] + [] + Plain(r, key) == Plain(r, key) && [] + [r] == [r];
  }

  lemma OneRow(r: Row, key: Keying)
    requires KeyingOk(key)
    ensures Output([r], [r], key) && multiset([r]) == Folded([r], key) && Sorted([r]) && NoOvertaking([r], key)
  {
    hide PassOk, Folded, NoOvertaking, Output, Bag, Flushes, KeyingOk;
    OneRowPass(r, key);
    TimesOne(r);
    FlushNothing();
    FlushOne(r, key(r));
    var open := AfterRow(map[], r, key);
    assert Restrict(open, Leaving(open, 0, true)) == open;
    var flushed := if key(r) == "" then [] else [r];
    FlushAll(Plain(r, key), flushed, open, [r], key);
    assert Plain(r, key) + flushed == [r];
  }

  lemma FlushNothing()
    ensures Flushes([], map[])
  {
  }

  lemma FlushOne(r: Row, k: string)
    ensures Flushes([r], map[k := PendingOf(Seg(r, []))])
  {
    var b := PendingOf(Seg(r, []));
    var none: Bursts := map[];
    assert none[k := b] == map[k := b];
    BagAdd(none, k, b);
    HeadsAdd(none, k, b);
    TimesOne(r);
  }

  lemma TimesOne(r: Row)
    ensures Times([r]) == {r.Ts()} && Sorted([r])
  {
    assert [r][0].Ts() in Times([r]);
  }

  /** The counts on the rows shown add up to the number of rows read. */
  lemma BurstCountsAddUp(rows: seq<Row>, out: seq<Row>, key: Keying)
    requires Unfolded(rows) && multiset(out) == Folded(rows, key)
    ensures TotalSeq(out) == |rows|
  {
    CountsAddUp(rows, key);
    TotalOfSeq(out);
  }
}
