/** How far the rules of folding fix the output: its times always, the rows themselves where no two bursts that are
    shown together start at the same time. And the rows that come out of order. */
module CollapseUnique {
  import opened Records
  import opened CollapseKey
  import opened CollapseSpec
  import opened CollapseOrder
  import opened Collapse

  // ---------- sorted rows of one multiset ----------

  ghost predicate SameTimes(a: seq<Row>, b: seq<Row>) {
    |a| == |b| && forall i :: 0 <= i < |a| ==> a[i].Ts() == b[i].Ts()
  }

  function CountUpTo(rows: seq<Row>, t: int): nat {
    if rows == [] then 0
    else CountUpTo(rows[..|rows| - 1], t) + (if rows[|rows| - 1].Ts() <= t then 1 else 0)
  }

  lemma {:induction false} CountConcat(a: seq<Row>, b: seq<Row>, t: int)
    ensures CountUpTo(a + b, t) == CountUpTo(a, t) + CountUpTo(b, t)
  {
    if b == [] {
      assert a + b == a;
    } else {
      var init := b[..|b| - 1];
      CountConcat(a, init, t);
      assert (a + b)[..|a + b| - 1] == a + init;
    }
  }

  lemma CountWithout(rows: seq<Row>, j: nat, t: int)
    requires j < |rows|
    ensures var rest := rows[..j] + rows[j + 1..];
            && CountUpTo(rows, t) == CountUpTo(rest, t) + (if rows[j].Ts() <= t then 1 else 0)
            && multiset(rows) == multiset(rest) + multiset{rows[j]}
  {
    var one := [rows[j]];
    assert rows == rows[..j] + one + rows[j + 1..];
    CountConcat(rows[..j] + one, rows[j + 1..], t);
    CountConcat(rows[..j], one, t);
    CountConcat(rows[..j], rows[j + 1..], t);
    assert one[..0] == [];
  }

  lemma {:induction false} CountSame(a: seq<Row>, b: seq<Row>, t: int)
    requires multiset(a) == multiset(b)
    ensures |a| == |b| && CountUpTo(a, t) == CountUpTo(b, t)
    decreases |a|
  {
    assert |a| == |multiset(a)| && |b| == |multiset(b)|;
    if a != [] {
      var n := |a| - 1;
      assert a[n] in multiset(b);
      var j :| 0 <= j < |b| && b[j] == a[n];
      CountWithout(a, n, t);
      CountWithout(b, j, t);
      var x, y := a[..n] + a[n + 1..], b[..j] + b[j + 1..];
      assert multiset(x) == multiset(a) - multiset{a[n]} && multiset(y) == multiset(b) - multiset{b[j]};
      CountSame(x, y, t);
    }
  }

  lemma {:induction false} CountSorted(rows: seq<Row>, t: int)
    requires Sorted(rows)
    ensures CountUpTo(rows, t) <= |rows|
    ensures forall i :: 0 <= i < |rows| ==> (i < CountUpTo(rows, t) <==> rows[i].Ts() <= t)
  {
    if rows != [] {
      var n := |rows| - 1;
      var init := rows[..n];
      CountSorted(init, t);
      assert forall i :: 0 <= i < n ==> rows[i] == init[i] && rows[i].Ts() <= rows[n].Ts();
      if rows[n].Ts() <= t && n > 0 {
        assert init[n - 1].Ts() <= t;
      }
    }
  }

  lemma SortedSameTimes(a: seq<Row>, b: seq<Row>)
    requires Sorted(a) && Sorted(b) && multiset(a) == multiset(b)
    ensures SameTimes(a, b)
  {
    CountSame(a, b, 0);
    forall i | 0 <= i < |a|
      ensures a[i].Ts() == b[i].Ts()
    {
      var s, t := a[i].Ts(), b[i].Ts();
      CountSame(a, b, s);
      CountSame(a, b, t);
      CountSorted(a, s);
      CountSorted(b, s);
      CountSorted(a, t);
      CountSorted(b, t);
    }
  }

  // ---------- one flush ----------

  /** No two bursts start at the same time. */
  ghost predicate HeadsApart(bursts: Bursts) {
    forall j, k :: j in bursts && k in bursts && Head(bursts[j]) == Head(bursts[k]) ==> j == k
  }

  lemma {:induction false} BagMember(bursts: Bursts, r: Row) returns (k: string)
    requires r in Bag(bursts)
    ensures k in bursts && r == Finalize(bursts[k])
    decreases |bursts|
  {
    assert bursts != map[];
    k := BagSome(bursts);
    if r != Finalize(bursts[k]) {
      k := BagMember(bursts - {k}, r);
    }
  }

  lemma FlushUnique(x: seq<Row>, y: seq<Row>, bursts: Bursts)
    requires Flushes(x, bursts) && Flushes(y, bursts)
    ensures SameTimes(x, y)
    ensures HeadsApart(bursts) ==> x == y
  {
    SortedSameTimes(x, y);
    if HeadsApart(bursts) {
      forall i | 0 <= i < |x|
        ensures x[i] == y[i]
      {
        assert x[i] in multiset(x) && y[i] in multiset(y);
        var j := BagMember(bursts, x[i]);
        var k := BagMember(bursts, y[i]);
        assert x[i].Ts() == Head(bursts[j]) && y[i].Ts() == Head(bursts[k]);
      }
    }
  }

  // ---------- the whole output ----------

  lemma SameTimesConcat(a: seq<Row>, b: seq<Row>, c: seq<Row>, d: seq<Row>)
    requires SameTimes(a, b) && SameTimes(c, d)
    ensures SameTimes(a + c, b + d)
  {
  }

  lemma {:induction false} EmitsTimes(a: seq<Row>, b: seq<Row>, rows: seq<Row>, key: Keying)
    requires Emits(a, rows, key) && Emits(b, rows, key)
    ensures SameTimes(a, b)
    decreases |rows|
  {
    if rows != [] {
      hide Flushes, Closing, Extends, SameTimes;
      var init, r := rows[..|rows| - 1], rows[|rows| - 1];
      if Extends(init, r, key) {
        EmitsTimes(a, b, init, key);
      } else {
        var a0, x :| Emits(a0, init, key) && Flushes(x, Closing(init, key, r.Ts())) && a == a0 + x + Plain(r, key);
        var b0, y :| Emits(b0, init, key) && Flushes(y, Closing(init, key, r.Ts())) && b == b0 + y + Plain(r, key);
        EmitsTimes(a0, b0, init, key);
        FlushUnique(x, y, Closing(init, key, r.Ts()));
        SameTimesConcat(a0, b0, x, y);
        PlainTimes(r, key);
        SameTimesConcat(a0 + x, b0 + y, Plain(r, key), Plain(r, key));
      }
    }
  }

  lemma PlainTimes(r: Row, key: Keying)
    ensures SameTimes(Plain(r, key), Plain(r, key))
  {
  }

  /** Whatever order a map gives, the times of the output are the same. */
  lemma OutputTimes(a: seq<Row>, b: seq<Row>, rows: seq<Row>, key: Keying)
    requires Output(a, rows, key) && Output(b, rows, key)
    ensures SameTimes(a, b)
  {
    hide Flushes, StillOpen, Emits, SameTimes;
    var a0, x :| Emits(a0, rows, key) && Flushes(x, StillOpen(rows, key)) && a == a0 + x;
    var b0, y :| Emits(b0, rows, key) && Flushes(y, StillOpen(rows, key)) && b == b0 + y;
    EmitsTimes(a0, b0, rows, key);
    FlushUnique(x, y, StillOpen(rows, key));
    SameTimesConcat(a0, b0, x, y);
  }

  /** A burst starts with a row of its own key. */
  lemma HeadPlace(rows: seq<Row>, key: Keying, k: string) returns (i: nat)
    requires Sub(rows, key, k) != []
    ensures i < |rows| && key(rows[i]) == k && rows[i] == LastSeg(rows, key, k).head
  {
    var sub := Sub(rows, key, k);
    SegmentHead(sub);
    SubKey(rows, key, k);
    SubInside(rows, key, k);
    var head := LastSeg(rows, key, k).head;
    var j :| 0 <= j < |sub| && sub[j] == head;
    i :| 0 <= i < |rows| && rows[i] == head;
  }

  lemma {:induction false} SubInside(rows: seq<Row>, key: Keying, k: string)
    ensures forall r :: r in Sub(rows, key, k) ==> r in rows
  {
    if rows != [] {
      SubInside(rows[..|rows| - 1], key, k);
    }
  }

  lemma StrictHeadsApart(rows: seq<Row>, key: Keying, now: int)
    requires StrictlySorted(rows)
    ensures HeadsApart(Closing(rows, key, now)) && HeadsApart(StillOpen(rows, key))
  {
    hide Segments, FlushTime, Keys;
    forall j, k | Held(rows, key, j) && Held(rows, key, k) && HeadTime(rows, key, j) == HeadTime(rows, key, k)
      ensures j == k
    {
      var i := HeadPlace(rows, key, j);
      var m := HeadPlace(rows, key, k);
      assert rows[i].Ts() == rows[m].Ts();
    }
    hide Sub, StrictlySorted, Fresh;
  }

  lemma {:induction false} EmitsUnique(a: seq<Row>, b: seq<Row>, rows: seq<Row>, key: Keying)
    requires StrictlySorted(rows) && Emits(a, rows, key) && Emits(b, rows, key)
    ensures a == b
    decreases |rows|
  {
    if rows != [] {
      var init, r := rows[..|rows| - 1], rows[|rows| - 1];
      StrictHeadsApart(init, key, r.Ts());
      hide Flushes, Closing, Extends;
      if Extends(init, r, key) {
        EmitsUnique(a, b, init, key);
      } else {
        var a0, x :| Emits(a0, init, key) && Flushes(x, Closing(init, key, r.Ts())) && a == a0 + x + Plain(r, key);
        var b0, y :| Emits(b0, init, key) && Flushes(y, Closing(init, key, r.Ts())) && b == b0 + y + Plain(r, key);
        EmitsUnique(a0, b0, init, key);
        FlushUnique(x, y, Closing(init, key, r.Ts()));
      }
    }
  }

  /** For rows at pairwise different times there is one output. */
  lemma OutputUnique(a: seq<Row>, b: seq<Row>, rows: seq<Row>, key: Keying)
    requires StrictlySorted(rows) && Output(a, rows, key) && Output(b, rows, key)
    ensures a == b
  {
    StrictHeadsApart(rows, key, 0);
    hide Flushes, StillOpen, Emits, StrictlySorted;
    var a0, x :| Emits(a0, rows, key) && Flushes(x, StillOpen(rows, key)) && a == a0 + x;
    var b0, y :| Emits(b0, rows, key) && Flushes(y, StillOpen(rows, key)) && b == b0 + y;
    EmitsUnique(a0, b0, rows, key);
    FlushUnique(x, y, StillOpen(rows, key));
  }

  // ---------- rows that come out of order ----------

  lemma NewKey(rows: seq<Row>, r: Row, key: Keying)
    requires forall i :: 0 <= i < |rows| ==> key(rows[i]) != key(r)
    ensures !Extends(rows, r, key)
  {
    if key(r) != "" {
      SubEmpty(rows, key, key(r));
    }
  }

  /** A row of a new key arrives, and nothing has expired. */
  lemma PassOpens(out: seq<Row>, open: Bursts, rows: seq<Row>, r: Row, key: Keying)
    requires KeyingOk(key) && rows != [] && InTime(rows, r, key) && PassOk(out, open, rows, key)
    requires key(r) != "" && forall i :: 0 <= i < |rows| ==> key(rows[i]) != key(r)
    requires Leaving(open, r.Ts(), false) == {}
    ensures PassOk(out, open[key(r) := PendingOf(Seg(r, []))], rows + [r], key)
  {
    hide PassOk, Bag, Flushes, KeyingOk, InTime;
    NewKey(rows, r, key);
    FlushNothing();
    assert Restrict(open, {}) == map[] && open - {} == open;
    PassFlush(out, [], open, rows, r, key);
    assert out + [] + [] == out;
  }

  lemma FlushPair(a: Row, d: Row, j: string, k: string)
    requires j != k && a.Ts() <= d.Ts()
    ensures Flushes([a, d], map[j := PendingOf(Seg(a, [])), k := PendingOf(Seg(d, []))])
  {
    FlushOne(a, j);
    var b := PendingOf(Seg(d, []));
    var one: Bursts := map[j := PendingOf(Seg(a, []))];
    BagAdd(one, k, b);
    HeadsAdd(one, k, b);
    TimesOne(d);
    SortedConcat([a], [d]);
    assert [a, d] == [a] + [d];
    assert one[k := b] == map[j := PendingOf(Seg(a, [])), k := b];
  }

  /** Three rows of which the second expires when the third arrives, and the first does not. */
  ghost predicate Overtaking(a: Row, f: Row, d: Row, key: Keying) {
    && a.Ts() < f.Ts() <= d.Ts()
    && key(a) != "" && key(f) != "" && key(d) != ""
    && key(a) != key(f) && key(a) != key(d) && key(f) != key(d)
    && d.Ts() - a.Ts() <= Window(a) && d.Ts() - f.Ts() > Window(f)
  }

  lemma TwoOpen(a: Row, f: Row, d: Row, key: Keying)
    requires KeyingOk(key) && Overtaking(a, f, d, key)
    ensures PassOk([], map[key(a) := PendingOf(Seg(a, [])), key(f) := PendingOf(Seg(f, []))], [a, f], key)
    ensures InTime([a, f], d, key)
  {
    hide PassOk, Bag, Flushes, KeyingOk;
    var none: Bursts := map[];
    var one := none[key(a) := PendingOf(Seg(a, []))];
    OneRowPass(a, key);
    assert AfterRow(none, a, key) == one && Plain(a, key) == [];
    assert Leaving(one, f.Ts(), false) == {};
    FlushTimeAppend([], a, key);
    FlushTimeAppend([a], f, key);
    NewKey([], a, key);
    NewKey([a], f, key);
    assert [] + [a] == [a] && [a] + [f] == [a, f];
    PassOpens([], one, [a], f, key);
    assert one[key(f) := PendingOf(Seg(f, []))]
        == map[key(a) := PendingOf(Seg(a, [])), key(f) := PendingOf(Seg(f, []))];
  }

  /** Of two bursts one expires. */
  lemma LeaveOne(j: string, x: Pending, k: string, y: Pending, now: int)
    requires j != k && !Expired(x, now) && Expired(y, now)
    ensures var open: Bursts := map[j := x, k := y];
            && Leaving(open, now, false) == {k}
            && Restrict(open, {k}) == map[k := y] && open - {k} == map[j := x]
  {
  }

  lemma MapPair(j: string, x: Pending, k: string, y: Pending)
    ensures map[j := x][k := y] == map[j := x, k := y]
  {
  }

  lemma SecondLeaves(a: Row, f: Row, d: Row, key: Keying)
    requires KeyingOk(key) && Overtaking(a, f, d, key)
    ensures PassOk([f], map[key(a) := PendingOf(Seg(a, [])), key(d) := PendingOf(Seg(d, []))], [a, f, d], key)
  {
    hide PassOk, Bag, Flushes, KeyingOk, InTime, Leaving, Restrict, Extends, MemberIDs;
    TwoOpen(a, f, d, key);
    var pa, pf, pd := PendingOf(Seg(a, [])), PendingOf(Seg(f, [])), PendingOf(Seg(d, []));
    LeaveOne(key(a), pa, key(f), pf, d.Ts());
    FlushOne(f, key(f));
    NewKey([a, f], d, key);
    PassFlush([], [f], map[key(a) := pa, key(f) := pf], [a, f], d, key);
    MapPair(key(a), pa, key(d), pd);
    assert [] + [f] + Plain(d, key) == [f] && [a, f] + [d] == [a, f, d];
  }

  /** A short burst that expires while an older, longer one is open is shown first. */
  lemma ShownFirst(a: Row, f: Row, d: Row, key: Keying)
    requires KeyingOk(key) && Overtaking(a, f, d, key)
    ensures Output([f, a, d], [a, f, d], key) && !NoOvertaking([a, f, d], key)
  {
    hide PassOk, Bag, Flushes, KeyingOk, Output, NoOvertaking, Folded;
    SecondLeaves(a, f, d, key);
    var last: Bursts := map[key(a) := PendingOf(Seg(a, [])), key(d) := PendingOf(Seg(d, []))];
    assert Restrict(last, Leaving(last, 0, true)) == last;
    FlushPair(a, d, key(a), key(d));
    FlushAll([f], [a, d], last, [a, f, d], key);
    assert [f] + [a, d] == [f, a, d];
    NotSorted(f, a, d);
  }

  lemma NotSorted(f: Row, a: Row, d: Row)
    requires a.Ts() < f.Ts()
    ensures !Sorted([f, a, d])
  {
    var out := [f, a, d];
    assert out[0].Ts() > out[1].Ts();
  }

  /** An alert, a file event a second later, and a DNS event at four seconds. */
  const ALERT_AT_0: Row := BareAlert(1, 0, "rule", 7, 1)
  const FILE_AT_1: Row := EventRow(Event(1, SECOND, "File", 11, 0, map["Image" := "cp"]), None)
  const DNS_AT_4: Row := EventRow(Event(2, 4 * SECOND, "Dns", 22, 0, map["QueryName" := "example.com"]), None)

  lemma ExampleOvertakes(dir: string -> string)
    ensures Overtaking(ALERT_AT_0, FILE_AT_1, DNS_AT_4, KeyOf(dir))
  {
    EmptyKey(ALERT_AT_0, dir);
    EmptyKey(FILE_AT_1, dir);
    EmptyKey(DNS_AT_4, dir);
    assert Key(ALERT_AT_0, dir) != "" && Key(FILE_AT_1, dir) != "" && Key(DNS_AT_4, dir) != "";
    KeysDiffer(ALERT_AT_0, FILE_AT_1, dir);
    KeysDiffer(ALERT_AT_0, DNS_AT_4, dir);
    KeysDiffer(FILE_AT_1, DNS_AT_4, dir);
    hide Key, KeyParts;
  }

  /** The output need not be in time order, whatever its comment says. The file event leaves while the alert is still
      open, and nothing but file, alert, DNS can come out. */
  lemma OvertakingExample(dir: string -> string)
    ensures var rows := [ALERT_AT_0, FILE_AT_1, DNS_AT_4];
            && StrictlySorted(rows) && Unfolded(rows) && !NoOvertaking(rows, KeyOf(dir))
            && forall out :: Output(out, rows, KeyOf(dir)) <==> out == [FILE_AT_1, ALERT_AT_0, DNS_AT_4]
  {
    hide Key, KeyingOk, Output, NoOvertaking, Overtaking;
    KeyOfOk(dir);
    ExampleOvertakes(dir);
    ShownFirst(ALERT_AT_0, FILE_AT_1, DNS_AT_4, KeyOf(dir));
    OneOutput([ALERT_AT_0, FILE_AT_1, DNS_AT_4], [FILE_AT_1, ALERT_AT_0, DNS_AT_4], KeyOf(dir));
  }

  lemma OneOutput(rows: seq<Row>, out: seq<Row>, key: Keying)
    requires StrictlySorted(rows) && Output(out, rows, key)
    ensures forall other :: Output(other, rows, key) <==> other == out
  {
    forall other | Output(other, rows, key)
      ensures other == out
    {
      OutputUnique(other, out, rows, key);
    }
  }

  lemma KeysDiffer(r: Row, s: Row, dir: string -> string)
    requires !SameKind(r, s) && Key(r, dir) != ""
    ensures Key(r, dir) != Key(s, dir)
  {
    if Key(r, dir) == Key(s, dir) {
      KeyFixesKind(r, s, dir);
    }
  }
}
