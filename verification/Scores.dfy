/** Sorted-set scores: nanosecond times as float64, and the order in which the timeline is read. */
module Scores {
  import opened Decimal
  import opened Records

  // ---------- integers as float64 ----------

  const TWO53: int := 0x20_0000_0000_0000
  const TWO62: int := 0x4000_0000_0000_0000

  /** The distance between neighbouring float64 values around x: 53 significant bits are kept. */
  function Ulp(x: nat): (u: int)
    ensures u >= 1
  {
    if x < TWO53 then 1 else 2 * Ulp(x / 2)
  }

  /** The multiple of u nearest to x, ties to the even multiple (section 4.3.1 of IEEE 754-2019). */
  function NearestEven(x: nat, u: int): int
    requires u >= 1
  {
    var q, r := x / u, x % u;
    if 2 * r < u || (2 * r == u && q % 2 == 0) then q * u else (q + 1) * u
  }

  /** float64(t.UnixNano()), as an exact integer. */
  function Score(ns: int): int {
    if ns >= 0 then NearestEven(ns, Ulp(ns)) else -NearestEven(-ns, Ulp(-ns))
  }

  lemma Divide(x: nat, u: int) returns (q: int, r: int)
    requires u >= 1
    ensures q == x / u && r == x % u && x == q * u + r && 0 <= r < u && q >= 0
  {
    q, r := x / u, x % u;
  }

  /** Rounding moves a value by at most half a step. */
  lemma NearestBounds(x: nat, u: int)
    requires u >= 1
    ensures -u <= 2 * (NearestEven(x, u) - x) <= u
  {
    var q, r := Divide(x, u);
    assert (q + 1) * u == q * u + u;
  }

  lemma LessThanProduct(a: int, b: int, u: int)
    requires a < b && u >= 1
    ensures a * u + u <= b * u
  {
    var d := b - a - 1;
    Spread(a, d, u);
    ProductNat(d, u);
  }

  lemma Spread(a: int, d: int, u: int)
    ensures (a + 1 + d) * u == a * u + u + d * u
  {
  }

  lemma ProductNat(d: int, u: int)
    requires d >= 0 && u >= 0
    ensures d * u >= 0
  {
  }

  lemma NearestMonotone(x: nat, y: nat, u: int)
    requires u >= 1 && x <= y
    ensures NearestEven(x, u) <= NearestEven(y, u)
  {
    var q, r := Divide(x, u);
    var p, s := Divide(y, u);
    assert (q + 1) * u == q * u + u && (p + 1) * u == p * u + u;
    if q < p {
      LessThanProduct(q, p, u);
    } else if q > p {
      LessThanProduct(p, q, u);
    }
  }

  /** Rounding does not cross a multiple of the step. */
  lemma NearestStays(x: nat, u: int, k: int)
    requires u >= 1 && k >= 0
    ensures x <= k * u ==> NearestEven(x, u) <= k * u
    ensures x >= k * u ==> NearestEven(x, u) >= k * u
  {
    var q, r := Divide(x, u);
    assert (q + 1) * u == q * u + u;
    if q < k {
      LessThanProduct(q, k, u);
    } else if q > k {
      LessThanProduct(k, q, u);
    }
  }

  const TWO52: int := 0x10_0000_0000_0000

  lemma {:induction false} UlpBounds(x: nat)
    ensures x < Ulp(x) * TWO53
    ensures Ulp(x) > 1 ==> Ulp(x) * TWO52 <= x
    decreases x
  {
    if x >= TWO53 {
      UlpBounds(x / 2);
    }
  }

  /** Steps only grow, and from one to the next by a power of two. */
  lemma {:induction false} UlpGrows(x: nat, y: nat)
    requires x <= y
    ensures Ulp(x) == Ulp(y) || exists k :: k >= 1 && Ulp(y) == 2 * k * Ulp(x)
    decreases y
  {
    if y >= TWO53 {
      if x < TWO53 {
        assert Ulp(y) == 2 * Ulp(y / 2) * Ulp(x);
      } else {
        UlpGrows(x / 2, y / 2);
        if Ulp(x / 2) != Ulp(y / 2) {
          var k :| k >= 1 && Ulp(y / 2) == 2 * k * Ulp(x / 2);
          Regroup(k, Ulp(x / 2));
          assert Ulp(y) == 2 * k * Ulp(x);
        }
      }
    }
  }

  lemma Regroup(k: int, u: int)
    ensures 2 * (2 * k * u) == 2 * k * (2 * u)
  {
  }

  /** Scores never reverse two times. */
  lemma ScoreMonotoneNat(x: nat, y: nat)
    requires x <= y
    ensures Score(x) <= Score(y)
  {
    var u, v := Ulp(x), Ulp(y);
    UlpGrows(x, y);
    if u == v {
      NearestMonotone(x, y, u);
    } else {
      var k :| k >= 1 && v == 2 * k * u;
      UlpBounds(x);
      UlpBounds(y);
      Boundary(k, u, v);
      // the boundary between the two ranges is a multiple of both steps
      NearestStays(x, u, TWO52 * 2 * k);
      NearestStays(y, v, TWO52);
    }
  }

  lemma Boundary(k: int, u: int, v: int)
    requires k >= 1 && u >= 1 && v == 2 * k * u
    ensures TWO52 * 2 * k * u == TWO52 * v && u * TWO53 <= TWO52 * v && v > 1
  {
    assert TWO52 * 2 * k * u == TWO52 * (2 * k * u);
    assert k * u >= u by {
      LessThanProduct(0, k, u);
    }
  }

  lemma ScoreMonotone(x: int, y: int)
    requires x <= y
    ensures Score(x) <= Score(y)
  {
    if x >= 0 {
      ScoreMonotoneNat(x, y);
    } else if y < 0 {
      ScoreMonotoneNat(-y, -x);
    } else {
      NearestStays(y, Ulp(y), 0);
      NearestStays(-x, Ulp(-x), 0);
    }
  }

  lemma {:induction false} UlpSmall(x: nat, bits: nat)
    requires bits <= 9 && x < TWO53 * Pow2(bits)
    ensures Ulp(x) <= Pow2(bits)
  {
    if x >= TWO53 {
      UlpSmall(x / 2, bits - 1);
    }
  }

  function Pow2(n: nat): int {
    if n == 0 then 1 else 2 * Pow2(n - 1)
  }

  /** Below 2^62 (the year 2116) a score is within 256 ns of its time. */
  lemma ScoreClose(ns: int)
    requires -TWO62 < ns < TWO62
    ensures -256 <= Score(ns) - ns <= 256
  {
    var x := if ns >= 0 then ns else -ns;
    assert Pow2(3) == 8 && Pow2(6) == 64 && Pow2(9) == 512;
    UlpSmall(x, 9);
    NearestBounds(x, Ulp(x));
  }

  predicate Microseconds(ns: int) {
    ns % 1000 == 0 && -TWO62 < ns < TWO62
  }

  /** Different microseconds have different scores, in the same order. */
  lemma MicrosecondsApart(x: int, y: int)
    requires Microseconds(x) && Microseconds(y)
    ensures x < y <==> Score(x) < Score(y)
  {
    hide Score;
    ScoreClose(x);
    ScoreClose(y);
    if y <= x {
      ScoreMonotone(y, x);
    } else {
      ThousandApart(x, y);
    }
  }

  lemma ThousandApart(x: int, y: int)
    requires x % 1000 == 0 && y % 1000 == 0 && x < y
    ensures x + 1000 <= y
  {
  }

  // ---------- the sorted set ----------

  /** A record's key: `a:` or `e:` and the decimal id. */
  datatype Member = A(id: int) | E(id: int) {
    function Key(): string {
      (if A? then "a:" else "e:") + Itoa(id)
    }
  }

  lemma KeyInjective(m: Member, n: Member)
    requires MIN_INT64 <= m.id <= MAX_INT64 && MIN_INT64 <= n.id <= MAX_INT64
    requires m.Key() == n.Key()
    ensures m == n
  {
    assert m.Key()[0] == n.Key()[0];
    assert m.Key()[2..] == Itoa(m.id) && n.Key()[2..] == Itoa(n.id);
    ItoaInjective(m.id, n.id);
  }

  datatype Entry = Entry(score: int, member: Member)

  predicate LexLeq(a: string, b: string) {
    a == "" || (b != "" && (a[0] < b[0] || (a[0] == b[0] && LexLeq(a[1..], b[1..]))))
  }

  lemma {:induction false} LexTotal(a: string, b: string)
    ensures LexLeq(a, b) || LexLeq(b, a)
  {
    if a != "" && b != "" && a[0] == b[0] {
      LexTotal(a[1..], b[1..]);
    }
  }

  lemma {:induction false} LexTransitive(a: string, b: string, c: string)
    requires LexLeq(a, b) && LexLeq(b, c)
    ensures LexLeq(a, c)
  {
    if a != "" && a[0] == b[0] && b[0] == c[0] {
      LexTransitive(a[1..], b[1..], c[1..]);
    }
  }

  predicate Leq(e: Entry, f: Entry) {
    e.score < f.score || (e.score == f.score && LexLeq(e.member.Key(), f.member.Key()))
  }

  lemma LeqTotal(e: Entry, f: Entry)
    ensures Leq(e, f) || Leq(f, e)
  {
    LexTotal(e.member.Key(), f.member.Key());
  }

  lemma LeqTransitive(e: Entry, f: Entry, g: Entry)
    requires Leq(e, f) && Leq(f, g)
    ensures Leq(e, g)
  {
    if e.score == f.score == g.score {
      LexTransitive(e.member.Key(), f.member.Key(), g.member.Key());
    }
  }

  ghost predicate InOrder(z: seq<Entry>) {
    forall i, j :: 0 <= i < j < |z| ==> Leq(z[i], z[j])
  }

  /** Puts an entry where it belongs. */
  function Insert(z: seq<Entry>, e: Entry): seq<Entry> {
    if z == [] || Leq(z[|z| - 1], e) then z + [e] else Insert(z[..|z| - 1], e) + [z[|z| - 1]]
  }

  lemma {:induction false} InsertMembers(z: seq<Entry>, e: Entry)
    ensures |Insert(z, e)| == |z| + 1
    ensures forall x :: x in Insert(z, e) <==> x == e || x in z
  {
    if z != [] {
      var init, last := z[..|z| - 1], z[|z| - 1];
      assert z == init + [last];
      InsertMembers(init, e);
    }
  }

  lemma {:induction false} InsertInOrder(z: seq<Entry>, e: Entry)
    requires InOrder(z)
    ensures InOrder(Insert(z, e))
  {
    if z != [] {
      var init, last := z[..|z| - 1], z[|z| - 1];
      assert z == init + [last];
      if Leq(last, e) {
        forall i | 0 <= i < |z|
          ensures Leq(z[i], e)
        {
          if i < |init| {
            LeqTransitive(z[i], last, e);
          }
        }
      } else {
        LeqTotal(last, e);
        InsertInOrder(init, e);
        InsertMembers(init, e);
        forall x | x in Insert(init, e)
          ensures Leq(x, last)
        {
          if x != e {
            var i :| 0 <= i < |init| && init[i] == x;
            assert z[i] == x && z[|z| - 1] == last;
          }
        }
      }
    }
  }

  // ---------- order of scores and order of times ----------

  /** The entry of each row, as it was added. */
  ghost predicate Scored(z: seq<Entry>, rows: seq<Row>) {
    |z| == |rows| && forall i :: 0 <= i < |z| ==> z[i].score == Score(rows[i].Ts())
  }

  /** Rows that share a score are in time order. */
  ghost predicate TiesInOrder(z: seq<Entry>, rows: seq<Row>)
    requires |z| == |rows|
  {
    forall i, j :: 0 <= i < j < |z| && z[i].score == z[j].score ==> rows[i].Ts() <= rows[j].Ts()
  }

  /** The rows of the set are in time order exactly when rows that share a score are. */
  lemma SetOrderIsTimeOrder(z: seq<Entry>, rows: seq<Row>)
    requires InOrder(z) && Scored(z, rows)
    ensures Sorted(rows) <==> TiesInOrder(z, rows)
  {
    if TiesInOrder(z, rows) {
      forall i, j | 0 <= i < j < |rows|
        ensures rows[i].Ts() <= rows[j].Ts()
      {
        assert Leq(z[i], z[j]);
        if rows[i].Ts() > rows[j].Ts() {
          ScoreMonotone(rows[j].Ts(), rows[i].Ts());
        }
      }
    }
  }

  ghost predicate AllMicroseconds(rows: seq<Row>) {
    forall i :: 0 <= i < |rows| ==> Microseconds(rows[i].Ts())
  }

  /** Times at microseconds do not tie, so they keep their order through float64. */
  lemma MicrosecondsSorted(z: seq<Entry>, rows: seq<Row>)
    requires InOrder(z) && Scored(z, rows)
    ensures AllMicroseconds(rows) ==> TiesInOrder(z, rows) && Sorted(rows)
  {
    if AllMicroseconds(rows) {
      forall i, j | 0 <= i < j < |rows| && z[i].score == z[j].score
        ensures rows[i].Ts() == rows[j].Ts()
      {
        MicrosecondsApart(rows[j].Ts(), rows[i].Ts());
        MicrosecondsApart(rows[i].Ts(), rows[j].Ts());
      }
      SetOrderIsTimeOrder(z, rows);
    }
  }

  const NANO_EARLY: nat := 0x1000_0000_0000_0000
  const NANO_LATE: nat := 0x1000_0000_0000_0001

  /** Finer times need not keep their order: these two, a nanosecond apart, share a score. */
  lemma NanosecondsTie()
    ensures NANO_LATE == NANO_EARLY + 1 && Score(NANO_LATE) == Score(NANO_EARLY)
  {
    SameUlp(NANO_LATE);
    SameUlp(NANO_EARLY);
  }

  /** Alert 1 comes before alert 2. */
  lemma SmallKeys()
    ensures LexLeq(A(1).Key(), A(2).Key()) && A(1).Key() != A(2).Key()
  {
    assert A(1).Key() == "a:1" && A(2).Key() == "a:2";
    assert LexLeq("1", "2");
    assert "a:1"[1..] == ":1" && ":1"[1..] == "1" && "a:2"[1..] == ":2" && ":2"[1..] == "2";
    assert LexLeq(":1", ":2");
  }

  lemma SameUlp(x: nat)
    requires 0x1000_0000_0000_0000 <= x < 0x2000_0000_0000_0000
    ensures Ulp(x) == 256
  {
    var y := x / 2 / 2 / 2 / 2;
    assert Ulp(y / 2 / 2) == 2 * Ulp(y / 2 / 2 / 2) == 4 * Ulp(y / 2 / 2 / 2 / 2);
    assert Ulp(y) == 2 * Ulp(y / 2) == 4 * Ulp(y / 2 / 2);
    assert Ulp(x) == 2 * Ulp(x / 2) == 4 * Ulp(x / 2 / 2);
    assert Ulp(x / 2 / 2) == 2 * Ulp(x / 2 / 2 / 2) == 4 * Ulp(y);
  }

  // ---------- rounding and order, spelled out ----------

  /** The score of a time is a float64: a multiple of the step by at most 2^53, where the step is 1 or a power of two
      that leaves 53 bits; none is nearer, and of two equally near it is the even multiple. */
  lemma ScoreIsNearest(x: int) returns (m: int)
    requires x >= 0
    ensures var u := Ulp(x);
            && Score(x) == m * u && 0 <= m <= 0x20_0000_0000_0000
            && (if u == 1 then x < 0x20_0000_0000_0000
                else 0x10_0000_0000_0000 * u <= x < 0x20_0000_0000_0000 * u)
            && -u <= 2 * (Score(x) - x) <= u
            && (2 * (Score(x) - x) == u || 2 * (x - Score(x)) == u ==> m % 2 == 0)
    ensures Score(-x) == -Score(x)
  {
    hide Ulp, NearestEven;
    UlpBounds(x);
    UlpOne(x);
    m := NearestIsNearest(x, Ulp(x));
  }

  lemma NearestIsNearest(x: nat, u: int) returns (m: int)
    requires u >= 1 && x < u * TWO53
    ensures NearestEven(x, u) == m * u && 0 <= m <= TWO53
    ensures -u <= 2 * (m * u - x) <= u && (2 * (m * u - x) == u || 2 * (x - m * u) == u ==> m % 2 == 0)
  {
    var q, r := Divide(x, u);
    NearestBounds(x, u);
    assert (q + 1) * u == q * u + u;
    if q >= TWO53 {
      LessOrEqualProduct(TWO53, q, u);
    }
    m := if 2 * r < u || (2 * r == u && q % 2 == 0) then q else q + 1;
  }

  lemma UlpOne(x: nat)
    ensures Ulp(x) == 1 <==> x < TWO53
  {
  }

  lemma LessOrEqualProduct(a: int, b: int, u: int)
    requires a <= b && u >= 1
    ensures a * u <= b * u
  {
    if a < b {
      LessThanProduct(a, b, u);
    }
  }

  /** The step doubles with every bit beyond 53. */
  lemma {:induction false} StepsDouble(x: nat, k: nat)
    requires TWO53 * Pow2(k) <= 2 * x && x < TWO53 * Pow2(k)
    ensures Ulp(x) == Pow2(k)
    decreases k
  {
    if k > 0 {
      StepsDouble(x / 2, k - 1);
    }
  }

  /** Members of one score are ordered byte by byte, a text before its extensions. */
  lemma {:induction false} LexMeans(a: string, b: string)
    ensures LexLeq(a, b) <==> a <= b || exists i :: FirstDifference(a, b, i) && a[i] < b[i]
  {
    if a != "" && b != "" {
      if a[0] == b[0] {
        LexMeans(a[1..], b[1..]);
        LexStep(a, b);
      } else {
        assert FirstDifference(a, b, 0);
        assert forall i :: FirstDifference(a, b, i) ==> i == 0;
      }
    }
  }

  predicate FirstDifference(a: string, b: string, i: int) {
    0 <= i < |a| && i < |b| && a[i] != b[i] && forall j :: 0 <= j < i ==> a[j] == b[j]
  }

  lemma LexStep(a: string, b: string)
    requires a != "" && b != "" && a[0] == b[0]
    ensures a <= b <==> a[1..] <= b[1..]
    ensures forall i :: FirstDifference(a[1..], b[1..], i) ==> FirstDifference(a, b, i + 1)
    ensures forall i :: FirstDifference(a, b, i) ==> FirstDifference(a[1..], b[1..], i - 1)
  {
    if a[1..] <= b[1..] {
      assert forall i :: 0 < i < |a| ==> a[i] == a[1..][i - 1] == b[1..][i - 1] == b[i];
    }
    forall i | FirstDifference(a, b, i)
      ensures FirstDifference(a[1..], b[1..], i - 1)
    {
      assert i > 0;
      assert forall j :: 0 <= j < i - 1 ==> a[1..][j] == a[j + 1] == b[j + 1] == b[1..][j];
    }
  }

  /** Of one score, alerts come before events; and ids are compared as texts, so alert 10 comes before alert 9. */
  lemma KindsInOrder(i: int, j: int)
    ensures LexLeq(A(i).Key(), E(j).Key()) && !LexLeq(E(j).Key(), A(i).Key())
    ensures LexLeq(A(10).Key(), A(9).Key()) && !LexLeq(A(9).Key(), A(10).Key())
  {
    assert A(i).Key()[0] == 'a' && E(j).Key()[0] == 'e';
    assert Digits(10) == "10" && Digits(9) == "9";
    assert A(10).Key() == "a:10" && A(9).Key() == "a:9";
    assert FirstDifference("a:10", "a:9", 2);
    LexMeans("a:10", "a:9");
    LexMeans("a:9", "a:10");
    assert FirstDifference("a:9", "a:10", 2);
    assert forall k :: FirstDifference("a:9", "a:10", k) ==> k == 2;
  }
}
