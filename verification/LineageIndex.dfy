/** The PID index of the lineage builder: which rows belong to a process, and which processes it started. */
module LineageIndex {
  import opened Decimal
  import opened Records

  // ---------- the processes of a row ----------

  function PidOf(r: Row): int {
    if r.AlertRow? then r.alert.pid else AtoiLenient(FieldOf(r.event, "ProcessId"))
  }

  function ParentPidOf(r: Row): int {
    if r.AlertRow? then r.alert.parentPid else AtoiLenient(FieldOf(r.event, "ParentProcessId"))
  }

  /** The row says that process p started process c. */
  predicate Names(r: Row, p: int, c: int) {
    PidOf(r) == c && c > 0 && ParentPidOf(r) == p && p > 0 && p != c
  }

  predicate IsEdge(rows: seq<Row>, p: int, c: int) {
    exists i :: 0 <= i < |rows| && Names(rows[i], p, c)
  }

  // ---------- the packed edge ----------

  /** The 64 bits of (ppid << 32) | pid, as two halves. */
  datatype EdgeKey = EdgeKey(hi: int, lo: int)

  const TWO32: int := 0x1_0000_0000

  /** Bitwise or of two non-negative numbers. */
  function BitOr(a: nat, b: nat): nat
    decreases a + b
  {
    if a == 0 && b == 0 then 0
    else 2 * BitOr(a / 2, b / 2) + (if a % 2 == 1 || b % 2 == 1 then 1 else 0)
  }

  function Pack(ppid: int, pid: int): EdgeKey {
    EdgeKey(BitOr(ppid % TWO32, (pid / TWO32) % TWO32), pid % TWO32)
  }

  lemma {:induction false} OrZero(a: nat)
    ensures BitOr(a, 0) == a
  {
    if a > 0 { OrZero(a / 2); }
  }

  /** PIDs that fit the two halves. */
  predicate Small(ppid: int, pid: int) {
    0 < ppid < TWO32 && 0 < pid < TWO32
  }

  lemma PackInjective(p: int, c: int, q: int, d: int)
    requires Small(p, c) && Small(q, d) && Pack(p, c) == Pack(q, d)
    ensures p == q && c == d
  {
    hide BitOr;
    OrZero(p);
    OrZero(q);
  }

  /** Larger PIDs can collide. */
  lemma PackCollides()
    ensures Pack(1, 7) == Pack(1, TWO32 + 7)
  {
    OrOne();
    hide BitOr;
    OrZero(1);
  }

  lemma OrOne()
    ensures BitOr(1, 1) == 1
  {
    assert BitOr(0, 0) == 0;
  }

  // ---------- the index ----------

  function Get(m: map<int, seq<int>>, k: int): seq<int> {
    if k in m then m[k] else []
  }

  /** The places of the rows of a process, in order. */
  function PlacesOf(rows: seq<Row>, n: nat, pid: int): seq<int>
    requires n <= |rows|
  {
    if n == 0 then []
    else PlacesOf(rows, n - 1, pid) + (if PidOf(rows[n - 1]) == pid then [n - 1] else [])
  }

  ghost predicate NoDup(s: seq<int>) {
    forall i, j :: 0 <= i < j < |s| ==> s[i] != s[j]
  }

  lemma {:induction false} SetOfNoDup(s: seq<int>)
    requires NoDup(s)
    ensures |set x | x in s| == |s|
  {
    if s != [] {
      var init, last := s[..|s| - 1], s[|s| - 1];
      SetOfNoDup(init);
      assert last !in init;
      assert s == init + [last];
      assert (set x | x in s) == (set x | x in init) + {last};
    }
  }

  /** No two edges of the rows share a packed key. */
  ghost predicate KeysTell(rows: seq<Row>) {
    forall p, c, q, d :: IsEdge(rows, p, c) && IsEdge(rows, q, d) && Pack(p, c) == Pack(q, d) ==> p == q && c == d
  }

  /** The child lists hold exactly the edges. */
  ghost predicate Complete(rows: seq<Row>, byParent: map<int, seq<int>>) {
    forall p, c :: IsEdge(rows, p, c) ==> c in Get(byParent, p)
  }

  ghost predicate ListsEdges(rows: seq<Row>, byParent: map<int, seq<int>>) {
    && (forall p :: NoDup(Get(byParent, p)))
    && (forall p, c :: c in Get(byParent, p) ==> IsEdge(rows, p, c))
  }

  /** No two listed edges share a key. */
  ghost predicate KeysApart(byParent: map<int, seq<int>>) {
    forall p, c, q, d :: c in Get(byParent, p) && d in Get(byParent, q) && Pack(p, c) == Pack(q, d) ==> p == q && c == d
  }

  /** `seen` holds the key of every edge, and every key in it is the key of exactly one listed edge. */
  ghost predicate SeenOk(rows: seq<Row>, byParent: map<int, seq<int>>, seen: set<EdgeKey>) {
    && (forall p, c :: IsEdge(rows, p, c) ==> Pack(p, c) in seen)
    && (forall p, c :: c in Get(byParent, p) ==> Pack(p, c) in seen)
    && KeysApart(byParent)
    && (forall k :: k in seen ==> exists p, c :: IsEdge(rows, p, c) && Pack(p, c) == k && c in Get(byParent, p))
  }

  lemma EdgePush(rows: seq<Row>, r: Row)
    ensures forall p, c :: IsEdge(rows + [r], p, c) <==> IsEdge(rows, p, c) || Names(r, p, c)
  {
    var all := rows + [r];
    forall p, c
      ensures IsEdge(all, p, c) <==> IsEdge(rows, p, c) || Names(r, p, c)
    {
      if IsEdge(rows, p, c) {
        var i :| 0 <= i < |rows| && Names(rows[i], p, c);
        assert Names(all[i], p, c);
      }
      if Names(r, p, c) {
        assert Names(all[|rows|], p, c);
      }
    }
  }

  /** A row that names no new edge. */
  lemma SeenKeeps(rows: seq<Row>, r: Row, byParent: map<int, seq<int>>, seen: set<EdgeKey>)
    requires ListsEdges(rows, byParent) && SeenOk(rows, byParent, seen)
    requires forall p, c :: Names(r, p, c) ==> Pack(p, c) in seen
    ensures ListsEdges(rows + [r], byParent) && SeenOk(rows + [r], byParent, seen)
  {
    hide IsEdge, Names, Pack;
    EdgePush(rows, r);
    forall k | k in seen
      ensures exists p, c :: IsEdge(rows + [r], p, c) && Pack(p, c) == k && c in Get(byParent, p)
    {
      var p, c :| IsEdge(rows, p, c) && Pack(p, c) == k && c in Get(byParent, p);
      assert IsEdge(rows + [r], p, c);
    }
  }

  /** A row that does. */
  lemma ListsAdd(rows: seq<Row>, r: Row, byParent: map<int, seq<int>>, seen: set<EdgeKey>, p: int, c: int)
    requires ListsEdges(rows, byParent) && SeenOk(rows, byParent, seen)
    requires Names(r, p, c) && Pack(p, c) !in seen
    ensures ListsEdges(rows + [r], byParent[p := Get(byParent, p) + [c]])
  {
    EdgePush(rows, r);
    hide IsEdge, Names, Pack;
    var lists := byParent[p := Get(byParent, p) + [c]];
    assert c !in Get(byParent, p);
    assert forall q :: q != p ==> Get(lists, q) == Get(byParent, q);
    assert Get(lists, p) == Get(byParent, p) + [c];
    assert NoDup(Get(byParent, p));
  }

  lemma MoreListed(byParent: map<int, seq<int>>, p: int, c: int)
    ensures forall q, d :: d in Get(byParent[p := Get(byParent, p) + [c]], q) <==>
                             d in Get(byParent, q) || (q == p && d == c)
  {
  }

  lemma ApartAdds(byParent: map<int, seq<int>>, seen: set<EdgeKey>, p: int, c: int)
    requires KeysApart(byParent) && Pack(p, c) !in seen
    requires forall q, d :: d in Get(byParent, q) ==> Pack(q, d) in seen
    ensures KeysApart(byParent[p := Get(byParent, p) + [c]])
  {
    MoreListed(byParent, p, c);
    hide Get, Pack;
  }

  lemma SeenAdds(rows: seq<Row>, r: Row, byParent: map<int, seq<int>>, seen: set<EdgeKey>, p: int, c: int)
    requires ListsEdges(rows, byParent) && SeenOk(rows, byParent, seen)
    requires Names(r, p, c) && Pack(p, c) !in seen
    ensures SeenOk(rows + [r], byParent[p := Get(byParent, p) + [c]], seen + {Pack(p, c)})
  {
    EdgePush(rows, r);
    OneEdge(r, p, c);
    hide IsEdge, Names, Pack, ListsEdges;
    var lists := byParent[p := Get(byParent, p) + [c]];
    var keys := seen + {Pack(p, c)};
    MoreListed(byParent, p, c);
    ApartAdds(byParent, seen, p, c);
    hide Get, KeysApart;
    forall k | k in keys
      ensures exists q, d :: IsEdge(rows + [r], q, d) && Pack(q, d) == k && d in Get(lists, q)
    {
      if k in seen {
        var q, d :| IsEdge(rows, q, d) && Pack(q, d) == k && d in Get(byParent, q);
        assert IsEdge(rows + [r], q, d) && d in Get(lists, q);
      } else {
        assert IsEdge(rows + [r], p, c) && c in Get(lists, p);
      }
    }
  }

  lemma OneEdge(r: Row, p: int, c: int)
    requires Names(r, p, c)
    ensures forall q, d :: Names(r, q, d) ==> q == p && d == c
  {
  }

  /** The lists miss no edge exactly when the packed keys tell all edges apart. */
  lemma CompleteIff(rows: seq<Row>, byParent: map<int, seq<int>>, seen: set<EdgeKey>)
    requires ListsEdges(rows, byParent) && SeenOk(rows, byParent, seen)
    ensures Complete(rows, byParent) <==> KeysTell(rows)
  {
    hide IsEdge, Pack;
    if KeysTell(rows) {
      forall p, c | IsEdge(rows, p, c)
        ensures c in Get(byParent, p)
      {
        assert Pack(p, c) in seen;
        var q, d :| IsEdge(rows, q, d) && Pack(q, d) == Pack(p, c) && d in Get(byParent, q);
      }
    }
  }

  lemma NothingSeen(rows: seq<Row>)
    ensures ListsEdges(rows[..0], map[]) && SeenOk(rows[..0], map[], {})
    ensures RowsListed(rows, 0, map[])
  {
    var none: map<int, seq<int>> := map[];
    assert forall p :: Get(none, p) == [];
  }

  /** The indexing pass. `byPID` lists the rows of every process; `byParent` lists its children, each once,
      and all of them exactly when the packed keys tell all edges apart. */
  method BuildIndex(rows: seq<Row>) returns (byPID: map<int, seq<int>>, byParent: map<int, seq<int>>)
    ensures forall p :: Get(byPID, p) == if p > 0 then PlacesOf(rows, |rows|, p) else []
    ensures ListsEdges(rows, byParent)
    ensures Complete(rows, byParent) <==> KeysTell(rows)
  {
    byPID, byParent := map[], map[];
    var seen: set<EdgeKey> := {};
    NothingSeen(rows);
    hide *;
    for i := 0 to |rows|
      invariant RowsListed(rows, i, byPID)
      invariant ListsEdges(rows[..i], byParent) && SeenOk(rows[..i], byParent, seen)
    {
      assert rows[..i + 1] == rows[..i] + [rows[i]];
      byPID, byParent, seen := IndexRow(byPID, byParent, seen, rows, i);
    }
    assert rows[..|rows|] == rows;
    CompleteIff(rows, byParent, seen);
    AllListed(rows, byPID);
  }

  lemma AllListed(rows: seq<Row>, byPID: map<int, seq<int>>)
    requires RowsListed(rows, |rows|, byPID)
    ensures forall p :: Get(byPID, p) == if p > 0 then PlacesOf(rows, |rows|, p) else []
  {
  }

  /** The row lists after i rows. */
  ghost predicate RowsListed(rows: seq<Row>, i: int, byPID: map<int, seq<int>>)
    requires 0 <= i <= |rows|
  {
    forall p :: Get(byPID, p) == if p > 0 then PlacesOf(rows, i, p) else []
  }

  lemma RowListed(rows: seq<Row>, i: nat, byPID: map<int, seq<int>>)
    requires i < |rows| && RowsListed(rows, i, byPID)
    ensures var pid := PidOf(rows[i]);
            RowsListed(rows, i + 1, if pid <= 0 then byPID else byPID[pid := Get(byPID, pid) + [i]])
  {
    hide PidOf;
    var pid := PidOf(rows[i]);
    var after := if pid <= 0 then byPID else byPID[pid := Get(byPID, pid) + [i]];
    forall p
      ensures Get(after, p) == if p > 0 then PlacesOf(rows, i + 1, p) else []
    {
      assert Get(byPID, p) == if p > 0 then PlacesOf(rows, i, p) else [];
      assert PlacesOf(rows, i, p) + [] == PlacesOf(rows, i, p);
    }
  }

  /** One turn of the pass. */
  method IndexRow(byPID0: map<int, seq<int>>, byParent0: map<int, seq<int>>, seen0: set<EdgeKey>, rows: seq<Row>,
                  i: nat)
    returns (byPID: map<int, seq<int>>, byParent: map<int, seq<int>>, seen: set<EdgeKey>)
    requires i < |rows|
    requires RowsListed(rows, i, byPID0)
    requires ListsEdges(rows[..i], byParent0) && SeenOk(rows[..i], byParent0, seen0)
    ensures RowsListed(rows, i + 1, byPID)
    ensures ListsEdges(rows[..i] + [rows[i]], byParent) && SeenOk(rows[..i] + [rows[i]], byParent, seen)
  {
    hide Pack, IsEdge, ListsEdges, SeenOk, RowsListed, PidOf, ParentPidOf;
    RowListed(rows, i, byPID0);
    byPID, byParent, seen := byPID0, byParent0, seen0;
    var r := rows[i];
    var pid, ppid := PidOf(r), ParentPidOf(r);
    if pid <= 0 {
      SeenKeeps(rows[..i], r, byParent, seen);
      return;
    }
    byPID := byPID[pid := Get(byPID, pid) + [i]];
    if ppid <= 0 || ppid == pid {
      SeenKeeps(rows[..i], r, byParent, seen);
      return;
    }
    if Pack(ppid, pid) in seen {
      SeenKeeps(rows[..i], r, byParent, seen);
      return;
    }
    ListsAdd(rows[..i], r, byParent, seen, ppid, pid);
    SeenAdds(rows[..i], r, byParent, seen, ppid, pid);
    seen := seen + {Pack(ppid, pid)};
    byParent := byParent[ppid := Get(byParent, ppid) + [pid]];
  }

  /** PIDs of 32 bits are told apart. */
  lemma SmallPidsTell(rows: seq<Row>)
    requires forall i :: 0 <= i < |rows| ==> PidOf(rows[i]) < TWO32 && ParentPidOf(rows[i]) < TWO32
    ensures KeysTell(rows)
  {
    forall p, c, q, d | IsEdge(rows, p, c) && IsEdge(rows, q, d) && Pack(p, c) == Pack(q, d)
      ensures p == q && c == d
    {
      var i :| 0 <= i < |rows| && Names(rows[i], p, c);
      var j :| 0 <= j < |rows| && Names(rows[j], q, d);
      PackInjective(p, c, q, d);
    }
  }

  /** Every row of a process with a positive PID is in exactly one list, once. */
  lemma {:induction false} PlacesPartition(rows: seq<Row>, n: nat, pid: int)
    requires n <= |rows|
    ensures forall i :: i in PlacesOf(rows, n, pid) <==> 0 <= i < n && PidOf(rows[i]) == pid
    ensures forall i, j :: 0 <= i < j < |PlacesOf(rows, n, pid)|
                           ==> PlacesOf(rows, n, pid)[i] < PlacesOf(rows, n, pid)[j]
  {
    if n > 0 {
      PlacesPartition(rows, n - 1, pid);
      var before := PlacesOf(rows, n - 1, pid);
      assert forall i :: 0 <= i < |before| ==> before[i] in before;
    }
  }

  /** A process starts two others whose PIDs differ by 2^32. */
  const COLLIDING: seq<Row> := [
    BareAlert(1, 0, "rule", 7, 1),
    BareAlert(2, 1, "rule", TWO32 + 7, 1)
  ]

  /** Their keys are the same, so the child lists, however they are built, miss one of them. */
  lemma CollisionExample(lists: map<int, seq<int>>)
    requires ListsEdges(COLLIDING, lists) && (Complete(COLLIDING, lists) <==> KeysTell(COLLIDING))
    ensures IsEdge(COLLIDING, 1, 7) && IsEdge(COLLIDING, 1, TWO32 + 7) && !KeysTell(COLLIDING)
    ensures !(7 in Get(lists, 1) && TWO32 + 7 in Get(lists, 1))
  {
    PackCollides();
    assert Names(COLLIDING[0], 1, 7) && Names(COLLIDING[1], 1, TWO32 + 7);
    hide Pack, ListsEdges, Get;
    assert !KeysTell(COLLIDING);
    forall p, c | IsEdge(COLLIDING, p, c)
      ensures p == 1 && (c == 7 || c == TWO32 + 7)
    {
      var i :| 0 <= i < |COLLIDING| && Names(COLLIDING[i], p, c);
      assert i == 0 || i == 1;
    }
  }
}
