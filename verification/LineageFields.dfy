/** The lineage in terms of record fields: what the texts of an event say about processes, and where that puts them in
    the view. */
module LineageFields {
  import opened Decimal
  import opened Lineage
  import opened LineageBfs
  import opened LineageIndex
  import opened LineageNode
  import opened Records

  // ---------- what a record says ----------

  /** The text of a field; a field that is not there has none. */
  predicate HasText(e: Event, name: string, text: string) {
    name in e.fields && e.fields[name] == text
  }

  /** A record is about process c: an alert by its number, an event by a text that reads as that number. */
  ghost predicate About(r: Row, c: int) {
    match r
    case AlertRow(a, _) => a.pid == c > 0
    case EventRow(e, _) => "ProcessId" in e.fields && Reads(e.fields["ProcessId"], c)
  }

  ghost predicate NamesParent(r: Row, p: int) {
    match r
    case AlertRow(a, _) => a.parentPid == p > 0
    case EventRow(e, _) => "ParentProcessId" in e.fields && Reads(e.fields["ParentProcessId"], p)
  }

  lemma FieldReads(r: Row, n: int)
    requires n > 0
    ensures PidOf(r) == n <==> About(r, n)
    ensures ParentPidOf(r) == n <==> NamesParent(r, n)
  {
    if r.EventRow? {
      AtoiReads(FieldOf(r.event, "ProcessId"), n);
      AtoiReads(FieldOf(r.event, "ParentProcessId"), n);
      SilentText("", n);
    }
  }

  /** Process p started process c, as far as the records say, exactly when a record about c names p as the parent. */
  lemma EdgeMeans(rows: seq<Row>, p: int, c: int)
    ensures IsEdge(rows, p, c) <==>
              p != c && exists i :: 0 <= i < |rows| && About(rows[i], c) && NamesParent(rows[i], p)
  {
    hide PidOf, ParentPidOf, About, NamesParent;
    forall r: Row
      ensures Names(r, p, c) <==> p != c && About(r, c) && NamesParent(r, p)
    {
      NamesMeans(r, p, c);
    }
    if p != c && exists i :: 0 <= i < |rows| && About(rows[i], c) && NamesParent(rows[i], p) {
      var i :| 0 <= i < |rows| && About(rows[i], c) && NamesParent(rows[i], p);
      assert Names(rows[i], p, c);
    }
  }

  lemma NamesMeans(r: Row, p: int, c: int)
    ensures Names(r, p, c) <==> p != c && About(r, c) && NamesParent(r, p)
  {
    if p > 0 && c > 0 {
      FieldReads(r, p);
      FieldReads(r, c);
    }
  }

  /** The list of a process holds the places of the records about it, in order. */
  lemma PlacesMean(rows: seq<Row>, pid: int)
    requires pid > 0
    ensures forall i :: i in PlacesOf(rows, |rows|, pid) <==> 0 <= i < |rows| && About(rows[i], pid)
    ensures var list := PlacesOf(rows, |rows|, pid); forall i, j :: 0 <= i < j < |list| ==> list[i] < list[j]
  {
    hide About, PidOf;
    PlacesPartition(rows, |rows|, pid);
    forall i | 0 <= i < |rows|
      ensures PidOf(rows[i]) == pid <==> About(rows[i], pid)
    {
      FieldReads(rows[i], pid);
    }
  }

  /** The rows of a process are the records about it, and it is known exactly when there is one. */
  lemma OwnMeans(rows: seq<Row>, pid: int)
    ensures InRange(rows, PlacesOf(rows, |rows|, pid))
    ensures pid > 0 ==> Own(rows, pid) == RowsAt(rows, PlacesOf(rows, |rows|, pid))
    ensures Own(rows, pid) != [] <==> exists i :: 0 <= i < |rows| && About(rows[i], pid)
  {
    hide About;
    PlacesAreRows(rows, |rows|, pid);
    if pid > 0 {
      assert rows[..|rows|] == rows;
      PlacesMean(rows, pid);
      var list := PlacesOf(rows, |rows|, pid);
      assert list != [] ==> list[0] in list;
    } else {
      NobodyAbout(rows, pid);
    }
  }

  lemma NobodyAbout(rows: seq<Row>, pid: int)
    requires pid <= 0
    ensures forall i :: 0 <= i < |rows| ==> !About(rows[i], pid)
  {
  }

  /** An event that gives the numbers of a process and of its parent. */
  predicate StartEvent(r: Row, p: int, c: int) {
    r.EventRow? && HasText(r.event, "ProcessId", Itoa(c)) && HasText(r.event, "ParentProcessId", Itoa(p))
  }

  /** Such an event is an observed start of c by p, and is in the list of c; as the only record, it says nothing
      else. */
  lemma EventEdge(rows: seq<Row>, i: nat, p: Int64, c: Int64)
    requires i < |rows| && StartEvent(rows[i], p, c) && p > 0 && c > 0 && p != c
    ensures IsEdge(rows, p, c) && i in PlacesOf(rows, |rows|, c)
    ensures forall q, d :: IsEdge([rows[i]], q, d) <==> q == p && d == c
  {
    hide Reads, Itoa;
    PrintedReads(p, p);
    PrintedReads(c, c);
    EdgeMeans(rows, p, c);
    PlacesMean(rows, c);
    forall q, d
      ensures IsEdge([rows[i]], q, d) <==> q == p && d == c
    {
      EdgeMeans([rows[i]], q, d);
      OneRow(rows[i], q, d);
      OnlyPrinted(p, q);
      OnlyPrinted(c, d);
    }
  }

  lemma OnlyPrinted(m: Int64, n: int)
    requires m > 0
    ensures Reads(Itoa(m), n) <==> n == m
  {
    hide Itoa;
    if n > 0 {
      PrintedReads(m, n);
    }
  }

  lemma OneRow(r: Row, p: int, c: int)
    ensures (exists i :: 0 <= i < |[r]| && About([r][i], c) && NamesParent([r][i], p))
            <==> About(r, c) && NamesParent(r, p)
  {
    hide About, NamesParent;
    assert [r][0] == r;
  }

  /** No number is read from this field of the event: it is missing, or no digit stands where digits should start. */
  predicate NoNumber(e: Event, name: string) {
    name !in e.fields
    || var body := Unsigned(e.fields[name]); body == "" || !('0' <= body[0] <= '9')
  }

  /** An event without a number of its own gives no start and is in no list; without a number of a parent it gives no
      start. */
  lemma SilentEvent(rows: seq<Row>, i: nat)
    requires i < |rows| && rows[i].EventRow?
    ensures NoNumber(rows[i].event, "ProcessId") || NoNumber(rows[i].event, "ParentProcessId") ==>
              forall p, c :: !IsEdge([rows[i]], p, c)
    ensures NoNumber(rows[i].event, "ProcessId") ==> forall c :: c > 0 ==> i !in PlacesOf(rows, |rows|, c)
  {
    var e := rows[i].event;
    hide NoNumber, Reads;
    forall p, c
      ensures NoNumber(e, "ProcessId") || NoNumber(e, "ParentProcessId") ==> !IsEdge([rows[i]], p, c)
    {
      EdgeMeans([rows[i]], p, c);
      OneRow(rows[i], p, c);
      Unread(e, "ProcessId", c);
      Unread(e, "ParentProcessId", p);
    }
    forall c | c > 0
      ensures NoNumber(e, "ProcessId") ==> i !in PlacesOf(rows, |rows|, c)
    {
      PlacesMean(rows, c);
      Unread(e, "ProcessId", c);
    }
  }

  lemma Unread(e: Event, name: string, n: int)
    ensures NoNumber(e, name) && name in e.fields ==> !Reads(e.fields[name], n)
  {
    if name in e.fields && NoNumber(e, name) {
      SilentText(e.fields[name], n);
    }
  }

  // ---------- the parent ----------

  /** The latest parent, in terms of fields: none exactly when no record names one; otherwise one that a record names
      than which no record that names any is later, nor as late and before it. */
  lemma ParentMeans(own: seq<Row>)
    ensures LatestParent(own) >= 0
    ensures LatestParent(own) == 0 <==> forall k, p :: 0 <= k < |own| ==> !NamesParent(own[k], p)
    ensures LatestParent(own) > 0 ==>
              exists m :: 0 <= m < |own| && NamesParent(own[m], LatestParent(own)) && LatestNaming(own, m)
  {
    hide ParentPidOf, NamesParent, LatestParent;
    LatestIsLatest(own);
    forall k, p | 0 <= k < |own|
      ensures NamesParent(own[k], p) <==> p > 0 && ParentPidOf(own[k]) == p
    {
      NamesNumber(own[k], p);
    }
    if LatestParent(own) == 0 {
    } else {
      var m :| 0 <= m < |own| && ParentPidOf(own[m]) == LatestParent(own) && IsLatest(own, m);
      assert NamesParent(own[m], LatestParent(own)) && LatestNaming(own, m);
    }
    if exists k :: 0 <= k < |own| && ParentPidOf(own[k]) > 0 {
      var k :| 0 <= k < |own| && ParentPidOf(own[k]) > 0;
      assert NamesParent(own[k], ParentPidOf(own[k]));
    }
  }

  ghost predicate LatestNaming(own: seq<Row>, m: int)
    requires 0 <= m < |own|
  {
    forall k, p :: 0 <= k < |own| && NamesParent(own[k], p) ==>
      own[k].Ts() < own[m].Ts() || (own[k].Ts() == own[m].Ts() && m <= k)
  }

  lemma NamesNumber(r: Row, p: int)
    ensures NamesParent(r, p) <==> p > 0 && ParentPidOf(r) == p
  {
    if p > 0 {
      FieldReads(r, p);
    }
  }

  /** The process directly above the origin of a view is its latest parent; there is none exactly when there is no
      such parent, or it is the process itself. */
  lemma ParentAbove(rows: seq<Row>, pid: int, pp: seq<int>, chain: seq<int>)
    requires Upward(rows, pid, pp, chain)
    ensures var parent := LatestParent(Own(rows, pid));
            && (pp == [] <==> parent <= 0 || parent == pid)
            && (pp != [] ==> pp[|pp| - 1] == parent)
  {
    hide LatestParent, Own;
    if |chain| > 1 {
      assert Follows(rows, chain, 1);
      assert pp[|pp| - 1] == chain[1] && chain[0] != chain[1];
    }
  }

  // ---------- the view ----------

  /** No record holds a number of more than 32 bits. */
  ghost predicate SmallNumbers(rows: seq<Row>) {
    forall i, n :: 0 <= i < |rows| && (About(rows[i], n) || NamesParent(rows[i], n)) ==> n < 0x1_0000_0000
  }

  lemma SmallNumbersTell(rows: seq<Row>)
    requires SmallNumbers(rows)
    ensures KeysTell(rows)
  {
    hide PidOf, ParentPidOf, About, NamesParent;
    forall i | 0 <= i < |rows|
      ensures PidOf(rows[i]) < TWO32 && ParentPidOf(rows[i]) < TWO32
    {
      SmallRow(rows[i]);
    }
    SmallPidsTell(rows);
  }

  lemma SmallRow(r: Row)
    requires forall n :: About(r, n) || NamesParent(r, n) ==> n < TWO32
    ensures PidOf(r) < TWO32 && ParentPidOf(r) < TWO32
  {
    hide About, NamesParent;
    if PidOf(r) > 0 {
      FieldReads(r, PidOf(r));
    }
    if ParentPidOf(r) > 0 {
      FieldReads(r, ParentPidOf(r));
    }
  }

  /** A child of the origin is placed directly below it, if the node cap was not reached and it is not above. */
  lemma PlacedBelow(g: Graph, s: Bfs, c: int)
    requires Final(g, s) && s.total < MAX_NODES && c in Get(g.children, g.origin)
    requires c != g.origin && c !in g.ancestors
    ensures Keyed(s) && g.origin in s.depth && c in s.kids[g.origin] && c in s.depth
  {
    hide Counts, Order, Heads, Near, Get;
    assert Walk(g, g.origin, 0);
    assert Walk(g, c, 1);
    BelowCapComplete(g, s, c, 1);
    assert Shape(g, s) && KidsMatch(s);
    DepthIsDistance(g, s, c);
    hide Final;
    assert s.depth[c] == 1;
    var u := s.up[c];
    TreeWalk(g, s, u);
  }

  /** A record that says that p started c puts c directly below p in the view of p, one level down: unless c is among
      the parents of p, the view is full, or numbers of more than 32 bits are about. */
  method StartedBelow(rows: seq<Row>, i: nat, p: int, c: int) returns (view: LineageView)
    requires i < |rows| && About(rows[i], c) && NamesParent(rows[i], p) && p != c
    ensures view.originPid == view.origin.pid == p && view.origin.depth == |view.parents|
    ensures SmallNumbers(rows) && view.nodeCount < 300
            && (forall j :: 0 <= j < |view.parents| ==> view.parents[j].pid != c)
            ==> exists k :: 0 <= k < |view.origin.children| && view.origin.children[k].pid == c
                            && view.origin.children[k].depth == view.origin.depth + 1
  {
    hide Upward, Spine, Final, InOrder, Stitched, Marked, ListsEdges, Complete, KeysTell, Own, About, NamesParent;
    hide SmallNumbers, Level, Whole;
    ghost var g, pp, chain, s, nodes;
    view, g, pp, chain, s, nodes := BuildLineage(rows, p);
    EdgeMeans(rows, p, c);
    OriginNode(g, pp, s, nodes);
    WholeCount(g, pp, s);
    assert |nodes| == |nodes.Keys|;
    if SmallNumbers(rows) && view.nodeCount < 300
       && forall j :: 0 <= j < |view.parents| ==> view.parents[j].pid != c {
      SmallNumbersTell(rows);
      NotAbove(g, pp, s, nodes, c);
      ChildNode(rows, g, pp, s, nodes, c);
    }
  }

  lemma NotAbove(g: Graph, pp: seq<int>, s: Bfs, nodes: map<int, LinNode>, c: int)
    requires Spine(g, pp) && Stitched(g, pp, s, nodes)
    requires forall i :: 0 <= i < |pp| ==> pp[i] in nodes && nodes[pp[i]].pid != c
    ensures c !in g.ancestors
  {
    assert forall i :: 0 <= i < |pp| ==> nodes[pp[i]].pid == pp[i];
  }

  lemma OriginNode(g: Graph, pp: seq<int>, s: Bfs, nodes: map<int, LinNode>)
    requires Final(g, s) && Spine(g, pp) && Stitched(g, pp, s, nodes)
    ensures g.origin in Whole(pp, s) && Level(pp, s, g.origin) == |pp|
    ensures g.origin in nodes && nodes[g.origin].pid == g.origin
  {
    hide Counts, Order, Heads, Near, KidsMatch;
    assert Shape(g, s);
    hide Final;
  }

  lemma ChildNode(rows: seq<Row>, g: Graph, pp: seq<int>, s: Bfs, nodes: map<int, LinNode>, c: int)
    requires Final(g, s) && Spine(g, pp) && Stitched(g, pp, s, nodes) && s.total < MAX_NODES
    requires Complete(rows, g.children) && IsEdge(rows, g.origin, c) && c != g.origin && c !in g.ancestors
    ensures g.origin in nodes && c in nodes && nodes[c].pid == c && c in Whole(pp, s)
    ensures Level(pp, s, c) == |pp| + 1
    ensures exists k :: 0 <= k < |nodes[g.origin].children| && nodes[g.origin].children[k] == nodes[c]
  {
    PlacedBelow(g, s, c);
    OriginNode(g, pp, s, nodes);
    KidsBelow(g, pp, s, g.origin, c);
    hide Final, Spine;
    var kids := s.kids[g.origin];
    var k :| 0 <= k < |kids| && kids[k] == c;
    assert nodes[g.origin].children[k] == nodes[c];
  }

  // ---------- one event ----------

  /** A Process event: 100 started 200. */
  const START_EVENT: Row :=
    EventRow(Event(1, 0, "Process", 1, 0, map["ProcessId" := "200", "ParentProcessId" := "100"]), None)

  lemma ExampleTexts()
    ensures StartEvent(START_EVENT, 100, 200)
  {
    assert Digits(10) == "10" && Digits(100) == "100";
    assert Digits(20) == "20" && Digits(200) == "200";
  }

  /** What the event says. */
  ghost predicate OneStart(g: Graph) {
    forall p, c :: c in Get(g.children, p) <==> p == 100 && c == 200
  }

  lemma StartGraph(g: Graph)
    requires ListsEdges([START_EVENT], g.children)
    requires Complete([START_EVENT], g.children) <==> KeysTell([START_EVENT])
    ensures OneStart(g)
  {
    ExampleTexts();
    EventEdge([START_EVENT], 0, 100, 200);
    ExampleNumbers();
    SmallPidsTell([START_EVENT]);
    hide IsEdge, KeysTell, NoDup, Get;
    forall p, c
      ensures c in Get(g.children, p) <==> p == 100 && c == 200
    {
      assert IsEdge([START_EVENT], p, c) <==> c in Get(g.children, p);
    }
  }

  lemma ExampleNumbers()
    ensures PidOf(START_EVENT) == 200 && ParentPidOf(START_EVENT) == 100
  {
    ExampleTexts();
    hide Itoa;
    PrintedReads(200, 200);
    PrintedReads(100, 100);
    FieldReads(START_EVENT, 200);
    FieldReads(START_EVENT, 100);
  }

  lemma ExampleParents()
    ensures Own([START_EVENT], 100) == [] && Own([START_EVENT], 200) == [START_EVENT]
    ensures LatestParent(Own([START_EVENT], 100)) == 0 && LatestParent(Own([START_EVENT], 200)) == 100
  {
    ExampleNumbers();
    hide PidOf, ParentPidOf;
    assert [START_EVENT][..0] == [];
    assert RowsOf([START_EVENT], 100) == RowsOf([], 100) == [];
    assert RowsOf([START_EVENT], 200) == RowsOf([], 200) + [START_EVENT];
    assert LatestPlace([]) == -1;
  }

  /** With the origin above, the search finds the child; with the origin below, nothing. */
  lemma StartSearch(g: Graph, s: Bfs)
    requires OneStart(g) && Final(g, s) && g.base <= 2
    requires g.origin == 200 || (g.origin == 100 && g.ancestors == {})
    ensures Keyed(s) && !s.truncated && s.depth.Keys == (if g.origin == 100 then {100, 200} else {200})
    ensures s.kids[g.origin] == if g.origin == 100 then [200] else []
  {
    StartReached(g, s);
    NodeCount(g, s);
    if g.origin == 100 {
      PlacedBelow(g, s, 200);
    }
    StartKids(g, s);
    hide Final;
    TruncatedIff(g, s);
    forall u, w
      ensures !Dropped(g, s, u, w)
    {
      assert w in Get(g.children, u) ==> u == 100 && w == 200;
    }
  }

  lemma StartKids(g: Graph, s: Bfs)
    requires OneStart(g) && Final(g, s)
    requires forall v :: v in s.depth ==> v == g.origin || (g.origin == 100 && v == 200)
    ensures Keyed(s) && g.origin in s.depth && s.depth[g.origin] == 0
    ensures s.kids[g.origin] == [] || (g.origin == 100 && s.kids[g.origin] == [200])
  {
    hide Counts, Order, Heads, Near, Get;
    assert Shape(g, s) && KidsMatch(s);
    hide Final;
    var kids := s.kids[g.origin];
    forall v | v in kids
      ensures v == 200 && g.origin == 100
    {
      assert v in s.up && v in Get(g.children, s.up[v]);
    }
    AllOne(kids, 200);
    assert kids != [] ==> kids[0] in kids;
  }

  lemma AllOne(list: seq<int>, x: int)
    requires NoDup(list) && forall v :: v in list ==> v == x
    ensures list == [] || list == [x]
  {
    var seen := set v | v in list;
    SetOfNoDup(list);
    assert seen <= {x};
    Inside(seen, {x});
    assert list != [] ==> list[0] in list;
  }

  lemma StartReached(g: Graph, s: Bfs)
    requires OneStart(g) && Final(g, s)
    ensures forall v :: v in s.depth ==> v == g.origin || (g.origin == 100 && v == 200)
    ensures |s.depth| <= 2
  {
    hide Final, Walk;
    forall v | v in s.depth
      ensures v == g.origin || (g.origin == 100 && v == 200)
    {
      DepthIsDistance(g, s, v);
      StartWalk(g, v, s.depth[v]);
    }
    var two := {g.origin, 200};
    Inside(s.depth.Keys, two);
    assert |s.depth| == |s.depth.Keys|;
  }

  lemma {:induction false} StartWalk(g: Graph, v: int, n: nat)
    requires OneStart(g) && Walk(g, v, n)
    ensures if n == 0 then v == g.origin else n == 1 && g.origin == 100 && v == 200
  {
    if n > 0 {
      var u :| Walk(g, u, n - 1) && v in Get(g.children, u);
      StartWalk(g, u, n - 1);
    }
  }

  /** The view of the process that was started earlier: its child hangs below it. */
  method DownExample() returns (view: LineageView)
    ensures !view.originExists && view.parents == [] && view.nodeCount == 2 && !view.truncated
    ensures |view.origin.children| == 1 && view.origin.children[0].pid == 200 && view.origin.children[0].depth == 1
  {
    hide Upward, Spine, Final, InOrder, Marked, ListsEdges, Complete, KeysTell, Own, OneStart, LatestParent;
    ghost var g, pp, chain, s, nodes;
    view, g, pp, chain, s, nodes := BuildLineage([START_EVENT], 100);
    StartGraph(g);
    ExampleParents();
    ParentAbove([START_EVENT], 100, pp, chain);
    NoParents(g, pp);
    StartSearch(g, s);
    assert Whole(pp, s) == {100, 200};
    assert |nodes| == |nodes.Keys| == 2;
    OriginNode(g, pp, s, nodes);
    StartLevel(g, s);
  }

  lemma StartLevel(g: Graph, s: Bfs)
    requires OneStart(g) && Final(g, s) && 200 in s.depth && g.origin == 100
    ensures s.depth[200] == 1
  {
    hide Final;
    DepthIsDistance(g, s, 200);
    StartWalk(g, 200, s.depth[200]);
  }

  lemma NoParents(g: Graph, pp: seq<int>)
    requires Spine(g, pp)
    ensures g.base == 1 + |pp| && (pp == [] ==> g.ancestors == {})
  {
    if pp == [] {
      assert forall p :: p !in g.ancestors;
    }
  }

  /** The view of the process that was started: its parent is above it. */
  method UpExample() returns (view: LineageView)
    ensures view.originExists && |view.parents| == 1 && view.parents[0].pid == 100 && view.nodeCount == 2
    ensures view.origin.depth == 1 && view.origin.children == []
  {
    hide Upward, Spine, Final, InOrder, Marked, ListsEdges, Complete, KeysTell, Own, OneStart, LatestParent;
    ghost var g, pp, chain, s, nodes;
    view, g, pp, chain, s, nodes := BuildLineage([START_EVENT], 200);
    StartGraph(g);
    ExampleParents();
    ParentAbove([START_EVENT], 200, pp, chain);
    OneParentOnly(pp, chain);
    NoParents(g, pp);
    StartSearch(g, s);
    assert pp == [100];
    assert Whole(pp, s) == {100, 200};
    assert |nodes| == |nodes.Keys| == 2;
    OriginNode(g, pp, s, nodes);
  }

  lemma OneParentOnly(pp: seq<int>, chain: seq<int>)
    requires Upward([START_EVENT], 200, pp, chain) && pp != [] && pp[|pp| - 1] == 100
    ensures |pp| == 1
  {
    hide LatestParent, Own;
    ExampleParents();
    if |chain| > 2 {
      ChainNext([START_EVENT], chain, 2);
    }
  }

  /** Both views of that one event: 200 hangs below 100, whichever of the two is looked at. */
  method EventExample() returns (down: LineageView, up: LineageView)
    ensures !down.originExists && down.parents == [] && down.nodeCount == 2 && !down.truncated
    ensures |down.origin.children| == 1 && down.origin.children[0].pid == 200
    ensures up.originExists && |up.parents| == 1 && up.parents[0].pid == 100 && up.nodeCount == 2
    ensures up.origin.children == []
  {
    down := DownExample();
    up := UpExample();
  }
}
