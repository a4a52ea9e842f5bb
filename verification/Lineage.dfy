/** The lineage builder: the chain of parents above a process, the capped search below it, both stitched into one
    tree of mutable nodes. */
module Lineage {
  import opened LineageBfs
  import opened LineageIndex
  import opened LineageNode
  import opened LineageProfile
  import opened Records

  // ---------- lookups ----------

  ghost predicate Indexed(rows: seq<Row>, byPID: map<int, seq<int>>) {
    forall p :: Get(byPID, p) == if p > 0 then PlacesOf(rows, |rows|, p) else []
  }

  lemma Lookup(rows: seq<Row>, byPID: map<int, seq<int>>, pid: int)
    requires Indexed(rows, byPID)
    ensures InRange(rows, Get(byPID, pid)) && RowsAt(rows, Get(byPID, pid)) == Own(rows, pid)
    ensures |Get(byPID, pid)| == |Own(rows, pid)|
  {
    if pid > 0 {
      PlacesAreRows(rows, |rows|, pid);
      assert rows[..|rows|] == rows;
    }
  }

  // ---------- upward ----------

  function ParentOf(rows: seq<Row>, pid: int): int {
    LatestParent(Own(rows, pid))
  }

  ghost predicate Follows(rows: seq<Row>, c: seq<int>, k: int)
    requires 0 < k < |c|
  {
    c[k] == ParentOf(rows, c[k - 1]) && c[k] > 0
  }

  /** Every PID is the latest parent of the one before it, and none occurs twice. */
  ghost predicate Chain(rows: seq<Row>, c: seq<int>) {
    && c != [] && NoDup(c)
    && forall k :: 0 < k < |c| ==> Follows(rows, c, k)
  }

  /** A chain that stops only where there is no parent, or the parent is on it already. */
  ghost predicate Maximal(rows: seq<Row>, c: seq<int>) {
    Chain(rows, c) && var p := ParentOf(rows, c[|c| - 1]); p <= 0 || p in c
  }

  /** The rows alone decide the chain. */
  lemma {:induction false} MaximalUnique(rows: seq<Row>, a: seq<int>, b: seq<int>)
    requires Maximal(rows, a) && Maximal(rows, b) && a[0] == b[0]
    ensures a == b
  {
    NoLonger(rows, a, b);
    NoLonger(rows, b, a);
    SamePrefix(rows, a, b, |a|);
  }

  lemma NoLonger(rows: seq<Row>, a: seq<int>, b: seq<int>)
    requires Maximal(rows, a) && Chain(rows, b) && a[0] == b[0]
    ensures |b| <= |a|
  {
    if |a| < |b| {
      ChainNext(rows, b, |a|);
      WholePrefix(rows, a, b);
    }
  }

  lemma ChainNext(rows: seq<Row>, c: seq<int>, n: nat)
    requires Chain(rows, c) && 0 < n < |c|
    ensures ParentOf(rows, c[..n][n - 1]) == c[n] > 0 && c[n] !in c[..n]
  {
    assert Follows(rows, c, n);
  }

  lemma WholePrefix(rows: seq<Row>, a: seq<int>, b: seq<int>)
    requires Chain(rows, a) && Chain(rows, b) && a[0] == b[0] && |a| <= |b|
    ensures a == b[..|a|]
  {
    SamePrefix(rows, a, b, |a|);
  }

  lemma {:induction false} SamePrefix(rows: seq<Row>, a: seq<int>, b: seq<int>, n: nat)
    requires Chain(rows, a) && Chain(rows, b) && a[0] == b[0] && n <= |a| && n <= |b|
    ensures forall k :: 0 <= k < n ==> a[k] == b[k]
  {
    if n > 1 {
      SamePrefix(rows, a, b, n - 1);
      assert Follows(rows, a, n - 1) && Follows(rows, b, n - 1);
    }
  }

  ghost function Named(rows: seq<Row>): set<int> {
    set i | 0 <= i < |rows| :: ParentPidOf(rows[i])
  }

  lemma {:induction false} RowsOfInside(rows: seq<Row>, pid: int)
    ensures forall r :: r in RowsOf(rows, pid) ==> r in rows
  {
    if rows != [] {
      RowsOfInside(rows[..|rows| - 1], pid);
    }
  }

  lemma ParentIsNamed(rows: seq<Row>, pid: int)
    requires ParentOf(rows, pid) > 0
    ensures ParentOf(rows, pid) in Named(rows)
  {
    var own := Own(rows, pid);
    var r := LatestPlace(own);
    RowsOfInside(rows, pid);
    assert own[r] in own;
    var i :| 0 <= i < |rows| && rows[i] == own[r];
  }

  /** A node as it is built. */
  ghost predicate Unlinked(rows: seq<Row>, n: LinNode)
    reads n
  {
    && n.shown == ProfileOf(n.pid, Own(rows, n.pid))
    && !n.isOrigin && n.depth == 0 && n.children == [] && n.childrenTruncated == 0
  }

  lemma ChainPush(rows: seq<Row>, c: seq<int>, p: int)
    requires Chain(rows, c) && p == ParentOf(rows, c[|c| - 1]) && p > 0 && p !in c
    ensures Chain(rows, c + [p])
  {
    hide ParentOf;
    var d := c + [p];
    forall k | 0 < k < |d|
      ensures Follows(rows, d, k)
    {
      assert k < |c| ==> Follows(rows, c, k);
    }
    forall i, j | 0 <= i < j < |d|
      ensures d[i] != d[j]
    {
      assert d[i] == c[i] && c[i] in c;
      assert j < |c| ==> d[j] == c[j];
    }
  }

  method WalkUp(rows: seq<Row>, byPID: map<int, seq<int>>, originPid: int)
    returns (parents: seq<LinNode>, ghost chain: seq<int>)
    requires Indexed(rows, byPID)
    ensures Maximal(rows, chain) && chain[0] == originPid
    ensures |parents| == |chain| - 1
    ensures forall i :: 0 <= i < |parents| ==>
              fresh(parents[i]) && parents[i].pid == chain[|chain| - 1 - i]
              && Unlinked(rows, parents[i]) && parents[i].isAncestor
  {
    hide PlacesOf, RowsOf, ProfileOf, Named, LatestParent, Indexed, Own, RowsAt;
    var cur := originPid;
    var chainSeen := {cur};
    parents := [];
    chain := [cur];
    assert Chain(rows, chain);
    hide Chain;
    while true
      invariant Chain(rows, chain) && chain[0] == originPid && cur == chain[|chain| - 1]
      invariant forall p :: p in chainSeen <==> p in chain
      invariant |parents| == |chain| - 1
      invariant forall i :: 0 <= i < |parents| ==>
                  fresh(parents[i]) && parents[i].pid == chain[|chain| - 1 - i]
                  && Unlinked(rows, parents[i]) && parents[i].isAncestor
      decreases Named(rows) - chainSeen
    {
      Lookup(rows, byPID, cur);
      var ppid := MostRecentParentPid(rows, Get(byPID, cur));
      assert ppid == ParentOf(rows, cur);
      if ppid <= 0 || ppid == cur || ppid in chainSeen {
        break;
      }
      ParentIsNamed(rows, cur);
      assert Named(rows) - (chainSeen + {ppid}) < Named(rows) - chainSeen;
      chainSeen := chainSeen + {ppid};
      ChainPush(rows, chain, ppid);
      Lookup(rows, byPID, ppid);
      var parent := BuildLinNode(rows, ppid, Get(byPID, ppid));
      parent.isAncestor := true;
      parents := [parent] + parents;
      chain := chain + [ppid];
      cur := ppid;
    }
  }

  // ---------- downward ----------

  ghost predicate Ascending(list: seq<int>) {
    forall i, j :: 0 <= i < j < |list| ==> list[i] < list[j]
  }

  function InsertInt(list: seq<int>, x: int): (r: seq<int>)
    ensures multiset(r) == multiset(list) + multiset{x}
  {
    if list == [] then [x]
    else if x <= list[0] then [x] + list
    else
      assert list == [list[0]] + list[1..];
      [list[0]] + InsertInt(list[1..], x)
  }

  /** The children in PID order. */
  function SortInts(list: seq<int>): (r: seq<int>)
    ensures multiset(r) == multiset(list)
  {
    if list == [] then []
    else
      assert list == [list[0]] + list[1..];
      InsertInt(SortInts(list[1..]), list[0])
  }

  lemma {:induction false} InsertAscending(list: seq<int>, x: int)
    requires Ascending(list) && x !in list
    ensures Ascending(InsertInt(list, x))
  {
    if list != [] && x > list[0] {
      InsertAscending(list[1..], x);
      var rest := InsertInt(list[1..], x);
      forall k | 0 <= k < |rest|
        ensures rest[k] > list[0]
      {
        assert rest[k] in multiset(rest);
        assert rest[k] == x || rest[k] in list[1..];
      }
    }
  }

  lemma {:induction false} SortAscending(list: seq<int>)
    requires NoDup(list)
    ensures Ascending(SortInts(list))
    ensures forall x :: x in SortInts(list) <==> x in list
  {
    if list != [] {
      SortAscending(list[1..]);
      assert list[0] !in list[1..];
      InsertAscending(SortInts(list[1..]), list[0]);
    }
    assert forall x :: x in SortInts(list) <==> x in multiset(SortInts(list));
  }

  datatype Item = Item(node: LinNode, depth: int)

  ghost predicate Linked(nodes: map<int, LinNode>, children: seq<LinNode>, kids: seq<int>) {
    |children| == |kids| && forall i :: 0 <= i < |kids| ==> kids[i] in nodes && children[i] == nodes[kids[i]]
  }

  /** The nodes show the state of the search. */
  ghost predicate Mirrors(s: Bfs, nodes: map<int, LinNode>)
    reads set p | p in nodes :: nodes[p]`children
    reads set p | p in nodes :: nodes[p]`childrenTruncated
  {
    && nodes.Keys == s.depth.Keys && Keyed(s)
    && forall p :: p in nodes ==>
         nodes[p].pid == p && Linked(nodes, nodes[p].children, s.kids[p]) && nodes[p].childrenTruncated == s.dropped[p]
  }

  ghost predicate Queued(s: Bfs, nodes: map<int, LinNode>, queue: seq<Item>) {
    |queue| == |s.queue|
    && forall i :: 0 <= i < |queue| ==>
         s.queue[i] in nodes && s.queue[i] in s.depth && queue[i] == Item(nodes[s.queue[i]], s.depth[s.queue[i]])
  }

  /** The variables of the search agree with its state. */
  ghost predicate Tracks(g: Graph, s: Bfs, nodes: map<int, LinNode>, placed: set<int>, total: int, truncated: bool,
                         queue: seq<Item>) {
    && nodes.Keys == s.depth.Keys && Queued(s, nodes, queue)
    && placed == s.depth.Keys + g.ancestors && total == s.total && truncated == s.truncated
  }

  ghost predicate AllPlain(rows: seq<Row>, nodes: map<int, LinNode>)
    reads set p | p in nodes :: nodes[p]`shown
    reads set p | p in nodes :: nodes[p]`isAncestor
    reads set p | p in nodes :: nodes[p]`isOrigin
    reads set p | p in nodes :: nodes[p]`depth
  {
    forall p :: p in nodes ==>
      nodes[p].shown == ProfileOf(p, Own(rows, p)) && !nodes[p].isAncestor && !nodes[p].isOrigin && nodes[p].depth == 0
  }

  ghost predicate InOrder(s: Bfs) {
    forall p :: p in s.kids ==> Ascending(s.kids[p])
  }

  ghost predicate Extends(nodes: map<int, LinNode>, more: map<int, LinNode>) {
    forall p :: p in nodes ==> p in more && more[p] == nodes[p]
  }

  lemma LinkedStays(nodes: map<int, LinNode>, w: int, child: LinNode, children: seq<LinNode>, kids: seq<int>)
    requires Linked(nodes, children, kids) && w !in nodes
    ensures Linked(nodes[w := child], children, kids)
    ensures Linked(nodes[w := child], children + [child], kids + [w])
  {
  }

  lemma LinkedEmpty(nodes: map<int, LinNode>)
    ensures Linked(nodes, [], [])
  {
  }

  lemma MirrorsPlace(g: Graph, s: Bfs, u: int, w: int, nodes: map<int, LinNode>, child: LinNode,
                     before: map<int, seq<LinNode>>)
    requires Keyed(s) && nodes.Keys == s.depth.Keys == before.Keys
    requires u in nodes && !Placed(g, s, w) && s.total < MAX_NODES
    requires forall p :: p in nodes ==>
               && nodes[p].pid == p && nodes[p].childrenTruncated == s.dropped[p]
               && nodes[p].children == (if p == u then before[p] + [child] else before[p])
               && Linked(nodes, before[p], s.kids[p])
    requires child.pid == w && child.children == [] && child.childrenTruncated == 0
    ensures Mirrors(Offer(g, s, u, w), nodes[w := child])
  {
    OfferPlaces(g, s, u, w);
    hide Offer, Linked;
    var t := Offer(g, s, u, w);
    var more := nodes[w := child];
    assert t.depth.Keys == more.Keys && Keyed(t);
    forall p | p in more
      ensures more[p].pid == p && Linked(more, more[p].children, t.kids[p]) && more[p].childrenTruncated == t.dropped[p]
    {
      if p == w {
        LinkedEmpty(more);
      } else {
        LinkedStays(nodes, w, child, before[p], s.kids[p]);
      }
    }
  }

  /** The node of a new child, appended to the head. */
  method PlaceChild(rows: seq<Row>, byPID: map<int, seq<int>>, ghost g: Graph, ghost s: Bfs,
                    ghost nodes: map<int, LinNode>, head: LinNode, w: int)
    returns (child: LinNode)
    requires Indexed(rows, byPID)
    requires Mirrors(s, nodes)
    requires head.pid in nodes && nodes[head.pid] == head && !Placed(g, s, w) && s.total < MAX_NODES
    modifies head`children
    ensures fresh(child) && child.pid == w && child.shown == ProfileOf(w, Own(rows, w))
    ensures !child.isAncestor && !child.isOrigin && child.depth == 0
    ensures Mirrors(Offer(g, s, head.pid, w), nodes[w := child])
  {
    ghost var u := head.pid;
    assert w !in nodes;
    hide Offer, Placed, PlacesOf, RowsOf, ProfileOf, Indexed, Own, RowsAt, Linked;
    Lookup(rows, byPID, w);
    ghost var before := map p | p in nodes :: nodes[p].children;
    child := BuildLinNode(rows, w, Get(byPID, w));
    head.children := head.children + [child];
    MirrorsPlace(g, s, u, w, nodes, child, before);
  }

  lemma TracksPlace(g: Graph, s: Bfs, nodes: map<int, LinNode>, placed: set<int>, total: int, truncated: bool,
                    queue: seq<Item>, u: int, w: int, child: LinNode)
    requires Keyed(s) && u in s.depth && w !in placed && total < MAX_NODES
    requires Tracks(g, s, nodes, placed, total, truncated, queue)
    ensures !Placed(g, s, w)
    ensures Tracks(g, Offer(g, s, u, w), nodes[w := child], placed + {w}, total + 1, truncated,
                   queue + [Item(child, s.depth[u] + 1)])
  {
    OfferPlaces(g, s, u, w);
    hide Offer;
    var t := Offer(g, s, u, w);
    assert t.depth.Keys == s.depth.Keys + {w};
  }

  lemma TracksDrop(g: Graph, s: Bfs, nodes: map<int, LinNode>, placed: set<int>, total: int, truncated: bool,
                   queue: seq<Item>, u: int, w: int)
    requires Keyed(s) && u in s.depth && w !in placed && total >= MAX_NODES
    requires Tracks(g, s, nodes, placed, total, truncated, queue)
    ensures !Placed(g, s, w)
    ensures Tracks(g, Offer(g, s, u, w), nodes, placed, total, true, queue)
  {
  }

  ghost predicate Within(list: seq<int>, part: seq<int>) {
    forall v :: v in list ==> v in part
  }

  lemma WithinNothing(part: seq<int>)
    ensures Within([], part)
  {
  }

  lemma KidsInOrder(g: Graph, s: Bfs, u: int, w: int, part: seq<int>)
    requires Keyed(s) && u in s.depth && InOrder(s)
    requires Ascending(part + [w]) && Within(s.kids[u], part)
    ensures InOrder(Offer(g, s, u, w)) && Within(Offer(g, s, u, w).kids[u], part + [w])
  {
    var t := Offer(g, s, u, w);
    if t != s && s.total < MAX_NODES {
      OfferPlaces(g, s, u, w);
      var kids := s.kids[u];
      assert Ascending(kids);
      forall i | 0 <= i < |kids|
        ensures kids[i] < w
      {
        assert kids[i] in kids;
        assert kids[i] in part;
        var k :| 0 <= k < |part| && part[k] == kids[i];
        assert (part + [w])[k] < (part + [w])[|part|];
      }
    }
  }

  /** The nodes, the variables of the search and its state agree. */
  ghost predicate Shows(rows: seq<Row>, g: Graph, s: Bfs, nodes: map<int, LinNode>, placed: set<int>, total: int,
                        truncated: bool, queue: seq<Item>)
    reads set p | p in nodes :: nodes[p]
  {
    Mirrors(s, nodes) && AllPlain(rows, nodes) && Tracks(g, s, nodes, placed, total, truncated, queue)
  }

  /** One child of the head. */
  method OfferChild(rows: seq<Row>, byPID: map<int, seq<int>>, ghost g: Graph, ghost s: Bfs,
                    ghost nodes0: map<int, LinNode>, head: LinNode, depth: int, w: int,
                    placed0: set<int>, total0: int, truncated0: bool, queue0: seq<Item>)
    returns (placed: set<int>, total: int, truncated: bool, queue: seq<Item>, ghost nodes: map<int, LinNode>)
    requires Indexed(rows, byPID) && Shows(rows, g, s, nodes0, placed0, total0, truncated0, queue0)
    requires head.pid in nodes0 && nodes0[head.pid] == head && s.depth[head.pid] == depth
    modifies head`children, head`childrenTruncated
    ensures Extends(nodes0, nodes) && forall p :: p in nodes && p !in nodes0 ==> fresh(nodes[p])
    ensures Shows(rows, g, Offer(g, s, head.pid, w), nodes, placed, total, truncated, queue)
    ensures total - total0 == |queue| - |queue0| >= 0 && (total > total0 ==> total <= MAX_NODES)
  {
    hide Indexed, RowsOf, Own, ProfileOf, Linked, Queued, Mirrors;
    placed, total, truncated, queue, nodes := placed0, total0, truncated0, queue0, nodes0;
    MirrorsKeyed(s, nodes);
    if w in placed {
      return;
    }
    if total >= MAX_NODES {
      TracksDrop(g, s, nodes, placed, total, truncated, queue, head.pid, w);
      DropChild(rows, g, s, nodes, head, w);
      truncated := true;
      hide Offer, Mirrors, Tracks, AllPlain;
    } else {
      TracksPlace(g, s, nodes, placed, total, truncated, queue, head.pid, w, head);
      var child := PlaceChild(rows, byPID, g, s, nodes, head, w);
      TracksPlace(g, s, nodes, placed, total, truncated, queue, head.pid, w, child);
      nodes := nodes[w := child];
      placed := placed + {w};
      total := total + 1;
      queue := queue + [Item(child, depth + 1)];
      assert AllPlain(rows, nodes) by {
        hide Offer, Mirrors, Tracks;
      }
      hide Offer, Mirrors, Tracks, AllPlain;
    }
  }

  lemma MirrorsKeyed(s: Bfs, nodes: map<int, LinNode>)
    requires Mirrors(s, nodes)
    ensures Keyed(s) && nodes.Keys == s.depth.Keys && forall p :: p in nodes ==> nodes[p].pid == p
  {
  }

  method DropChild(rows: seq<Row>, ghost g: Graph, ghost s: Bfs, ghost nodes: map<int, LinNode>, head: LinNode, w: int)
    requires Mirrors(s, nodes) && AllPlain(rows, nodes)
    requires head.pid in nodes && nodes[head.pid] == head && !Placed(g, s, w) && s.total >= MAX_NODES
    modifies head`childrenTruncated
    ensures Mirrors(Offer(g, s, head.pid, w), nodes) && AllPlain(rows, nodes)
  {
    hide RowsOf, Own, ProfileOf, Linked;
    head.childrenTruncated := head.childrenTruncated + 1;
  }

  /** One turn of the search below the depth limit. */
  method Expand(rows: seq<Row>, byPID: map<int, seq<int>>, ghost g: Graph, ghost s0: Bfs,
                ghost nodes0: map<int, LinNode>, head: LinNode, depth: int, childPIDs: seq<int>,
                placed0: set<int>, total0: int, truncated0: bool, queue0: seq<Item>)
    returns (placed: set<int>, total: int, truncated: bool, queue: seq<Item>, ghost s: Bfs,
             ghost nodes: map<int, LinNode>)
    requires Indexed(rows, byPID) && Shows(rows, g, s0, nodes0, placed0, total0, truncated0, queue0)
    requires head.pid in nodes0 && nodes0[head.pid] == head && head.pid in s0.depth && Keyed(s0)
    requires Inv(g, s0, {head.pid}, depth) && s0.depth[head.pid] == depth < MAX_DEPTH && Partial(g, s0, head.pid, [])
    requires InOrder(s0) && s0.kids[head.pid] == []
    requires Ascending(childPIDs)
    requires Within(childPIDs, Get(g.children, head.pid)) && Within(Get(g.children, head.pid), childPIDs)
    modifies head`children, head`childrenTruncated
    ensures Extends(nodes0, nodes) && forall p :: p in nodes && p !in nodes0 ==> fresh(nodes[p])
    ensures Shows(rows, g, s, nodes, placed, total, truncated, queue)
    ensures Inv(g, s, {}, depth) && InOrder(s)
    ensures total - total0 == |queue| - |queue0| >= 0 && (total > total0 ==> total <= MAX_NODES)
  {
    hide Inv, Partial, InOrder, Offer, Indexed, Get, Ascending, Shows, Within, Unlinked;
    placed, total, truncated, queue, s, nodes := placed0, total0, truncated0, queue0, s0, nodes0;
    ghost var u := head.pid;
    WithinNothing(childPIDs[..0]);
    for i := 0 to |childPIDs|
      invariant Extends(nodes0, nodes) && forall p :: p in nodes && p !in nodes0 ==> fresh(nodes[p])
      invariant Shows(rows, g, s, nodes, placed, total, truncated, queue)
      invariant Keyed(s) && u in s.depth && s.depth[u] == depth
      invariant Inv(g, s, {u}, depth) && Partial(g, s, u, childPIDs[..i])
      invariant InOrder(s) && Within(s.kids[u], childPIDs[..i])
      invariant total - total0 == |queue| - |queue0| >= 0 && (total > total0 ==> total <= MAX_NODES)
    {
      var w := childPIDs[i];
      assert childPIDs[..i + 1] == childPIDs[..i] + [w];
      NextChild(childPIDs, i, Get(g.children, u));
      OfferKeeps(g, s, u, w, depth, childPIDs[..i]);
      KidsInOrder(g, s, u, w, childPIDs[..i]);
      placed, total, truncated, queue, nodes :=
        OfferChild(rows, byPID, g, s, nodes, head, depth, w, placed, total, truncated, queue);
      s := Offer(g, s, u, w);
      KeyedInv(g, s, {u}, depth);
    }
    assert childPIDs[..|childPIDs|] == childPIDs;
    AllOffered(g, s, u, depth, childPIDs);
  }

  lemma NextChild(list: seq<int>, i: nat, all: seq<int>)
    requires i < |list| && Ascending(list) && Within(list, all)
    ensures list[i] !in list[..i] && Ascending(list[..i] + [list[i]]) && list[i] in all
  {
    assert list[i] in list;
  }

  lemma AllOffered(g: Graph, s: Bfs, u: int, d: int, part: seq<int>)
    requires Inv(g, s, {u}, d) && u in s.depth && s.depth[u] == d < MAX_DEPTH && Keyed(s) && Partial(g, s, u, part)
    requires Within(part, Get(g.children, u)) && Within(Get(g.children, u), part)
    ensures Inv(g, s, {}, d)
  {
    hide Inv, Partial;
    TurnEnds(g, s, u, d, part);
  }

  lemma KeyedInv(g: Graph, s: Bfs, busy: set<int>, d: int)
    requires Inv(g, s, busy, d)
    ensures Keyed(s)
  {
  }

  lemma PopShows(rows: seq<Row>, g: Graph, s: Bfs, nodes: map<int, LinNode>, placed: set<int>, total: int,
                 truncated: bool, queue: seq<Item>)
    requires Shows(rows, g, s, nodes, placed, total, truncated, queue) && queue != []
    ensures s.queue != [] && s.queue[0] in s.depth && s.queue[0] in nodes
    ensures queue[0] == Item(nodes[s.queue[0]], s.depth[s.queue[0]]) && queue[0].node.pid == s.queue[0]
    ensures Shows(rows, g, Pop(s), nodes, placed, total, truncated, queue[1..])
  {
    hide ProfileOf, Own, Linked;
  }

  lemma DropsOne(g: Graph, s: Bfs, u: int)
    requires u in s.dropped
    ensures var n := s.dropped[u] + |Get(g.children, u)|;
            DropAll(g, s, u) == s.(dropped := s.dropped[u := n], truncated := s.truncated || n > 0)
  {
  }

  /** One turn at the depth limit. */
  method DropChildren(rows: seq<Row>, ghost g: Graph, ghost s: Bfs, ghost nodes: map<int, LinNode>, head: LinNode,
                      count: int, placed: set<int>, total: int, truncated0: bool, queue: seq<Item>)
    returns (truncated: bool)
    requires Shows(rows, g, s, nodes, placed, total, truncated0, queue)
    requires head.pid in nodes && nodes[head.pid] == head && head.pid in s.dropped
    requires count == |Get(g.children, head.pid)|
    modifies head`childrenTruncated
    ensures Shows(rows, g, DropAll(g, s, head.pid), nodes, placed, total, truncated, queue)
  {
    hide Linked, Get, DropAll, Mirrors, AllPlain, Queued;
    FoundNodes(s, nodes);
    DropsOne(g, s, head.pid);
    TracksDropAll(g, s, nodes, placed, total, truncated0, queue, head.pid);
    head.childrenTruncated := head.childrenTruncated + count;
    truncated := truncated0 || head.childrenTruncated > 0;
    MirrorsFound(DropAll(g, s, head.pid), nodes);
  }

  lemma TracksDropAll(g: Graph, s: Bfs, nodes: map<int, LinNode>, placed: set<int>, total: int, truncated: bool,
                      queue: seq<Item>, u: int)
    requires Keyed(s) && u in s.depth && Tracks(g, s, nodes, placed, total, truncated, queue)
    ensures Tracks(g, DropAll(g, s, u), nodes, placed, total, DropAll(g, s, u).truncated, queue)
  {
  }

  /** The search below the origin. */
  method Descend(rows: seq<Row>, byPID: map<int, seq<int>>, byParent: map<int, seq<int>>, origin: LinNode,
                 parents: seq<LinNode>, ghost g: Graph)
    returns (total: int, truncated: bool, ghost s: Bfs, ghost nodes: map<int, LinNode>)
    requires Indexed(rows, byPID) && forall p :: NoDup(Get(byParent, p))
    requires Unlinked(rows, origin) && !origin.isAncestor
    requires g == Graph(byParent, set i | 0 <= i < |parents| :: parents[i].pid, origin.pid, 1 + |parents|)
    requires origin.pid !in g.ancestors
    modifies origin`children, origin`childrenTruncated
    ensures origin.pid in nodes && nodes[origin.pid] == origin
    ensures forall p :: p in nodes && p != origin.pid ==> fresh(nodes[p])
    ensures Final(g, s) && InOrder(s) && Mirrors(s, nodes) && AllPlain(rows, nodes)
    ensures total == s.total && truncated == s.truncated
  {
    hide Inv, Indexed, NoDup, Get, Own, ProfileOf, Final, InOrder, Offer, Pop, DropAll, SortInts, Ascending, Within,
         Mirrors, AllPlain, Tracks, Shows;
    StartKeeps(g);
    s, nodes := Start(g), map[origin.pid := origin];
    ghost var d := 0;
    total, truncated := 1 + |parents|, false;
    var queue := [Item(origin, 0)];
    var placed := {origin.pid} + set i | 0 <= i < |parents| :: parents[i].pid;
    StartShows(rows, g, origin);
    while queue != []
      invariant origin.pid in nodes && nodes[origin.pid] == origin
      invariant forall p :: p in nodes && p != origin.pid ==> fresh(nodes[p])
      invariant Shows(rows, g, s, nodes, placed, total, truncated, queue)
      invariant Inv(g, s, {}, d) && InOrder(s)
      decreases if total < MAX_NODES then MAX_NODES - total else 0, |queue|
    {
      var head := queue[0];
      PopShows(rows, g, s, nodes, placed, total, truncated, queue);
      PopKeeps(g, s, d);
      PopInOrder(s);
      ghost var u := s.queue[0];
      d := s.depth[u];
      s := Pop(s);
      queue := queue[1..];
      KeyedInv(g, s, {u}, d);
      if head.depth >= MAX_DEPTH {
        DropAllKeeps(g, s, u, d);
        var lost := |Get(byParent, head.node.pid)|;
        truncated := DropChildren(rows, g, s, nodes, head.node, lost, placed, total, truncated, queue);
        DropInOrder(g, s, u);
        s := DropAll(g, s, u);
      } else {
        var childPIDs := SortInts(Get(byParent, head.node.pid));
        Sorted(Get(byParent, head.node.pid));
        placed, total, truncated, queue, s, nodes :=
          Expand(rows, byPID, g, s, nodes, head.node, head.depth, childPIDs, placed, total, truncated, queue);
      }
    }
    ShowsFinal(rows, g, s, nodes, placed, total, truncated, d);
  }

  lemma StartShows(rows: seq<Row>, g: Graph, origin: LinNode)
    requires Unlinked(rows, origin) && !origin.isAncestor && g.origin == origin.pid
    ensures Shows(rows, g, Start(g), map[origin.pid := origin], {origin.pid} + g.ancestors, g.base, false,
                  [Item(origin, 0)])
    ensures InOrder(Start(g))
  {
    hide Own, ProfileOf;
    assert Start(g).depth.Keys == {origin.pid};
  }

  lemma PopInOrder(s: Bfs)
    requires InOrder(s) && s.queue != []
    ensures InOrder(Pop(s)) && Pop(s).depth == s.depth && Pop(s).kids == s.kids
  {
  }

  lemma DropInOrder(g: Graph, s: Bfs, u: int)
    requires InOrder(s) && u in s.dropped
    ensures InOrder(DropAll(g, s, u))
  {
  }

  lemma Sorted(list: seq<int>)
    requires NoDup(list)
    ensures Ascending(SortInts(list)) && Within(SortInts(list), list) && Within(list, SortInts(list))
  {
    SortAscending(list);
  }

  lemma ShowsFinal(rows: seq<Row>, g: Graph, s: Bfs, nodes: map<int, LinNode>, placed: set<int>, total: int,
                   truncated: bool, d: int)
    requires Shows(rows, g, s, nodes, placed, total, truncated, []) && Inv(g, s, {}, d)
    ensures Final(g, s) && Mirrors(s, nodes) && AllPlain(rows, nodes) && total == s.total && truncated == s.truncated
  {
    hide Inv;
  }

  // ---------- the whole tree ----------

  function Place(pp: seq<int>, p: int): (i: nat)
    requires p in pp
    ensures i < |pp| && pp[i] == p
  {
    if pp[0] == p then 0 else 1 + Place(pp[1..], p)
  }

  /** The PIDs of the tree: the parents `pp` from the top, and what the search placed. */
  function Whole(pp: seq<int>, s: Bfs): set<int> {
    (set p | p in pp) + s.depth.Keys
  }

  function Level(pp: seq<int>, s: Bfs, p: int): int
    requires p in Whole(pp, s)
  {
    if p in s.depth then |pp| + s.depth[p] else Place(pp, p)
  }

  function KidsOf(g: Graph, pp: seq<int>, s: Bfs, p: int): seq<int>
    requires p in Whole(pp, s) && Keyed(s)
  {
    if p in s.depth then s.kids[p]
    else
      var i := Place(pp, p);
      [if i + 1 < |pp| then pp[i + 1] else g.origin]
  }

  function RootOf(g: Graph, pp: seq<int>): int {
    if pp == [] then g.origin else pp[0]
  }

  /** The parents are the ancestors that the search avoided. */
  ghost predicate Spine(g: Graph, pp: seq<int>) {
    && NoDup(pp) && g.origin !in g.ancestors && g.base == 1 + |pp|
    && forall p :: p in g.ancestors <==> p in pp
  }

  /** Children are one level below, and in the tree. */
  lemma KidsBelow(g: Graph, pp: seq<int>, s: Bfs, p: int, v: int)
    requires Final(g, s) && Spine(g, pp) && p in Whole(pp, s) && Keyed(s) && v in KidsOf(g, pp, s, p)
    ensures v in Whole(pp, s) && Level(pp, s, v) == Level(pp, s, p) + 1
  {
    hide Counts, Order, Heads, Near;
    assert Shape(g, s) && KidsMatch(s);
    hide Final;
    KidsBelowSpine(g, pp, s, p, v);
    if p in s.depth {
      assert v in s.up;
    } else {
      var i := Place(pp, p);
      assert p in pp;
      if i + 1 < |pp| {
        assert v in pp && v in g.ancestors;
        assert Place(pp, v) == i + 1;
      } else {
        assert v == g.origin && v in s.depth;
      }
    }
  }

  /** Every PID of the tree but the root is the child of exactly one PID, once; the root is the child of none. */
  lemma OneParent(g: Graph, pp: seq<int>, s: Bfs, v: int) returns (p: int)
    requires Final(g, s) && Spine(g, pp) && v in Whole(pp, s) && Keyed(s)
    ensures v != RootOf(g, pp) ==> p in Whole(pp, s) && v in KidsOf(g, pp, s, p)
    ensures forall q :: q in Whole(pp, s) && v in KidsOf(g, pp, s, q) ==> v != RootOf(g, pp) && q == p
    ensures forall q :: q in Whole(pp, s) ==> NoDup(KidsOf(g, pp, s, q))
  {
    hide Counts, Order, Heads, Near;
    assert Shape(g, s) && KidsMatch(s);
    hide Final;
    if v in s.depth && v != g.origin {
      p := s.up[v];
    } else if v == g.origin {
      p := if pp == [] then v else pp[|pp| - 1];
    } else {
      var i := Place(pp, v);
      p := if i == 0 then v else pp[i - 1];
    }
    forall q | q in Whole(pp, s) && v in KidsOf(g, pp, s, q)
      ensures v != RootOf(g, pp) && q == p
    {
      KidsBelowSpine(g, pp, s, q, v);
    }
  }

  lemma KidsBelowSpine(g: Graph, pp: seq<int>, s: Bfs, q: int, v: int)
    requires Shape(g, s) && KidsMatch(s) && Spine(g, pp) && q in Whole(pp, s) && Keyed(s) && v in KidsOf(g, pp, s, q)
    ensures q in s.depth ==> v in s.up && s.up[v] == q
    ensures q !in s.depth ==>
              var i := Place(pp, q); if i + 1 < |pp| then v == pp[i + 1] else v == g.origin
  {
  }

  lemma WholeCount(g: Graph, pp: seq<int>, s: Bfs)
    requires Final(g, s) && Spine(g, pp)
    ensures |Whole(pp, s)| == s.total
  {
    NodeCount(g, s);
    hide Counts, Order, Heads, Near, KidsMatch;
    assert Shape(g, s);
    hide Final;
    SetOfNoDup(pp);
    assert (set p | p in pp) !! s.depth.Keys;
    assert |s.depth| == |s.depth.Keys|;
  }

  // ---------- depths ----------

  /** The children of every node are nodes, one level below. */
  ghost predicate Levels(nodes: map<int, LinNode>, level: map<int, int>, top: int)
    reads set p | p in nodes :: nodes[p]`children
  {
    && level.Keys == nodes.Keys
    && (forall p :: p in nodes ==> nodes[p].pid == p && level[p] <= top)
    && (forall p, i :: p in nodes && 0 <= i < |nodes[p].children| ==>
          Child(nodes, level, level[p], nodes[p].children[i]))
  }

  ghost predicate Child(nodes: map<int, LinNode>, level: map<int, int>, d: int, c: LinNode) {
    c.pid in nodes && nodes[c.pid] == c && c.pid in level && level[c.pid] == d + 1
  }

  /** A set of nodes that holds the children of its nodes. */
  ghost predicate Closed(nodes: map<int, LinNode>, done: set<int>)
    reads set p | p in nodes :: nodes[p]`children
  {
    && done <= nodes.Keys
    && (forall p, i :: p in done && p in nodes && 0 <= i < |nodes[p].children| ==> nodes[p].children[i].pid in done)
  }

  /** Writes the depths of a node and of all nodes below it. It ends because the levels are bounded. */
  method AssignLinDepth(n: LinNode, d: int, ghost nodes: map<int, LinNode>, ghost level: map<int, int>, ghost top: int)
    returns (ghost done: set<int>)
    requires Levels(nodes, level, top)
    requires n.pid in nodes && nodes[n.pid] == n && level[n.pid] == d
    modifies set p | p in nodes :: nodes[p]`depth
    ensures n.pid in done && Closed(nodes, done)
    ensures forall p :: p in nodes ==> nodes[p].depth == if p in done then level[p] else old(nodes[p].depth)
    decreases top - d
  {
    n.depth := d;
    done := {n.pid};
    for i := 0 to |n.children|
      invariant n.pid in done && done <= nodes.Keys
      invariant forall p, j :: p in done && p != n.pid && 0 <= j < |nodes[p].children|
                               ==> nodes[p].children[j].pid in done
      invariant forall j :: 0 <= j < i ==> n.children[j].pid in done
      invariant forall p :: p in nodes ==> nodes[p].depth == if p in done then level[p] else old(nodes[p].depth)
    {
      var c := n.children[i];
      assert Child(nodes, level, level[n.pid], c);
      ghost var more := AssignLinDepth(c, d + 1, nodes, level, top);
      done := done + more;
    }
  }

  // ---------- the view ----------

  datatype LineageView = LineageView(originPid: int, originExists: bool, parents: seq<LinNode>, origin: LinNode,
                                     truncated: bool, nodeCount: int)

  /** The nodes of the whole tree hang together as the parents and the search say. */
  ghost predicate Stitched(g: Graph, pp: seq<int>, s: Bfs, nodes: map<int, LinNode>)
    reads set p | p in nodes :: nodes[p]`children
  {
    && Keyed(s) && nodes.Keys == Whole(pp, s)
    && forall p :: p in nodes ==> nodes[p].pid == p && Linked(nodes, nodes[p].children, KidsOf(g, pp, s, p))
  }

  ghost function LevelMap(pp: seq<int>, s: Bfs): map<int, int> {
    map p | p in Whole(pp, s) :: Level(pp, s, p)
  }

  lemma LevelBound(g: Graph, pp: seq<int>, s: Bfs, p: int)
    requires Final(g, s) && Spine(g, pp) && p in Whole(pp, s)
    ensures 0 <= Level(pp, s, p) <= |pp| + MAX_DEPTH
    ensures Level(pp, s, p) == 0 <==> p == RootOf(g, pp)
  {
    hide Counts, Order, Heads, Near, KidsMatch;
    assert Shape(g, s);
    hide Final;
    if p in s.depth {
      if p != g.origin {
        assert p in s.up && s.depth[s.up[p]] >= 0;
      }
      if pp != [] {
        assert pp[0] in pp && pp[0] in g.ancestors;
      }
    } else if Place(pp, p) != 0 {
      assert pp[Place(pp, p)] != pp[0];
    }
  }

  lemma StitchedLevels(g: Graph, pp: seq<int>, s: Bfs, nodes: map<int, LinNode>)
    requires Final(g, s) && Spine(g, pp) && Stitched(g, pp, s, nodes)
    ensures Levels(nodes, LevelMap(pp, s), |pp| + MAX_DEPTH)
  {
    hide Final, Spine, KidsOf, Level, Whole;
    var level := LevelMap(pp, s);
    forall p | p in nodes
      ensures level[p] <= |pp| + MAX_DEPTH
    {
      LevelBound(g, pp, s, p);
    }
    forall p, i | p in nodes && 0 <= i < |nodes[p].children|
      ensures Child(nodes, level, level[p], nodes[p].children[i])
    {
      var kids := KidsOf(g, pp, s, p);
      assert kids[i] in kids;
      KidsBelow(g, pp, s, p, kids[i]);
    }
  }

  /** Every node hangs below the root. */
  lemma {:induction false} AllReached(g: Graph, pp: seq<int>, s: Bfs, nodes: map<int, LinNode>, done: set<int>, p: int)
    requires Final(g, s) && Spine(g, pp) && Stitched(g, pp, s, nodes)
    requires Closed(nodes, done) && RootOf(g, pp) in done && p in nodes
    ensures p in done
    decreases Level(pp, s, p)
  {
    LevelBound(g, pp, s, p);
    var q := OneParent(g, pp, s, p);
    if p != RootOf(g, pp) {
      LevelBound(g, pp, s, q);
      KidsBelow(g, pp, s, q, p);
      hide Final, Spine, KidsOf, Level, Whole, RootOf;
      AllReached(g, pp, s, nodes, done, q);
      var kids := KidsOf(g, pp, s, q);
      var i :| 0 <= i < |kids| && kids[i] == p;
      assert nodes[q].children[i] == nodes[p];
    }
  }

  /** Links every parent to the next one, and the last one to the origin. */
  method Stitch(parents: seq<LinNode>, origin: LinNode)
    requires forall i, j :: 0 <= i < j < |parents| ==> parents[i].pid != parents[j].pid
    modifies set i | 0 <= i < |parents| :: parents[i]`children
    ensures forall i :: 0 <= i < |parents| ==>
              parents[i].children == [if i + 1 < |parents| then parents[i + 1] else origin]
  {
    if |parents| > 0 {
      for i := 0 to |parents| - 1
        invariant forall k :: 0 <= k < i
                            ==> parents[k].children == [if k + 1 < |parents| then parents[k + 1] else origin]
      {
        parents[i].children := [parents[i + 1]];
      }
      parents[|parents| - 1].children := [origin];
    }
  }

  /** What a lineage view shows of the rows. */
  ghost predicate Marked(rows: seq<Row>, g: Graph, pp: seq<int>, s: Bfs, nodes: map<int, LinNode>)
    reads set p | p in nodes :: nodes[p]`shown
    reads set p | p in nodes :: nodes[p]`isOrigin
    reads set p | p in nodes :: nodes[p]`isAncestor
    reads set p | p in nodes :: nodes[p]`childrenTruncated
  {
    && Keyed(s) && nodes.Keys == Whole(pp, s)
    && forall p :: p in nodes ==>
         && nodes[p].shown == ProfileOf(p, Own(rows, p))
         && nodes[p].isOrigin == (p == g.origin) && nodes[p].isAncestor == (p in pp)
         && nodes[p].childrenTruncated == if p in s.depth then s.dropped[p] else 0
  }

  /** The parents of a view, from the top, above the origin. */
  ghost predicate Upward(rows: seq<Row>, originPid: int, pp: seq<int>, chain: seq<int>) {
    && Maximal(rows, chain) && chain[0] == originPid && |pp| == |chain| - 1
    && forall i :: 0 <= i < |pp| ==> pp[i] == chain[|chain| - 1 - i]
  }

  /** The nodes of the parents joined to the nodes of the search. */
  ghost function Join(pp: seq<int>, parents: seq<LinNode>, nodes: map<int, LinNode>): map<int, LinNode>
    requires |pp| == |parents|
  {
    map p | p in (set q | q in pp) + nodes.Keys :: if p in nodes then nodes[p] else parents[Place(pp, p)]
  }

  ghost predicate Joined(pp: seq<int>, parents: seq<LinNode>, found: map<int, LinNode>, nodes: map<int, LinNode>) {
    && |pp| == |parents| && Extends(found, nodes)
    && (forall p :: p in nodes ==> p in found || p in pp)
    && (forall i :: 0 <= i < |pp| ==> pp[i] !in found && pp[i] in nodes && nodes[pp[i]] == parents[i])
  }

  lemma JoinJoins(g: Graph, pp: seq<int>, s: Bfs, parents: seq<LinNode>, found: map<int, LinNode>)
    requires Final(g, s) && Spine(g, pp) && found.Keys == s.depth.Keys && |pp| == |parents|
    ensures Joined(pp, parents, found, Join(pp, parents, found))
  {
    SpineApart(g, pp, s);
    hide Final, Spine;
    var nodes := Join(pp, parents, found);
    forall i | 0 <= i < |pp|
      ensures pp[i] !in found && pp[i] in nodes && nodes[pp[i]] == parents[i]
    {
      assert pp[i] in pp;
      assert Place(pp, pp[i]) == i;
    }
  }

  lemma JoinedKeys(pp: seq<int>, s: Bfs, parents: seq<LinNode>, found: map<int, LinNode>, nodes: map<int, LinNode>)
    requires Joined(pp, parents, found, nodes) && found.Keys == s.depth.Keys
    ensures nodes.Keys == Whole(pp, s)
  {
    forall p | p in Whole(pp, s)
      ensures p in nodes
    {
      if p in pp {
        var i :| 0 <= i < |pp| && pp[i] == p;
        assert pp[i] in nodes;
      } else {
        assert p in found;
      }
    }
    forall p | p in nodes
      ensures p in Whole(pp, s)
    {
      assert p in found || p in pp;
    }
  }

  lemma JoinStitched(g: Graph, pp: seq<int>, s: Bfs, parents: seq<LinNode>, found: map<int, LinNode>,
                     nodes: map<int, LinNode>, origin: LinNode)
    requires Mirrors(s, found) && Joined(pp, parents, found, nodes)
    requires g.origin in found && found[g.origin] == origin
    requires forall i :: 0 <= i < |parents| ==>
               && parents[i].pid == pp[i]
               && parents[i].children == [if i + 1 < |parents| then parents[i + 1] else origin]
    ensures Stitched(g, pp, s, nodes)
  {
    FoundNodes(s, found);
    JoinedKeys(pp, s, parents, found, nodes);
    hide Mirrors, Linked, Whole;
    forall p | p in nodes
      ensures nodes[p].pid == p && Linked(nodes, nodes[p].children, KidsOf(g, pp, s, p))
    {
      if p in found {
        LinkedMore(found, nodes, nodes[p].children, s.kids[p]);
      } else {
        var i := Place(pp, p);
        if i + 1 < |pp| {
          LinkedOne(nodes, parents[i + 1], pp[i + 1]);
        } else {
          LinkedOne(nodes, origin, g.origin);
        }
      }
    }
  }

  lemma SpineApart(g: Graph, pp: seq<int>, s: Bfs)
    requires Final(g, s) && Spine(g, pp)
    ensures NoDup(pp) && g.origin in s.depth && forall p :: p in pp ==> p !in s.depth
  {
    hide Counts, Order, Heads, Near, KidsMatch;
    assert Shape(g, s);
  }

  lemma LinkedMore(nodes: map<int, LinNode>, more: map<int, LinNode>, children: seq<LinNode>, kids: seq<int>)
    requires Linked(nodes, children, kids) && Extends(nodes, more)
    ensures Linked(more, children, kids)
  {
    forall i | 0 <= i < |kids|
      ensures kids[i] in more && children[i] == more[kids[i]]
    {
      var p := kids[i];
      assert p in nodes && children[i] == nodes[p];
      assert p in more && more[p] == nodes[p];
    }
  }

  lemma LinkedOne(nodes: map<int, LinNode>, c: LinNode, k: int)
    requires k in nodes && nodes[k] == c
    ensures Linked(nodes, [c], [k])
  {
  }

  lemma SpineHolds(rows: seq<Row>, g: Graph, pp: seq<int>, chain: seq<int>)
    requires Upward(rows, g.origin, pp, chain) && g.base == 1 + |pp|
    requires forall p :: p in g.ancestors <==> p in pp
    ensures Spine(g, pp)
  {
    forall i | 0 <= i < |pp|
      ensures pp[i] != g.origin
    {
      assert chain[|chain| - 1 - i] != chain[0];
    }
    forall i, j | 0 <= i < j < |pp|
      ensures pp[i] != pp[j]
    {
      assert chain[|chain| - 1 - i] != chain[|chain| - 1 - j];
    }
  }

  lemma JoinMarked(rows: seq<Row>, g: Graph, pp: seq<int>, s: Bfs, parents: seq<LinNode>, found: map<int, LinNode>,
                   nodes: map<int, LinNode>)
    requires Mirrors(s, found) && Joined(pp, parents, found, nodes) && g.origin in found
    requires forall p :: p in found ==>
               && found[p].shown == ProfileOf(p, Own(rows, p))
               && found[p].isOrigin == (p == g.origin) && !found[p].isAncestor
    requires forall i :: 0 <= i < |parents| ==>
               && parents[i].shown == ProfileOf(pp[i], Own(rows, pp[i]))
               && !parents[i].isOrigin && parents[i].isAncestor && parents[i].childrenTruncated == 0
    ensures Marked(rows, g, pp, s, nodes)
  {
    hide Mirrors, Whole, ProfileOf, Own, Linked;
    FoundNodes(s, found);
    JoinedKeys(pp, s, parents, found, nodes);
    forall p | p in nodes
      ensures nodes[p].shown == ProfileOf(p, Own(rows, p))
      ensures nodes[p].isOrigin == (p == g.origin) && nodes[p].isAncestor == (p in pp)
      ensures nodes[p].childrenTruncated == if p in s.depth then s.dropped[p] else 0
    {
      JoinedNode(pp, parents, found, nodes, p);
    }
    hide Joined;
  }

  lemma JoinedNode(pp: seq<int>, parents: seq<LinNode>, found: map<int, LinNode>, nodes: map<int, LinNode>, p: int)
    requires Joined(pp, parents, found, nodes) && p in nodes
    ensures p in found ==> nodes[p] == found[p]
    ensures p in found <==> p !in pp
    ensures p !in found ==> exists i :: 0 <= i < |pp| && p == pp[i] && nodes[p] == parents[i]
  {
    if p !in found {
      var i :| 0 <= i < |pp| && pp[i] == p;
    }
  }

  lemma FoundNodes(s: Bfs, found: map<int, LinNode>)
    requires Mirrors(s, found)
    ensures Keyed(s) && found.Keys == s.depth.Keys
    ensures forall p :: p in found ==>
              && found[p].pid == p && found[p].childrenTruncated == s.dropped[p]
              && Linked(found, found[p].children, s.kids[p])
  {
  }

  lemma MirrorsFound(s: Bfs, found: map<int, LinNode>)
    requires Keyed(s) && found.Keys == s.depth.Keys
    requires forall p :: p in found ==>
               && found[p].pid == p && found[p].childrenTruncated == s.dropped[p]
               && Linked(found, found[p].children, s.kids[p])
    ensures Mirrors(s, found)
  {
  }

  /** Marks the origin. */
  method MarkOrigin(rows: seq<Row>, ghost g: Graph, ghost pp: seq<int>, ghost s: Bfs, ghost found: map<int, LinNode>,
                    origin: LinNode, parents: seq<LinNode>)
    returns (ghost nodes: map<int, LinNode>)
    requires Final(g, s) && Spine(g, pp) && Mirrors(s, found) && AllPlain(rows, found) && |pp| == |parents|
    requires g.origin in found && found[g.origin] == origin
    requires forall i :: 0 <= i < |parents| ==>
               parents[i].pid == pp[i] && Unlinked(rows, parents[i]) && parents[i].isAncestor
    modifies origin`isOrigin
    ensures Joined(pp, parents, found, nodes) && Marked(rows, g, pp, s, nodes)
  {
    hide Final, Spine, Inv, Linked, Own, ProfileOf, Whole, Mirrors, Marked, Join;
    SpineApart(g, pp, s);
    FoundNodes(s, found);
    origin.isOrigin := true;
    nodes := Join(pp, parents, found);
    JoinJoins(g, pp, s, parents, found);
    JoinMarked(rows, g, pp, s, parents, found, nodes);
  }

  /** Marks the origin and joins the parents to the tree below them. */
  method JoinUp(rows: seq<Row>, ghost g: Graph, ghost pp: seq<int>, ghost s: Bfs, ghost found: map<int, LinNode>,
                origin: LinNode, parents: seq<LinNode>)
    returns (ghost nodes: map<int, LinNode>)
    requires Final(g, s) && Spine(g, pp) && Mirrors(s, found) && AllPlain(rows, found) && |pp| == |parents|
    requires g.origin in found && found[g.origin] == origin
    requires forall i :: 0 <= i < |parents| ==>
               parents[i].pid == pp[i] && Unlinked(rows, parents[i]) && parents[i].isAncestor
    modifies origin`isOrigin
    modifies set i | 0 <= i < |parents| :: parents[i]`children
    ensures Joined(pp, parents, found, nodes) && Stitched(g, pp, s, nodes) && Marked(rows, g, pp, s, nodes)
  {
    hide Final, Spine, Inv, Linked, Own, ProfileOf, Stitched, Whole, KidsOf, Level, Mirrors, Marked, Join, AllPlain,
         Unlinked;
    SpineApart(g, pp, s);
    FoundNodes(s, found);
    nodes := MarkOrigin(rows, g, pp, s, found, origin, parents);
    Stitch(parents, origin);
    JoinStitched(g, pp, s, parents, found, nodes, origin);
  }

  /** The depths of the stitched tree, from the root. */
  method NumberTree(ghost g: Graph, ghost pp: seq<int>, ghost s: Bfs, ghost nodes: map<int, LinNode>, root: LinNode)
    requires Final(g, s) && Spine(g, pp) && Stitched(g, pp, s, nodes)
    requires RootOf(g, pp) in nodes && nodes[RootOf(g, pp)] == root
    modifies set p | p in nodes :: nodes[p]`depth
    ensures nodes.Keys == Whole(pp, s) && forall p :: p in Whole(pp, s) ==> nodes[p].depth == Level(pp, s, p)
  {
    StitchedLevels(g, pp, s, nodes);
    StitchedKeys(g, pp, s, nodes);
    LevelBound(g, pp, s, RootOf(g, pp));
    hide Final, Inv, Spine, Levels, Closed, Stitched, Whole, KidsOf, Level, RootOf;
    ghost var done := AssignLinDepth(root, 0, nodes, LevelMap(pp, s), |pp| + MAX_DEPTH);
    forall p | p in nodes
      ensures p in done
    {
      AllReached(g, pp, s, nodes, done, p);
    }
  }

  lemma StitchedKeys(g: Graph, pp: seq<int>, s: Bfs, nodes: map<int, LinNode>)
    requires Stitched(g, pp, s, nodes)
    ensures nodes.Keys == Whole(pp, s) && forall p :: p in nodes ==> nodes[p].pid == p
  {
  }

  /** The parents and the tree below them, in one tree with depths. */
  method Assemble(rows: seq<Row>, ghost g: Graph, ghost pp: seq<int>, ghost s: Bfs, ghost found: map<int, LinNode>,
                  origin: LinNode, parents: seq<LinNode>)
    returns (ghost nodes: map<int, LinNode>)
    requires Final(g, s) && Spine(g, pp) && Mirrors(s, found) && AllPlain(rows, found) && |pp| == |parents|
    requires g.origin in found && found[g.origin] == origin
    requires forall i :: 0 <= i < |parents| ==>
               parents[i].pid == pp[i] && Unlinked(rows, parents[i]) && parents[i].isAncestor
    modifies set p | p in found :: found[p]
    modifies set i | 0 <= i < |parents| :: parents[i]
    ensures Stitched(g, pp, s, nodes) && Marked(rows, g, pp, s, nodes)
    ensures nodes.Keys == Whole(pp, s) && forall p :: p in Whole(pp, s) ==> nodes[p].depth == Level(pp, s, p)
    ensures g.origin in nodes && nodes[g.origin] == origin
    ensures forall i :: 0 <= i < |pp| ==> pp[i] in nodes && nodes[pp[i]] == parents[i]
    ensures forall p :: p in nodes ==> (p in found && nodes[p] == found[p]) || nodes[p] in parents
  {
    hide Own, ProfileOf, Stitched, Marked, Whole, KidsOf, Level, Mirrors, AllPlain, Final, RootOf, Spine, Unlinked;
    nodes := JoinUp(rows, g, pp, s, found, origin, parents);
    var root := if |parents| > 0 then parents[0] else origin;
    RootNode(g, pp, parents, found, nodes, root);
    assert forall p :: p in nodes ==> (p in found && nodes[p] == found[p]) || nodes[p] in parents;
    NumberTree(g, pp, s, nodes, root);
  }

  /** The lineage of a process. All nodes are new, and hang in one tree:
      the parents `pp` are the maximal chain of latest parents, the rest is what the capped search `s` found below the
      origin; every node has its depth from the root, shows the rows of its process and counts the children it lost. */
  method BuildLineage(rows: seq<Row>, originPid: int)
    returns (view: LineageView, ghost g: Graph, ghost pp: seq<int>, ghost chain: seq<int>, ghost s: Bfs,
             ghost nodes: map<int, LinNode>)
    ensures g.origin == originPid && ListsEdges(rows, g.children) && (Complete(rows, g.children) <==> KeysTell(rows))
    ensures Upward(rows, originPid, pp, chain) && Spine(g, pp)
    ensures Final(g, s) && InOrder(s)
    ensures forall p :: p in nodes ==> fresh(nodes[p])
    ensures Stitched(g, pp, s, nodes) && Marked(rows, g, pp, s, nodes)
    ensures nodes.Keys == Whole(pp, s) && forall p :: p in Whole(pp, s) ==> nodes[p].depth == Level(pp, s, p)
    ensures view.originPid == originPid && (view.originExists <==> Own(rows, originPid) != [])
    ensures originPid in nodes && view.origin == nodes[originPid]
    ensures |view.parents| == |pp| && forall i :: 0 <= i < |pp| ==> pp[i] in nodes && view.parents[i] == nodes[pp[i]]
    ensures view.truncated == s.truncated && view.nodeCount == |nodes|
  {
    hide Own, ProfileOf, ListsEdges, Complete, KeysTell, Stitched, Marked, Whole, KidsOf, Level, Mirrors, AllPlain,
         Final, InOrder, Maximal, PlacesOf, RowsOf, RowsAt, LatestParent, RootOf, Upward;
    var byPID, byParent := BuildIndex(rows);
    NoDupLists(rows, byParent);
    assert Indexed(rows, byPID);
    hide Indexed, Get, NoDup;
    Lookup(rows, byPID, originPid);
    var origin := BuildLinNode(rows, originPid, Get(byPID, originPid));
    var originExists := |Get(byPID, originPid)| > 0;
    var parents;
    parents, chain := WalkUp(rows, byPID, originPid);
    pp := seq(|parents|, i requires 0 <= i < |parents| => parents[i].pid);
    g := Graph(byParent, set i | 0 <= i < |parents| :: parents[i].pid, originPid, 1 + |parents|);
    ParentsAreSpine(rows, g, pp, chain, parents);
    var total, truncated;
    ghost var found;
    total, truncated, s, found := Descend(rows, byPID, byParent, origin, parents, g);
    nodes := Assemble(rows, g, pp, s, found, origin, parents);
    hide Spine;
    WholeCount(g, pp, s);
    assert |nodes| == |nodes.Keys|;
    view := LineageView(originPid, originExists, parents, origin, truncated, total);
  }

  lemma NoDupLists(rows: seq<Row>, byParent: map<int, seq<int>>)
    requires ListsEdges(rows, byParent)
    ensures forall p :: NoDup(Get(byParent, p))
  {
  }

  lemma ParentsAreSpine(rows: seq<Row>, g: Graph, pp: seq<int>, chain: seq<int>, parents: seq<LinNode>)
    requires Maximal(rows, chain) && chain[0] == g.origin && |pp| == |parents| == |chain| - 1
    requires forall i :: 0 <= i < |parents| ==> pp[i] == parents[i].pid == chain[|chain| - 1 - i]
    requires g.ancestors == (set i | 0 <= i < |parents| :: parents[i].pid) && g.base == 1 + |parents|
    ensures Upward(rows, g.origin, pp, chain) && Spine(g, pp)
  {
    hide ParentOf;
    forall p | p in pp
      ensures p in g.ancestors
    {
      var i :| 0 <= i < |pp| && pp[i] == p;
      assert parents[i].pid == p;
    }
    SpineHolds(rows, g, pp, chain);
  }

  lemma RootNode(g: Graph, pp: seq<int>, parents: seq<LinNode>, found: map<int, LinNode>, nodes: map<int, LinNode>,
                 root: LinNode)
    requires Joined(pp, parents, found, nodes) && g.origin in found
    requires root == if |parents| > 0 then parents[0] else found[g.origin]
    ensures RootOf(g, pp) in nodes && nodes[RootOf(g, pp)] == root
    ensures g.origin in nodes && nodes[g.origin] == found[g.origin]
  {
  }

  // ---------- what the view promises about the rows ----------

  /** Where no observed start was lost to a packed key: a process below the origin is drawn as many levels below
      it as there are starts on the shortest walk to it that avoids the parents. */
  lemma DepthInRows(rows: seq<Row>, g: Graph, pp: seq<int>, s: Bfs, v: int)
    requires Final(g, s) && Spine(g, pp) && ListsEdges(rows, g.children) && Complete(rows, g.children)
    requires v in s.depth
    ensures v in Whole(pp, s)
    ensures var d := Level(pp, s, v) - |pp|;
            && 0 <= d <= MAX_DEPTH && RowWalk(rows, g.ancestors, g.origin, v, d)
            && forall m: nat :: m < d ==> !RowWalk(rows, g.ancestors, g.origin, v, m)
  {
    hide Final, Spine, ListsEdges, Complete, Walk, RowWalk, Place;
    DepthIsDistance(g, s, v);
    var d: nat := s.depth[v];
    WalkIsRowWalk(rows, g, v, d);
    forall m: nat | m < d
      ensures !RowWalk(rows, g.ancestors, g.origin, v, m)
    {
      assert !Walk(g, v, m);
      WalkIsRowWalk(rows, g, v, m);
    }
  }

  /** Nothing is missing from a tree that is not called truncated; and below the node cap nothing within eight
      levels is. */
  lemma NothingMissing(rows: seq<Row>, g: Graph, s: Bfs, v: int, n: nat)
    requires Final(g, s) && ListsEdges(rows, g.children) && Complete(rows, g.children)
    requires RowWalk(rows, g.ancestors, g.origin, v, n)
    requires !s.truncated || (s.total < MAX_NODES && n <= MAX_DEPTH)
    ensures v in s.depth
  {
    WalkIsRowWalk(rows, g, v, n);
    if !s.truncated {
      UntruncatedComplete(g, s, v, n);
    } else {
      BelowCapComplete(g, s, v, n);
    }
  }

  // ---------- truncated, and yet complete ----------

  function Started(pid: int, parent: int): Row {
    BareAlert(pid, pid, "rule", pid, parent)
  }

  /** Processes 1 to 9, each started by the one before it, and 2 once more, by 9. */
  function SpiralRows(): seq<Row> {
    [Started(2, 1), Started(3, 2), Started(4, 3), Started(5, 4), Started(6, 5), Started(7, 6), Started(8, 7),
     Started(9, 8), Started(2, 9)]
  }

  predicate SpiralEdge(p: int, c: int) {
    (1 <= p <= 8 && c == p + 1) || (p == 9 && c == 2)
  }

  lemma SpiralEdges(p: int, c: int)
    ensures IsEdge(SpiralRows(), p, c) <==> SpiralEdge(p, c)
  {
    if IsEdge(SpiralRows(), p, c) {
      var i :| 0 <= i < |SpiralRows()| && Names(SpiralRows()[i], p, c);
      assert SpiralRows()[i] == if i == 8 then Started(2, 9) else Started(i + 2, i + 1);
    }
    if SpiralEdge(p, c) {
      assert SpiralRows()[p - 1] == Started(c, p);
      assert Names(SpiralRows()[p - 1], p, c);
    }
  }

  /** The graph of the spiral, searched from 1. */
  ghost predicate Spiral(g: Graph) {
    g.origin == 1 && g.ancestors == {} && g.base == 1 && forall p, c :: c in Get(g.children, p) <==> SpiralEdge(p, c)
  }

  lemma {:induction false} SpiralWalk(g: Graph, v: int, n: nat)
    requires Spiral(g) && Walk(g, v, n)
    ensures 1 <= v <= 9 && (n <= 8 ==> v == n + 1)
    decreases n
  {
    if n > 0 {
      var u :| Walk(g, u, n - 1) && v in Get(g.children, u);
      SpiralWalk(g, u, n - 1);
      assert SpiralEdge(u, v);
    }
  }

  lemma {:induction false} SpiralReaches(g: Graph, n: nat)
    requires Spiral(g) && n <= 8
    ensures Walk(g, n + 1, n)
  {
    if n > 0 {
      SpiralReaches(g, n - 1);
      assert SpiralEdge(n, n + 1);
    }
  }

  lemma SpiralDepth(g: Graph, s: Bfs, v: int)
    requires Spiral(g) && Final(g, s) && v in s.depth
    ensures 1 <= v <= 9 && s.depth[v] == v - 1
  {
    hide Final, Spiral, Walk;
    DepthIsDistance(g, s, v);
    SpiralWalk(g, v, s.depth[v]);
  }

  lemma SpiralSmall(g: Graph, s: Bfs)
    requires Spiral(g) && Final(g, s)
    ensures s.total < MAX_NODES
  {
    hide Final;
    NodeCount(g, s);
    var nine := {1, 2, 3, 4, 5, 6, 7, 8, 9};
    forall v | v in s.depth
      ensures v in nine
    {
      SpiralDepth(g, s, v);
    }
    Inside(s.depth.Keys, nine);
    assert |s.depth| == |s.depth.Keys|;
  }

  lemma Inside(a: set<int>, b: set<int>)
    requires a <= b
    ensures |a| <= |b|
  {
    assert b == a + (b - a);
  }

  /** The search of the spiral places all nine processes, which are all there are, and is called truncated: at the
      depth limit the children of a node count as dropped even if they are in the tree. */
  lemma SpiralExample(g: Graph, s: Bfs)
    requires Spiral(g) && Final(g, s)
    ensures s.truncated && Keyed(s) && 9 in s.depth && s.dropped[9] > 0
    ensures forall v :: v in s.depth <==> 1 <= v <= 9
    ensures forall v, n: nat :: Walk(g, v, n) ==> v in s.depth
  {
    hide Final, Spiral, Walk;
    SpiralPlaced(g, s);
    forall v, n: nat | Walk(g, v, n)
      ensures v in s.depth
    {
      SpiralWalk(g, v, n);
    }
    SpiralDepth(g, s, 9);
    SpiralLast(g);
    TruncatedIff(g, s);
    DroppedNothing(g, s, 9);
    assert Dropped(g, s, 9, 2);
  }

  lemma SpiralLast(g: Graph)
    requires Spiral(g)
    ensures 2 in Get(g.children, 9)
  {
    assert SpiralEdge(9, 2);
  }

  lemma SpiralPlaced(g: Graph, s: Bfs)
    requires Spiral(g) && Final(g, s)
    ensures forall v :: v in s.depth <==> 1 <= v <= 9
  {
    hide Final, Spiral, Walk;
    SpiralSmall(g, s);
    forall v
      ensures v in s.depth <==> 1 <= v <= 9
    {
      if 1 <= v <= 9 {
        SpiralReaches(g, v - 1);
        BelowCapComplete(g, s, v, v - 1);
      }
      if v in s.depth {
        SpiralDepth(g, s, v);
      }
    }
  }

  lemma {:induction false} RowsOfNone(rows: seq<Row>, pid: int)
    requires forall i :: 0 <= i < |rows| ==> PidOf(rows[i]) != pid
    ensures RowsOf(rows, pid) == []
  {
    if rows != [] {
      RowsOfNone(rows[..|rows| - 1], pid);
    }
  }

  lemma SpiralLists(lists: map<int, seq<int>>)
    requires ListsEdges(SpiralRows(), lists) && (Complete(SpiralRows(), lists) <==> KeysTell(SpiralRows()))
    ensures forall p, c :: c in Get(lists, p) <==> SpiralEdge(p, c)
  {
    SmallPidsTell(SpiralRows());
    hide IsEdge, KeysTell, NoDup, Get, SpiralRows, SpiralEdge;
    forall p, c
      ensures c in Get(lists, p) <==> SpiralEdge(p, c)
    {
      SpiralEdges(p, c);
      assert IsEdge(SpiralRows(), p, c) <==> c in Get(lists, p);
    }
  }

  lemma SpiralRoot()
    ensures ParentOf(SpiralRows(), 1) == 0
  {
    RowsOfNone(SpiralRows(), 1);
    hide RowsOf, SpiralRows;
  }

  /** The view of 1 in the spiral is searched without ancestors. */
  lemma SpiralView(g: Graph, pp: seq<int>, chain: seq<int>)
    requires g.origin == 1 && Upward(SpiralRows(), 1, pp, chain) && Spine(g, pp)
    requires ListsEdges(SpiralRows(), g.children) && (Complete(SpiralRows(), g.children) <==> KeysTell(SpiralRows()))
    ensures pp == [] && Spiral(g)
  {
    hide ListsEdges, Complete, KeysTell, SpiralRows, SpiralEdge, Get, ParentOf, NoDup;
    SpiralLists(g.children);
    SpiralRoot();
    if |chain| > 1 {
      ChainNext(SpiralRows(), chain, 1);
    }
    assert pp == [];
    assert forall p :: p !in g.ancestors;
  }

  lemma SpiralCount(s: Bfs)
    requires forall v :: v in s.depth <==> 1 <= v <= 9
    ensures |Whole([], s)| == 9
  {
    var nine := seq(9, i => i + 1);
    SetOfNoDup(nine);
    var all := set p | p in nine;
    forall v
      ensures v in Whole([], s) <==> v in all
    {
      assert v in Whole([], s) <==> v in s.depth;
      assert 1 <= v <= 9 ==> nine[v - 1] == v;
    }
    assert Whole([], s) == all;
  }

  /** Its view is called truncated, with all nine processes in it. */
  method TruncatedExample() returns (view: LineageView)
    ensures view.truncated && view.nodeCount == 9 && view.parents == []
  {
    hide Upward, Spine, Final, InOrder, Stitched, Marked, ListsEdges, Complete, KeysTell, Own, Level;
    hide Spiral, SpiralRows;
    ghost var g, pp, chain, s, nodes;
    view, g, pp, chain, s, nodes := BuildLineage(SpiralRows(), 1);
    SpiralView(g, pp, chain);
    SpiralExample(g, s);
    SpiralCount(s);
    assert |nodes| == |nodes.Keys|;
  }
}
