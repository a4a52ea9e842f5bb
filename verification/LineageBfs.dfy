/** The capped breadth-first search of the lineage builder, as steps on values.
    Module Lineage runs these steps on the heap tree. */
module LineageBfs {
  import opened LineageIndex
  import opened Records

  const MAX_DEPTH: int := 8
  const MAX_NODES: int := 300

  /** Child lists, the ancestors of the origin, the origin, and the number of nodes placed before the search. */
  datatype Graph = Graph(children: map<int, seq<int>>, ancestors: set<int>, origin: int, base: int)

  /** The search: depth, tree parent, tree children and number of dropped children of every placed PID, and the
      PIDs whose children are not looked at yet. */
  datatype Bfs = Bfs(depth: map<int, int>, up: map<int, int>, kids: map<int, seq<int>>, dropped: map<int, int>,
                     queue: seq<int>, total: int, truncated: bool)

  function Start(g: Graph): Bfs {
    Bfs(map[g.origin := 0], map[], map[g.origin := []], map[g.origin := 0], [g.origin], g.base, false)
  }

  predicate Placed(g: Graph, s: Bfs, w: int) {
    w in s.depth || w in g.ancestors
  }

  /** The head u offers its child w a place. */
  function Offer(g: Graph, s: Bfs, u: int, w: int): Bfs
    requires u in s.depth && u in s.kids && u in s.dropped
  {
    if Placed(g, s, w) then s
    else if s.total >= MAX_NODES then
      s.(dropped := s.dropped[u := s.dropped[u] + 1], truncated := true)
    else
      s.(depth := s.depth[w := s.depth[u] + 1],
         up := s.up[w := u],
         kids := s.kids[u := s.kids[u] + [w]][w := []],
         dropped := s.dropped[w := 0],
         queue := s.queue + [w],
         total := s.total + 1)
  }

  lemma OfferPlaces(g: Graph, s: Bfs, u: int, w: int)
    requires Keyed(s) && u in s.depth && !Placed(g, s, w) && s.total < MAX_NODES
    ensures Offer(g, s, u, w) ==
              Bfs(s.depth[w := s.depth[u] + 1], s.up[w := u], s.kids[u := s.kids[u] + [w]][w := []], s.dropped[w := 0],
                  s.queue + [w], s.total + 1, s.truncated)
  {
  }

  /** A head at the depth limit drops all its children. */
  function DropAll(g: Graph, s: Bfs, u: int): Bfs
    requires u in s.dropped
  {
    var n := s.dropped[u] + |Get(g.children, u)|;
    s.(dropped := s.dropped[u := n], truncated := s.truncated || n > 0)
  }

  function Pop(s: Bfs): Bfs
    requires s.queue != []
  {
    s.(queue := s.queue[1..])
  }

  // ---------- what every step keeps ----------

  ghost predicate Keyed(s: Bfs) {
    s.kids.Keys == s.dropped.Keys == s.depth.Keys
  }

  /** The placed PIDs form a tree under the origin, with edges of the graph, off the ancestors. */
  ghost predicate Shape(g: Graph, s: Bfs) {
    && g.origin in s.depth && s.depth[g.origin] == 0
    && (forall v :: v in s.depth ==> v !in g.ancestors && 0 <= s.depth[v] <= MAX_DEPTH)
    && s.up.Keys == s.depth.Keys - {g.origin}
    && (forall v :: v in s.up ==>
          s.up[v] in s.depth && s.depth[v] == s.depth[s.up[v]] + 1 && v in Get(g.children, s.up[v]))
  }

  /** The lists of tree children match the tree parents. */
  ghost predicate KidsMatch(s: Bfs) {
    && (forall p :: p in s.kids ==> NoDup(s.kids[p]))
    && (forall p, v :: p in s.kids ==> (v in s.kids[p] <==> v in s.up && s.up[v] == p))
  }

  ghost predicate Counts(g: Graph, s: Bfs) {
    && s.total == g.base + |s.depth| - 1
    && (s.total <= MAX_NODES || s.total == g.base)
    && (forall v :: v in s.dropped ==> 0 <= s.dropped[v])
    && (s.truncated <==> exists v :: v in s.dropped && s.dropped[v] > 0)
  }

  /** Heads come in order of depth, and the search is busy at level d. */
  ghost predicate Order(s: Bfs, busy: set<int>, d: int) {
    && (forall i, j :: 0 <= i < j < |s.queue| ==> s.queue[i] != s.queue[j])
    && (forall v :: v in s.queue ==> v in s.depth && v !in busy && d <= s.depth[v])
    && (forall i, j :: 0 <= i < j < |s.queue| && s.queue[i] in s.depth && s.queue[j] in s.depth ==>
          s.depth[s.queue[i]] <= s.depth[s.queue[j]])
    && (forall v :: v in busy ==> v in s.depth && s.depth[v] == d)
    && (forall v :: v in s.depth ==> s.depth[v] <= d + 1)
    && (forall v :: v in s.depth && v !in s.queue ==> s.depth[v] <= d)
  }

  ghost predicate Done(s: Bfs, busy: set<int>, u: int) {
    u in s.depth && u !in s.queue && u !in busy
  }

  /** The children of u are all placed, none deeper than one below u. */
  ghost predicate Spread(g: Graph, s: Bfs, u: int)
    requires u in s.depth
  {
    forall w :: w in Get(g.children, u) && w !in g.ancestors ==> w in s.depth && s.depth[w] <= s.depth[u] + 1
  }

  ghost function Missing(g: Graph, s: Bfs, list: seq<int>): set<int> {
    set w | w in list && !Placed(g, s, w)
  }

  /** A finished head has spread unless the node cap was reached, and counts what it dropped. */
  ghost predicate Finished(g: Graph, s: Bfs, u: int)
    requires u in s.depth && u in s.dropped
  {
    if s.depth[u] < MAX_DEPTH then
      (s.total < MAX_NODES ==> Spread(g, s, u)) && s.dropped[u] == |Missing(g, s, Get(g.children, u))|
    else
      s.dropped[u] == |Get(g.children, u)|
  }

  ghost predicate Heads(g: Graph, s: Bfs, busy: set<int>)
    requires Keyed(s)
  {
    && (forall u :: Done(s, busy, u) ==> Finished(g, s, u))
    && (forall u :: u in s.queue && u in s.depth ==> s.dropped[u] == 0 && s.kids[u] == [])
  }

  /** Whatever lies two levels above a placed PID has spread. This survives the caps. */
  ghost predicate Near(g: Graph, s: Bfs) {
    forall u, v :: u in s.depth && v in s.depth && s.depth[u] + 2 <= s.depth[v] ==> Spread(g, s, u)
  }

  ghost predicate Inv(g: Graph, s: Bfs, busy: set<int>, d: int) {
    Keyed(s) && Shape(g, s) && KidsMatch(s) && Counts(g, s) && Order(s, busy, d) && Heads(g, s, busy) && Near(g, s)
  }

  /** The head u has looked at the children in `part`. */
  ghost predicate Partial(g: Graph, s: Bfs, u: int, part: seq<int>)
    requires u in s.depth && u in s.dropped
  {
    && (s.total < MAX_NODES ==>
          forall w :: w in part && w !in g.ancestors ==> w in s.depth && s.depth[w] <= s.depth[u] + 1)
    && s.dropped[u] == |Missing(g, s, part)|
  }

  lemma StartKeeps(g: Graph)
    requires g.origin !in g.ancestors
    ensures Inv(g, Start(g), {}, 0)
  {
    var s := Start(g);
    assert s.depth.Keys == {g.origin};
    assert |s.depth| == |s.depth.Keys|;
  }

  lemma PopQueue(s: Bfs)
    requires s.queue != []
    ensures forall v :: v in s.queue <==> v == s.queue[0] || v in Pop(s).queue
  {
    assert s.queue == [s.queue[0]] + Pop(s).queue;
  }

  lemma PopOrder(g: Graph, s: Bfs, d: int)
    requires Order(s, {}, d) && s.queue != [] && s.queue[0] in s.depth
    ensures Order(Pop(s), {s.queue[0]}, s.depth[s.queue[0]])
    ensures d <= s.depth[s.queue[0]] <= d + 1
  {
    PopQueue(s);
    var u := s.queue[0];
    var t := Pop(s);
    forall v | v in t.queue
      ensures v != u && s.depth[u] <= s.depth[v]
    {
      var i :| 0 <= i < |t.queue| && t.queue[i] == v;
      assert s.queue[i + 1] == v;
    }
  }

  lemma SameDepth(g: Graph, s: Bfs, t: Bfs)
    requires s.depth == t.depth
    ensures forall u :: u in s.depth ==> Spread(g, s, u) == Spread(g, t, u)
    ensures forall list :: Missing(g, s, list) == Missing(g, t, list)
  {
  }

  lemma PopHeads(g: Graph, s: Bfs)
    requires s.queue != [] && Keyed(s) && Heads(g, s, {})
    ensures Heads(g, Pop(s), {s.queue[0]})
  {
    PopQueue(s);
    var t := Pop(s);
    SameDepth(g, s, t);
    hide Spread, Missing;
    forall u | Done(t, {s.queue[0]}, u)
      ensures Finished(g, t, u)
    {
      assert u !in s.queue;
      assert Done(s, {}, u);
      assert Finished(g, s, u);
      assert Missing(g, s, Get(g.children, u)) == Missing(g, t, Get(g.children, u));
      assert Spread(g, s, u) == Spread(g, t, u);
    }
    forall u | u in t.queue && u in t.depth
      ensures t.dropped[u] == 0 && t.kids[u] == []
    {
      assert u in s.queue;
    }
  }

  lemma PopRest(g: Graph, s: Bfs)
    requires Keyed(s) && Shape(g, s) && KidsMatch(s) && Counts(g, s) && Heads(g, s, {}) && Near(g, s)
    requires s.queue != [] && s.queue[0] in s.depth
    ensures Shape(g, Pop(s)) && KidsMatch(Pop(s)) && Counts(g, Pop(s)) && Near(g, Pop(s))
    ensures Partial(g, Pop(s), s.queue[0], []) && s.kids[s.queue[0]] == []
  {
    var u := s.queue[0];
    assert u in s.queue;
    assert s.dropped[u] == 0;
    hide Heads, Finished;
    assert Missing(g, Pop(s), []) == {};
    SameDepth(g, s, Pop(s));
    hide Spread, Missing;
  }

  /** Taking the next head. */
  lemma PopKeeps(g: Graph, s: Bfs, d: int)
    requires Inv(g, s, {}, d) && s.queue != [] && s.queue[0] in s.depth
    ensures Inv(g, Pop(s), {s.queue[0]}, s.depth[s.queue[0]])
    ensures Partial(g, Pop(s), s.queue[0], []) && s.kids[s.queue[0]] == []
    ensures d <= s.depth[s.queue[0]] <= d + 1
  {
    hide Order, Heads, Finished, Shape, KidsMatch, Counts, Near, Partial;
    PopOrder(g, s, d);
    PopHeads(g, s);
    PopRest(g, s);
  }

  // ---------- one offer ----------

  ghost predicate Offering(g: Graph, s: Bfs, u: int, w: int, d: int) {
    && Inv(g, s, {u}, d) && u in s.depth && s.depth[u] == d < MAX_DEPTH
    && w in Get(g.children, u) && !Placed(g, s, w) && s.total < MAX_NODES
  }

  lemma PlaceShape(g: Graph, s: Bfs, u: int, w: int, d: int)
    requires Offering(g, s, u, w, d)
    ensures Keyed(Offer(g, s, u, w)) && Shape(g, Offer(g, s, u, w))
  {
    hide Order, Heads, Near, Get, Counts, KidsMatch;
    var t := Offer(g, s, u, w);
    assert t.depth.Keys == s.depth.Keys + {w};
  }

  lemma PlaceKids(g: Graph, s: Bfs, u: int, w: int, d: int)
    requires Offering(g, s, u, w, d)
    ensures KidsMatch(Offer(g, s, u, w))
  {
    hide Order, Heads, Near, Get, Counts;
    assert w !in s.up && forall v :: v in s.up ==> s.up[v] in s.depth;
    assert u in s.kids;
    hide Shape;
    var t := Offer(g, s, u, w);
    assert w !in s.kids[u];
    assert NoDup(s.kids[u]);
    assert NoDup(t.kids[u]);
  }

  lemma PlaceCounts(g: Graph, s: Bfs, u: int, w: int, d: int)
    requires Offering(g, s, u, w, d)
    ensures Counts(g, Offer(g, s, u, w))
  {
    hide Order, Heads, Near, Get, Shape, KidsMatch;
    var t := Offer(g, s, u, w);
    assert t.depth.Keys == s.depth.Keys + {w};
    assert |t.depth| == |t.depth.Keys| && |s.depth| == |s.depth.Keys|;
    if s.truncated {
      var v :| v in s.dropped && s.dropped[v] > 0;
      assert t.dropped[v] > 0;
    }
  }

  lemma PlaceOrder(g: Graph, s: Bfs, u: int, w: int, d: int)
    requires Offering(g, s, u, w, d)
    ensures Order(Offer(g, s, u, w), {u}, d)
  {
    OfferPlaces(g, s, u, w);
    hide Heads, Near, Get, Shape, KidsMatch, Counts, Offer;
    var t := Offer(g, s, u, w);
    assert forall v :: v in t.queue <==> v in s.queue || v == w;
    assert w !in s.queue;
    forall i, j | 0 <= i < j < |t.queue|
      ensures t.queue[i] != t.queue[j] && t.queue[i] in t.depth && t.queue[j] in t.depth
      ensures t.depth[t.queue[i]] <= t.depth[t.queue[j]]
    {
      assert t.queue[i] == s.queue[i] && s.queue[i] in s.queue;
      if j < |s.queue| {
        assert t.queue[j] == s.queue[j] && s.queue[j] in s.queue;
      } else {
        assert t.queue[j] == w && t.depth[w] == d + 1;
      }
    }
  }

  /** Placing w keeps what has spread. */
  lemma SpreadStays(g: Graph, s: Bfs, u: int, w: int, d: int, v: int)
    requires Offering(g, s, u, w, d) && v in s.depth && Spread(g, s, v)
    ensures Spread(g, Offer(g, s, u, w), v)
    ensures Missing(g, s, Get(g.children, v)) == Missing(g, Offer(g, s, u, w), Get(g.children, v)) == {}
  {
    hide Inv, Get;
  }

  lemma PlaceHeads(g: Graph, s: Bfs, u: int, w: int, d: int)
    requires Offering(g, s, u, w, d)
    ensures Keyed(Offer(g, s, u, w)) && Heads(g, Offer(g, s, u, w), {u})
  {
    PlaceShape(g, s, u, w, d);
    hide Order, Near, Get, Shape, KidsMatch, Counts, Spread, Missing;
    var t := Offer(g, s, u, w);
    assert forall v :: v in t.queue <==> v in s.queue || v == w;
    forall v | Done(t, {u}, v)
      ensures Finished(g, t, v)
    {
      assert Done(s, {u}, v);
      assert Finished(g, s, v);
      if s.depth[v] < MAX_DEPTH {
        SpreadStays(g, s, u, w, d, v);
      }
    }
    forall v | v in t.queue && v in t.depth
      ensures t.dropped[v] == 0 && t.kids[v] == []
    {
      if v != w {
        assert v in s.queue && v != u by { BusyIsNotQueued(s, u, d, v); }
      }
    }
  }

  lemma BusyIsNotQueued(s: Bfs, u: int, d: int, v: int)
    requires Order(s, {u}, d) && v in s.queue
    ensures v in s.depth && v != u && d <= s.depth[v] <= d + 1
  {
  }

  lemma PlaceNear(g: Graph, s: Bfs, u: int, w: int, d: int)
    requires Offering(g, s, u, w, d)
    ensures Near(g, Offer(g, s, u, w))
  {
    hide Get, Shape, KidsMatch, Counts, Spread, Missing;
    var t := Offer(g, s, u, w);
    forall p, v | p in t.depth && v in t.depth && t.depth[p] + 2 <= t.depth[v]
      ensures Spread(g, t, p)
    {
      assert p != w;
      if v == w {
        assert Done(s, {u}, p);
        assert Finished(g, s, p);
      } else {
        assert s.depth[p] + 2 <= s.depth[v];
      }
      SpreadStays(g, s, u, w, d, p);
    }
  }

  lemma PlacePartial(g: Graph, s: Bfs, u: int, w: int, d: int, part: seq<int>)
    requires Offering(g, s, u, w, d) && Partial(g, s, u, part)
    ensures Partial(g, Offer(g, s, u, w), u, part + [w])
  {
    hide Order, Heads, Near, Get, Shape, KidsMatch, Counts;
    var t := Offer(g, s, u, w);
    assert Missing(g, s, part) == {};
    assert Missing(g, t, part + [w]) == {};
  }

  lemma DropKeeps(g: Graph, s: Bfs, u: int, w: int, d: int, part: seq<int>)
    requires Inv(g, s, {u}, d) && u in s.depth && s.depth[u] == d < MAX_DEPTH && Partial(g, s, u, part)
    requires w !in part && !Placed(g, s, w) && s.total >= MAX_NODES
    ensures Inv(g, Offer(g, s, u, w), {u}, d)
    ensures Partial(g, Offer(g, s, u, w), u, part + [w])
  {
    var t := Offer(g, s, u, w);
    assert Missing(g, t, part + [w]) == Missing(g, s, part) + {w};
    DropHeads(g, s, u, d, t);
    DropRest(g, s, {u}, u, d, t);
    hide Spread, Missing, Shape, KidsMatch, Counts, Heads, Order, Near;
  }

  lemma DropHeads(g: Graph, s: Bfs, u: int, d: int, t: Bfs)
    requires Inv(g, s, {u}, d) && u in s.depth
    requires t == s.(dropped := t.dropped, truncated := t.truncated)
    requires t.dropped.Keys == s.dropped.Keys && forall v :: v in s.dropped && v != u ==> t.dropped[v] == s.dropped[v]
    ensures Heads(g, t, {u})
  {
    SameDepth(g, s, t);
    hide Spread, Missing, Shape, KidsMatch, Counts, Near;
    forall v | Done(t, {u}, v)
      ensures Finished(g, t, v)
    {
      assert Done(s, {u}, v);
      assert Finished(g, s, v);
      assert Spread(g, s, v) == Spread(g, t, v);
      assert Missing(g, s, Get(g.children, v)) == Missing(g, t, Get(g.children, v));
    }
  }

  lemma DropRest(g: Graph, s: Bfs, busy: set<int>, u: int, d: int, t: Bfs)
    requires Keyed(s) && Shape(g, s) && KidsMatch(s) && Counts(g, s) && Order(s, busy, d) && Near(g, s)
    requires u in s.dropped && u in t.dropped
    requires t == s.(dropped := t.dropped, truncated := s.truncated || t.dropped[u] > 0)
    requires t.dropped == s.dropped[u := t.dropped[u]] && s.dropped[u] <= t.dropped[u]
    ensures Keyed(t) && Shape(g, t) && KidsMatch(t) && Counts(g, t) && Order(t, busy, d) && Near(g, t)
  {
    SameTree(g, s, busy, d, t);
    hide Shape, KidsMatch, Order, Near;
    if s.truncated {
      var v :| v in s.dropped && s.dropped[v] > 0;
      assert t.dropped[v] > 0;
    }
  }

  lemma SameTree(g: Graph, s: Bfs, busy: set<int>, d: int, t: Bfs)
    requires Keyed(s) && Shape(g, s) && KidsMatch(s) && Order(s, busy, d) && Near(g, s)
    requires t == s.(dropped := t.dropped, truncated := t.truncated) && Keyed(t)
    ensures Shape(g, t) && KidsMatch(t) && Order(t, busy, d) && Near(g, t)
  {
    SameDepth(g, s, t);
    hide Spread;
  }

  /** One child. */
  lemma OfferKeeps(g: Graph, s: Bfs, u: int, w: int, d: int, part: seq<int>)
    requires Inv(g, s, {u}, d) && u in s.depth && s.depth[u] == d < MAX_DEPTH && Partial(g, s, u, part)
    requires w in Get(g.children, u) && w !in part
    ensures Inv(g, Offer(g, s, u, w), {u}, d)
    ensures u in Offer(g, s, u, w).depth && Offer(g, s, u, w).depth[u] == d
    ensures Partial(g, Offer(g, s, u, w), u, part + [w])
  {
    if Placed(g, s, w) {
      hide Shape, KidsMatch, Counts, Heads, Near;
      assert Missing(g, s, part + [w]) == Missing(g, s, part);
    } else if s.total >= MAX_NODES {
      DropKeeps(g, s, u, w, d, part);
    } else {
      PlaceShape(g, s, u, w, d);
      PlaceCounts(g, s, u, w, d);
      PlaceKids(g, s, u, w, d);
      PlaceOrder(g, s, u, w, d);
      PlaceHeads(g, s, u, w, d);
      PlaceNear(g, s, u, w, d);
      PlacePartial(g, s, u, w, d, part);
      hide Shape, KidsMatch, Counts, Heads, Near, Order, Partial;
    }
  }

  /** The end of a turn: the head has looked at all its children. */
  lemma TurnEnds(g: Graph, s: Bfs, u: int, d: int, part: seq<int>)
    requires Inv(g, s, {u}, d) && u in s.depth && s.depth[u] == d < MAX_DEPTH && Partial(g, s, u, part)
    requires forall w :: w in part <==> w in Get(g.children, u)
    ensures Inv(g, s, {}, d)
  {
    assert Missing(g, s, part) == Missing(g, s, Get(g.children, u));
    assert Finished(g, s, u);
    hide Shape, KidsMatch, Counts, Near, Spread, Missing, Finished;
    assert forall v :: Done(s, {}, v) ==> v == u || Done(s, {u}, v);
  }

  lemma DropAllKeeps(g: Graph, s: Bfs, u: int, d: int)
    requires Inv(g, s, {u}, d) && u in s.depth && s.depth[u] == d >= MAX_DEPTH && Partial(g, s, u, [])
    ensures Inv(g, DropAll(g, s, u), {}, d)
  {
    var t := DropAll(g, s, u);
    assert Missing(g, s, []) == {};
    DropHeads(g, s, u, d, t);
    DropRest(g, s, {u}, u, d, t);
    assert Finished(g, t, u) by {
      hide Shape, KidsMatch, Counts, Near, Order, Heads;
    }
    assert Order(t, {}, d) by {
      hide Shape, KidsMatch, Counts, Near, Heads;
    }
    hide Shape, KidsMatch, Counts, Near, Finished, Order;
    assert forall v :: Done(t, {}, v) ==> v == u || Done(t, {u}, v);
  }

  // ---------- what a finished search found ----------

  ghost predicate Final(g: Graph, s: Bfs) {
    s.queue == [] && exists d :: Inv(g, s, {}, d)
  }

  /** A walk of n steps from the origin to v that visits no ancestor. */
  ghost predicate Walk(g: Graph, v: int, n: nat)
    decreases n
  {
    if n == 0 then v == g.origin
    else v !in g.ancestors && exists u :: Walk(g, u, n - 1) && v in Get(g.children, u)
  }

  ghost predicate Distance(g: Graph, v: int, n: nat) {
    Walk(g, v, n) && forall m: nat :: m < n ==> !Walk(g, v, m)
  }

  lemma {:induction false} TreeWalk(g: Graph, s: Bfs, v: int)
    requires Shape(g, s) && v in s.depth
    ensures Walk(g, v, s.depth[v])
    decreases s.depth[v]
  {
    if v != g.origin {
      assert v in s.up;
      TreeWalk(g, s, s.up[v]);
    }
  }

  /** No walk that is shorter than some tree depth leads out of the tree, or to a deeper node. */
  lemma {:induction false} WalkStaysNear(g: Graph, s: Bfs, v: int, w: int, n: nat)
    requires Shape(g, s) && Near(g, s) && v in s.depth && n < s.depth[v] && Walk(g, w, n)
    ensures w in s.depth && s.depth[w] <= n
    decreases n
  {
    if n > 0 {
      var u :| Walk(g, u, n - 1) && w in Get(g.children, u);
      WalkStaysNear(g, s, v, u, n - 1);
      assert Spread(g, s, u);
    }
  }

  /** The depth of every placed PID is its distance from the origin, also when the node cap was reached. */
  lemma DepthIsDistance(g: Graph, s: Bfs, v: int)
    requires Final(g, s) && v in s.depth
    ensures 0 <= s.depth[v] <= MAX_DEPTH && Distance(g, v, s.depth[v])
  {
    hide Counts, KidsMatch, Order, Heads, Near;
    assert Shape(g, s);
    TreeWalk(g, s, v);
    forall m: nat | m < s.depth[v]
      ensures !Walk(g, v, m)
    {
      if Walk(g, v, m) {
        WalkStaysNear(g, s, v, v, m);
      }
    }
  }

  lemma FinalDone(g: Graph, s: Bfs, u: int)
    requires Final(g, s) && u in s.depth
    ensures Keyed(s) && Finished(g, s, u)
  {
    hide Shape, KidsMatch, Counts, Order, Near, Finished;
    var d :| Inv(g, s, {}, d);
    assert Done(s, {}, u);
  }

  /** Below the node cap, the tree holds every PID at distance at most eight. */
  lemma {:induction false} BelowCapComplete(g: Graph, s: Bfs, v: int, n: nat)
    requires Final(g, s) && s.total < MAX_NODES && Walk(g, v, n) && n <= MAX_DEPTH
    ensures v in s.depth && s.depth[v] <= n
    decreases n
  {
    hide KidsMatch, Counts, Order, Heads, Near;
    if n > 0 {
      var u :| Walk(g, u, n - 1) && v in Get(g.children, u);
      BelowCapComplete(g, s, u, n - 1);
      FinalDone(g, s, u);
      assert Spread(g, s, u);
    }
  }

  /** How many children a head counts as dropped: those neither in the tree nor above it; at the depth limit, all.
      So none exactly when all are in the tree or above it, or at the depth limit when there are none. */
  lemma DroppedNothing(g: Graph, s: Bfs, u: int)
    requires Final(g, s) && u in s.depth
    ensures Keyed(s)
    ensures var list := Get(g.children, u);
            s.dropped[u] == if s.depth[u] < MAX_DEPTH then |Missing(g, s, list)| else |list|
    ensures s.dropped[u] == 0 <==> forall w :: w in Get(g.children, u) ==> s.depth[u] < MAX_DEPTH && Placed(g, s, w)
  {
    FinalDone(g, s, u);
    var list := Get(g.children, u);
    hide Final, Get;
    if s.depth[u] < MAX_DEPTH {
      if s.dropped[u] == 0 {
        assert Missing(g, s, list) == {};
        assert forall w :: w in list ==> w !in Missing(g, s, list);
      } else {
        assert Missing(g, s, list) != {};
        var w :| w in Missing(g, s, list);
        assert w in list && !Placed(g, s, w);
      }
    } else if list == [] {
      assert forall w :: w !in Get(g.children, u);
    } else {
      var w := list[0];
      assert w in Get(g.children, u);
    }
  }

  /** The count is the number of children left out exactly below the depth limit, or where all children are. */
  lemma CountsLeftOut(g: Graph, s: Bfs, u: int)
    requires Final(g, s) && u in s.depth && NoDup(Get(g.children, u))
    ensures Keyed(s)
    ensures var list := Get(g.children, u);
            s.dropped[u] == |Missing(g, s, list)| <==>
              s.depth[u] < MAX_DEPTH || forall w :: w in list ==> !Placed(g, s, w)
  {
    hide Final, Placed, Get, Missing;
    DroppedNothing(g, s, u);
    AllMissing(g, s, Get(g.children, u));
  }

  lemma AllMissing(g: Graph, s: Bfs, list: seq<int>)
    requires NoDup(list)
    ensures |Missing(g, s, list)| == |list| <==> forall w :: w in list ==> !Placed(g, s, w)
  {
    hide Placed;
    var all, rest := set w | w in list, set w | w in list && Placed(g, s, w);
    SetOfNoDup(list);
    assert all == Missing(g, s, list) + rest && Missing(g, s, list) !! rest;
    assert rest == {} <==> forall w :: w in list ==> w !in rest;
  }

  /** A child that counts as dropped: any below a node at the depth limit, else one that is not in the tree nor
      above it. */
  ghost predicate Dropped(g: Graph, s: Bfs, u: int, w: int) {
    u in s.depth && w in Get(g.children, u) && (s.depth[u] == MAX_DEPTH || !Placed(g, s, w))
  }

  /** Exactly when the tree is called truncated. */
  lemma TruncatedIff(g: Graph, s: Bfs)
    requires Final(g, s)
    ensures s.truncated <==> exists u, w :: Dropped(g, s, u, w)
  {
    assert Keyed(s) && forall u :: u in s.depth ==> s.depth[u] <= MAX_DEPTH && s.dropped[u] >= 0;
    assert s.truncated <==> exists v :: v in s.dropped && s.dropped[v] > 0;
    forall u | u in s.depth
      ensures s.dropped[u] == 0 <==> forall w :: w in Get(g.children, u) ==> s.depth[u] < MAX_DEPTH && Placed(g, s, w)
    {
      DroppedNothing(g, s, u);
    }
    hide Final, Counts, Shape, KidsMatch, Order, Heads, Near, Get, Placed;
    if s.truncated {
      var u :| u in s.dropped && s.dropped[u] > 0;
      var w :| w in Get(g.children, u) && !(s.depth[u] < MAX_DEPTH && Placed(g, s, w));
      assert Dropped(g, s, u, w);
    }
    if u, w :| Dropped(g, s, u, w) {
      assert s.dropped[u] > 0;
    }
  }

  /** A tree that is not truncated holds every PID that can be reached without the ancestors. */
  lemma {:induction false} UntruncatedComplete(g: Graph, s: Bfs, v: int, n: nat)
    requires Final(g, s) && !s.truncated && Walk(g, v, n)
    ensures v in s.depth
    decreases n
  {
    if n > 0 {
      var u :| Walk(g, u, n - 1) && v in Get(g.children, u);
      UntruncatedComplete(g, s, u, n - 1);
      TruncatedIff(g, s);
      FinalDone(g, s, u);
      hide Final;
      assert !Dropped(g, s, u, v);
    } else {
      hide KidsMatch, Counts, Order, Heads, Near;
    }
  }

  /** The nodes are counted, and stay within the cap unless the ancestors alone exceed it. */
  lemma NodeCount(g: Graph, s: Bfs)
    requires Final(g, s)
    ensures s.total == g.base + |s.depth| - 1
    ensures s.total <= if g.base > 300 then g.base else 300
  {
    hide Shape, KidsMatch, Order, Heads, Near;
  }

  // ---------- in terms of the rows ----------

  /** A walk of n observed process starts. */
  ghost predicate RowWalk(rows: seq<Row>, ancestors: set<int>, origin: int, v: int, n: nat)
    decreases n
  {
    if n == 0 then v == origin
    else v !in ancestors && exists u :: RowWalk(rows, ancestors, origin, u, n - 1) && IsEdge(rows, u, v)
  }

  lemma {:induction false} WalkIsRowWalk(rows: seq<Row>, g: Graph, v: int, n: nat)
    requires ListsEdges(rows, g.children) && Complete(rows, g.children)
    ensures Walk(g, v, n) <==> RowWalk(rows, g.ancestors, g.origin, v, n)
    decreases n
  {
    hide IsEdge, Get;
    if n > 0 {
      var m := n - 1;
      forall u
        ensures Walk(g, u, m) <==> RowWalk(rows, g.ancestors, g.origin, u, m)
      {
        WalkIsRowWalk(rows, g, u, m);
      }
      assert forall u :: v in Get(g.children, u) <==> IsEdge(rows, u, v);
    }
  }
}
