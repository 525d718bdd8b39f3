/**
 The shortest path calculation (`dijkstra` in src/route.cpp; RFC 2328, section 16.1).

 The priority queue is a multiset from which some least element is taken; it may hold stale copies of nodes whose
 distance has since dropped. Looking up an id without a node creates one with distance 0, which is never relaxed.
 */
module Dijkstra {
  import opened Words
  import opened Graphs

  /** Router ids and network prefixes, all of them 32-bit numbers that this part only compares. */
  type Id = int

  datatype Node = Node(id: Id, mask: uint32, dist: uint32)
  datatype Edge = Edge(dst: Id, metric: uint32)

  type Nodes = map<Id, Node>
  type Edges = map<Id, seq<Edge>>

  /** Metrics are 16 bits wide; with so many nodes no sum of metrics along a path reaches 2^32. */
  const MAX_METRIC := 65535
  const MAX_NODES := 65537

  function OutEdges(edges: Edges, u: Id): seq<Edge> {
    if u in edges then edges[u] else []
  }

  /** The hops between recorded nodes. */
  ghost function HopsOf(v: set<Id>, edges: Edges): iset<Hop<Id>> {
    iset h: Hop<Id> | h.src in v && h.dst in v && h.cost < TWO_32 && Edge(h.dst, h.cost) in OutEdges(edges, h.src)
  }

  /** The variables of the calculation. */
  datatype Search = Search(nodes: Nodes, prevs: map<Id, Id>, heap: multiset<Node>)

  /** `unordered_map::operator[]` on `nodes`. */
  function Lookup(nodes: Nodes, id: Id): Node {
    if id in nodes then nodes[id] else Node(0, 0, 0)
  }

  /** The body of the inner loop. */
  function Relax(s: Search, node: Node, edge: Edge): Search {
    var target := Lookup(s.nodes, edge.dst);
    var d := U32(node.dist + edge.metric);
    if target.dist > d then
      var closer := target.(dist := d);
      Search(s.nodes[edge.dst := closer], s.prevs[edge.dst := node.id], s.heap + multiset{closer})
    else s.(nodes := s.nodes[edge.dst := target])
  }

  /** What the calculation may rely on: few enough nodes, 16-bit metrics, and the root recorded. */
  ghost predicate Input(v: set<Id>, edges: Edges, root: Id) {
    && |v| <= MAX_NODES && root in v && 0 !in v
    && forall u, i | u in v && 0 <= i < |OutEdges(edges, u)| :: OutEdges(edges, u)[i].metric <= MAX_METRIC
  }

  // ----- The invariant. `v` is the recorded nodes; `rank` numbers the settled ones in the order of settling.

  type Ranks = map<Id, nat>

  ghost predicate NodesOk(v: set<Id>, root: Id, s: Search) {
    && v <= s.nodes.Keys && v <= s.prevs.Keys && root in v
    && (forall u | u in v :: s.nodes[u].id == u)
    && (forall u | u in s.nodes && u !in v :: s.nodes[u].dist == 0)
    && s.nodes[root].dist == 0 && s.prevs[root] == 0
  }

  /** Settled nodes are reached, at a distance that their rank bounds. */
  ghost predicate RankOk(v: set<Id>, root: Id, s: Search, rank: Ranks)
    requires v <= s.nodes.Keys
  {
    && rank.Keys <= v && (rank != map[] ==> root in rank)
    && forall u | u in rank :: rank[u] < |rank| && s.nodes[u].dist <= 65535 * rank[u] && s.nodes[u].dist < UINT32_MAX
  }

  /** Node `u` as the heap should hold it. */
  function Copy(nodes: Nodes, u: Id): Node
    requires u in nodes
  {
    Node(u, nodes[u].mask, nodes[u].dist)
  }

  /** Nodes not yet settled are no closer than settled ones; those reached are in the heap as they are. */
  ghost predicate FrontierOk(v: set<Id>, s: Search, rank: Ranks)
    requires rank.Keys <= v <= s.nodes.Keys
  {
    && (forall u, w | u in v && u !in rank && w in rank :: s.nodes[w].dist <= s.nodes[u].dist)
    && (forall u {:trigger Copy(s.nodes, u)} | u in v && u !in rank && s.nodes[u].dist < UINT32_MAX ::
          Copy(s.nodes, u) in s.heap && s.nodes[u].dist <= 65535 * |rank|)
  }

  /** Copies in the heap may be stale, that is too far, but never too close. */
  ghost predicate HeapOk(v: set<Id>, s: Search)
    requires v <= s.nodes.Keys
  {
    forall n {:trigger s.heap[n]} | n in s.heap :: n.id in v && n.mask == s.nodes[n.id].mask && s.nodes[n.id].dist <= n.dist < UINT32_MAX
  }

  /** A reached node hangs on an earlier settled one by an edge whose metric is the distance difference. */
  ghost predicate HangsOn(v: set<Id>, g: iset<Hop<Id>>, nodes: Nodes, prevs: map<Id, Id>, rank: Ranks, u: Id)
    requires rank.Keys <= v <= nodes.Keys && v <= prevs.Keys && u in v
  {
    var p := prevs[u];
    && p in rank && (u in rank ==> rank[p] < rank[u])
    && nodes[p].dist <= nodes[u].dist && Hop(p, nodes[u].dist - nodes[p].dist, u) in g
  }

  ghost predicate Placed(v: set<Id>, g: iset<Hop<Id>>, nodes: Nodes, prevs: map<Id, Id>, rank: Ranks, u: Id)
    requires rank.Keys <= v <= nodes.Keys && v <= prevs.Keys && u in v
  {
    if nodes[u].dist == UINT32_MAX then prevs[u] == 0 else HangsOn(v, g, nodes, prevs, rank, u)
  }

  ghost predicate TreeOk(v: set<Id>, g: iset<Hop<Id>>, root: Id, nodes: Nodes, prevs: map<Id, Id>, rank: Ranks)
    requires rank.Keys <= v <= nodes.Keys && v <= prevs.Keys
  {
    forall u {:trigger Placed(v, g, nodes, prevs, rank, u)} | u in v && u != root :: Placed(v, g, nodes, prevs, rank, u)
  }

  /** The first `n` edges of `u` cannot improve anything any more. */
  ghost predicate Relaxed(v: set<Id>, edges: Edges, nodes: Nodes, u: Id, n: nat)
    requires v <= nodes.Keys && u in v
  {
    forall i | 0 <= i < n && i < |OutEdges(edges, u)| && OutEdges(edges, u)[i].dst in v ::
      var e := OutEdges(edges, u)[i];
      nodes[e.dst].dist < UINT32_MAX && nodes[e.dst].dist <= nodes[u].dist + e.metric
  }

  ghost predicate Core(v: set<Id>, edges: Edges, root: Id, s: Search, rank: Ranks) {
    && NodesOk(v, root, s) && RankOk(v, root, s, rank) && FrontierOk(v, s, rank) && HeapOk(v, s)
    && TreeOk(v, HopsOf(v, edges), root, s.nodes, s.prevs, rank)
  }

  ghost predicate AllRelaxed(v: set<Id>, edges: Edges, nodes: Nodes, done: set<Id>)
    requires done <= v <= nodes.Keys
  {
    forall u | u in done :: Relaxed(v, edges, nodes, u, |OutEdges(edges, u)|)
  }

  /** The outer loop's invariant. */
  ghost predicate Outer(v: set<Id>, edges: Edges, root: Id, s: Search, rank: Ranks) {
    Core(v, edges, root, s, rank) && AllRelaxed(v, edges, s.nodes, rank.Keys)
  }

  /** The inner loop's: `u`, settled last, has `n` edges relaxed. */
  ghost predicate Inner(v: set<Id>, edges: Edges, root: Id, s: Search, rank: Ranks, u: Id, n: nat) {
    && Core(v, edges, root, s, rank) && u in rank && rank[u] == |rank| - 1
    && (forall w | w in rank :: s.nodes[w].dist <= s.nodes[u].dist)
    && AllRelaxed(v, edges, s.nodes, rank.Keys - {u}) && Relaxed(v, edges, s.nodes, u, n)
  }

  // ----- No overflow

  lemma SubsetSize<T>(small: set<T>, big: set<T>)
    requires small <= big
    ensures |small| <= |big| && (|small| == |big| ==> small == big)
  {
    if small != {} {
      var x :| x in small;
      SubsetSize(small - {x}, big - {x});
    }
  }

  /** The sum formed when relaxing does not wrap, and only the last of 65537 nodes can push it to the maximum. */
  lemma SumFits(v: set<Id>, edges: Edges, root: Id, s: Search, rank: Ranks, u: Id, n: nat)
    requires Input(v, edges, root) && Inner(v, edges, root, s, rank, u, n) && n < |OutEdges(edges, u)|
    ensures var d := s.nodes[u].dist + OutEdges(edges, u)[n].metric;
            d <= 65535 * |rank| && d <= UINT32_MAX
            && (d == UINT32_MAX ==> forall t | t in v :: s.nodes[t].dist < UINT32_MAX)
  {
    hide TreeOk, FrontierOk, HeapOk, AllRelaxed, Relaxed;
    SubsetSize(rank.Keys, v);
  }

  // ----- Relaxing one edge

  /** The state after node `t` has been found at distance `d` through `u`. */
  function Gained(s: Search, t: Id, d: uint32, u: Id): Search
    requires t in s.nodes
  {
    var closer := s.nodes[t].(dist := d);
    Search(s.nodes[t := closer], s.prevs[t := u], s.heap + multiset{closer})
  }

  lemma RelaxCases(s: Search, node: Node, e: Edge)
    requires node.dist + e.metric < TWO_32
    ensures var d := node.dist + e.metric;
            Relax(s, node, e)
            == if e.dst !in s.nodes then s.(nodes := s.nodes[e.dst := Node(0, 0, 0)])
               else if s.nodes[e.dst].dist > d then Gained(s, e.dst, d, node.id)
               else s
  {
    if e.dst in s.nodes {
      assert s.nodes[e.dst := s.nodes[e.dst]] == s.nodes;
    }
  }

  lemma GainTree(v: set<Id>, g: iset<Hop<Id>>, root: Id, s: Search, rank: Ranks, t: Id, d: uint32, u: Id)
    requires rank.Keys <= v <= s.nodes.Keys && v <= s.prevs.Keys && u in rank && t in v && t !in rank
    requires TreeOk(v, g, root, s.nodes, s.prevs, rank)
    requires s.nodes[u].dist <= d < s.nodes[t].dist && Hop(u, d - s.nodes[u].dist, t) in g
    ensures var r := Gained(s, t, d, u); TreeOk(v, g, root, r.nodes, r.prevs, rank)
  {
    var r := Gained(s, t, d, u);
    forall w | w in v && w != root
      ensures Placed(v, g, r.nodes, r.prevs, rank, w)
    {
      assert w != t ==> Placed(v, g, s.nodes, s.prevs, rank, w);
    }
  }

  lemma GainNodes(v: set<Id>, root: Id, s: Search, t: Id, d: uint32, u: Id)
    requires NodesOk(v, root, s) && t in v && t != root
    ensures NodesOk(v, root, Gained(s, t, d, u))
  {
  }

  lemma GainRank(v: set<Id>, root: Id, s: Search, rank: Ranks, t: Id, d: uint32, u: Id)
    requires v <= s.nodes.Keys && RankOk(v, root, s, rank) && t in v && t !in rank
    ensures RankOk(v, root, Gained(s, t, d, u), rank)
  {
  }

  lemma GainFrontier(v: set<Id>, s: Search, rank: Ranks, t: Id, d: uint32, u: Id)
    requires rank.Keys <= v <= s.nodes.Keys && FrontierOk(v, s, rank) && t in v && t !in rank && s.nodes[t].id == t
    requires forall w | w in rank :: s.nodes[w].dist <= d
    requires d <= 65535 * |rank|
    ensures FrontierOk(v, Gained(s, t, d, u), rank)
  {
    var r := Gained(s, t, d, u);
    assert r.nodes[t] == Copy(r.nodes, t);
    forall w | w in v && w !in rank && w != t
      ensures Copy(r.nodes, w) == Copy(s.nodes, w)
    {
    }
  }

  lemma GainHeap(v: set<Id>, s: Search, t: Id, d: uint32, u: Id)
    requires v <= s.nodes.Keys && HeapOk(v, s) && t in v && s.nodes[t].id == t && d < s.nodes[t].dist
    ensures HeapOk(v, Gained(s, t, d, u))
  {
    var r := Gained(s, t, d, u);
    forall n | n in r.heap
      ensures n.id in v && n.mask == r.nodes[n.id].mask && r.nodes[n.id].dist <= n.dist < UINT32_MAX
    {
      assert n == r.nodes[t] || n in s.heap;
    }
  }

  lemma GainRelaxed(v: set<Id>, edges: Edges, nodes: Nodes, t: Id, closer: Node, w: Id, n: nat)
    requires v <= nodes.Keys && w in v && w != t && t in v && closer.dist < nodes[t].dist
    requires Relaxed(v, edges, nodes, w, n)
    ensures Relaxed(v, edges, nodes[t := closer], w, n)
  {
  }

  lemma MoreRelaxed(v: set<Id>, edges: Edges, nodes: Nodes, u: Id, n: nat)
    requires v <= nodes.Keys && u in v && Relaxed(v, edges, nodes, u, n) && n < |OutEdges(edges, u)|
    requires var e := OutEdges(edges, u)[n];
             e.dst in v ==> nodes[e.dst].dist < UINT32_MAX && nodes[e.dst].dist <= nodes[u].dist + e.metric
    ensures Relaxed(v, edges, nodes, u, n + 1)
  {
  }

  lemma GainAllRelaxed(v: set<Id>, edges: Edges, nodes: Nodes, t: Id, closer: Node, done: set<Id>)
    requires done <= v <= nodes.Keys && t in v && t !in done && closer.dist < nodes[t].dist
    requires AllRelaxed(v, edges, nodes, done)
    ensures AllRelaxed(v, edges, nodes[t := closer], done)
  {
    hide Relaxed;
    forall w | w in done
      ensures Relaxed(v, edges, nodes[t := closer], w, |OutEdges(edges, w)|)
    {
      GainRelaxed(v, edges, nodes, t, closer, w, |OutEdges(edges, w)|);
    }
  }

  /** An improved node is recorded, and not yet settled. */
  lemma GainIsFrontier(v: set<Id>, edges: Edges, root: Id, s: Search, rank: Ranks, u: Id, n: nat, t: Id, d: int)
    requires Inner(v, edges, root, s, rank, u, n) && s.nodes[u].dist <= d < Lookup(s.nodes, t).dist
    ensures t in v && t !in rank && t != root && forall w | w in rank :: s.nodes[w].dist <= d
  {
    hide TreeOk, FrontierOk, HeapOk, AllRelaxed, Relaxed;
  }

  lemma InnerKeys(v: set<Id>, edges: Edges, root: Id, s: Search, rank: Ranks, u: Id, n: nat)
    requires Inner(v, edges, root, s, rank, u, n)
    ensures u in rank && rank.Keys <= v <= s.nodes.Keys && v <= s.prevs.Keys
  {
  }

  lemma GainInner(v: set<Id>, edges: Edges, root: Id, s: Search, rank: Ranks, u: Id, n: nat, t: Id, d: uint32)
    requires Inner(v, edges, root, s, rank, u, n)
    requires t in v && t !in rank && t != root && forall w | w in rank :: s.nodes[w].dist <= d
    requires d < s.nodes[t].dist && d <= 65535 * |rank| && Hop(u, d - s.nodes[u].dist, t) in HopsOf(v, edges)
    ensures Inner(v, edges, root, Gained(s, t, d, u), rank, u, n)
  {
    assert s.nodes[t].id == t && rank.Keys <= v <= s.nodes.Keys && v <= s.prevs.Keys;
    hide HopsOf, TreeOk, NodesOk, HeapOk, RankOk, FrontierOk, Relaxed, AllRelaxed;
    GainTree(v, HopsOf(v, edges), root, s, rank, t, d, u);
    GainNodes(v, root, s, t, d, u);
    GainRank(v, root, s, rank, t, d, u);
    GainFrontier(v, s, rank, t, d, u);
    GainHeap(v, s, t, d, u);
    GainAllRelaxed(v, edges, s.nodes, t, s.nodes[t].(dist := d), rank.Keys - {u});
    GainRelaxed(v, edges, s.nodes, t, s.nodes[t].(dist := d), u, n);
  }

  lemma InnerRelaxesMore(v: set<Id>, edges: Edges, root: Id, s: Search, rank: Ranks, u: Id, n: nat)
    requires Inner(v, edges, root, s, rank, u, n) && n < |OutEdges(edges, u)|
    requires var e := OutEdges(edges, u)[n];
             e.dst in v ==> s.nodes[e.dst].dist < UINT32_MAX && s.nodes[e.dst].dist <= s.nodes[u].dist + e.metric
    ensures Inner(v, edges, root, s, rank, u, n + 1)
  {
    hide TreeOk, NodesOk, HeapOk, RankOk, FrontierOk, AllRelaxed, Relaxed;
    assert u in v && v <= s.nodes.Keys by { CoreKeys(v, edges, root, s, rank); }
    MoreRelaxed(v, edges, s.nodes, u, n);
  }

  lemma CoreKeys(v: set<Id>, edges: Edges, root: Id, s: Search, rank: Ranks)
    requires Core(v, edges, root, s, rank)
    ensures rank.Keys <= v <= s.nodes.Keys && v <= s.prevs.Keys
  {
  }

  lemma GainedNodes(s: Search, t: Id, d: uint32, u: Id)
    requires t in s.nodes && u in s.nodes && u != t
    ensures var r := Gained(s, t, d, u); t in r.nodes && r.nodes[t].dist == d && u in r.nodes && r.nodes[u] == s.nodes[u]
  {
  }

  lemma EdgeIsHop(v: set<Id>, edges: Edges, u: Id, n: nat)
    requires u in v && n < |OutEdges(edges, u)| && OutEdges(edges, u)[n].dst in v
    ensures var e := OutEdges(edges, u)[n]; Hop(u, e.metric, e.dst) in HopsOf(v, edges)
  {
  }

  lemma RelaxWithGain(v: set<Id>, edges: Edges, root: Id, s: Search, rank: Ranks, n: nat, node: Node)
    requires Input(v, edges, root) && Inner(v, edges, root, s, rank, node.id, n) && n < |OutEdges(edges, node.id)|
    requires node.dist == s.nodes[node.id].dist
    requires var e := OutEdges(edges, node.id)[n]; Lookup(s.nodes, e.dst).dist > node.dist + e.metric
    ensures Inner(v, edges, root, Relax(s, node, OutEdges(edges, node.id)[n]), rank, node.id, n + 1)
  {
    SumFits(v, edges, root, s, rank, node.id, n);
    InnerKeys(v, edges, root, s, rank, node.id, n);
    hide Inner, Input, HopsOf, Relax, Gained;
    var u, e := node.id, OutEdges(edges, node.id)[n];
    var t, d := e.dst, node.dist + e.metric;
    GainIsFrontier(v, edges, root, s, rank, u, n, t, d);
    RelaxCases(s, node, e);
    EdgeIsHop(v, edges, u, n);
    GainInner(v, edges, root, s, rank, u, n, t, d);
    GainedNodes(s, t, d, u);
    InnerRelaxesMore(v, edges, root, Gained(s, t, d, u), rank, u, n);
    assert Relax(s, node, e) == Gained(s, t, d, u);
  }

  /** No improvement: at most a node outside `v` has been created. */
  lemma RelaxWithoutGain(v: set<Id>, edges: Edges, root: Id, s: Search, rank: Ranks, n: nat, node: Node)
    requires Input(v, edges, root) && Inner(v, edges, root, s, rank, node.id, n) && n < |OutEdges(edges, node.id)|
    requires node.dist == s.nodes[node.id].dist
    requires var e := OutEdges(edges, node.id)[n]; Lookup(s.nodes, e.dst).dist <= node.dist + e.metric
    ensures Inner(v, edges, root, Relax(s, node, OutEdges(edges, node.id)[n]), rank, node.id, n + 1)
  {
    SumFits(v, edges, root, s, rank, node.id, n);
    InnerKeys(v, edges, root, s, rank, node.id, n);
    hide Inner, Input;
    var u, e := node.id, OutEdges(edges, node.id)[n];
    InnerRelaxesMore(v, edges, root, s, rank, u, n);
    RelaxCases(s, node, e);
    if e.dst !in s.nodes {
      CreatedInner(v, edges, root, s, rank, u, n + 1, e.dst);
    }
  }

  /** The invariant depends on the nodes outside `v` only through their distance 0. */
  lemma CreatedInner(v: set<Id>, edges: Edges, root: Id, s: Search, rank: Ranks, u: Id, n: nat, k: Id)
    requires Inner(v, edges, root, s, rank, u, n) && k !in s.nodes
    ensures Inner(v, edges, root, s.(nodes := s.nodes[k := Node(0, 0, 0)]), rank, u, n)
  {
    CoreKeys(v, edges, root, s, rank);
    var nodes := s.nodes[k := Node(0, 0, 0)];
    assert forall w | w in v :: nodes[w] == s.nodes[w];
    hide HopsOf, TreeOk, NodesOk, HeapOk, RankOk, FrontierOk, Relaxed;
    CreatedTree(v, HopsOf(v, edges), root, s.nodes, nodes, s.prevs, rank);
    CreatedOthers(v, root, s, k, rank);
    forall w | w in v
      ensures forall m :: Relaxed(v, edges, s.nodes, w, m) ==> Relaxed(v, edges, nodes, w, m)
    {
      forall m
        ensures Relaxed(v, edges, s.nodes, w, m) ==> Relaxed(v, edges, nodes, w, m)
      {
        CreatedRelaxed(v, edges, s.nodes, nodes, w, m);
      }
    }
  }

  lemma CreatedTree(v: set<Id>, g: iset<Hop<Id>>, root: Id, nodes: Nodes, more: Nodes, prevs: map<Id, Id>, rank: Ranks)
    requires rank.Keys <= v <= nodes.Keys && v <= prevs.Keys && v <= more.Keys
    requires TreeOk(v, g, root, nodes, prevs, rank) && forall w | w in v :: more[w] == nodes[w]
    ensures TreeOk(v, g, root, more, prevs, rank)
  {
    forall w | w in v && w != root
      ensures Placed(v, g, more, prevs, rank, w)
    {
      assert Placed(v, g, nodes, prevs, rank, w);
    }
  }

  lemma CreatedRelaxed(v: set<Id>, edges: Edges, nodes: Nodes, more: Nodes, u: Id, n: nat)
    requires v <= nodes.Keys && v <= more.Keys && u in v && forall w | w in v :: more[w] == nodes[w]
    ensures Relaxed(v, edges, nodes, u, n) ==> Relaxed(v, edges, more, u, n)
  {
  }

  lemma CreatedOthers(v: set<Id>, root: Id, s: Search, k: Id, rank: Ranks)
    requires NodesOk(v, root, s) && RankOk(v, root, s, rank) && FrontierOk(v, s, rank) && HeapOk(v, s) && k !in s.nodes
    ensures var r := s.(nodes := s.nodes[k := Node(0, 0, 0)]);
            NodesOk(v, root, r) && RankOk(v, root, r, rank) && FrontierOk(v, r, rank) && HeapOk(v, r)
  {
    var r := s.(nodes := s.nodes[k := Node(0, 0, 0)]);
    forall w | w in v
      ensures Copy(r.nodes, w) == Copy(s.nodes, w)
    {
    }
  }

  lemma RelaxKeeps(v: set<Id>, edges: Edges, root: Id, s: Search, rank: Ranks, n: nat, node: Node)
    requires Input(v, edges, root) && Inner(v, edges, root, s, rank, node.id, n) && n < |OutEdges(edges, node.id)|
    requires node.dist == s.nodes[node.id].dist
    ensures Inner(v, edges, root, Relax(s, node, OutEdges(edges, node.id)[n]), rank, node.id, n + 1)
    ensures node.dist + OutEdges(edges, node.id)[n].metric < TWO_32
  {
    SumFits(v, edges, root, s, rank, node.id, n);
    hide Inner, Input;
    var e := OutEdges(edges, node.id)[n];
    if Lookup(s.nodes, e.dst).dist > node.dist + e.metric {
      RelaxWithGain(v, edges, root, s, rank, n, node);
    } else {
      RelaxWithoutGain(v, edges, root, s, rank, n, node);
    }
  }

  // ----- Taking a node from the heap

  predicate IsLeast(heap: multiset<Node>, node: Node) {
    node in heap && forall m {:trigger heap[m]} | m in heap :: node.dist <= m.dist
  }

  function Popped(s: Search, node: Node): Search {
    s.(heap := s.heap - multiset{node})
  }

  /** A copy of a node that is already settled is dropped. */
  lemma DropStale(v: set<Id>, edges: Edges, root: Id, s: Search, rank: Ranks, node: Node)
    requires Outer(v, edges, root, s, rank) && node in s.heap && node.id in rank
    ensures Outer(v, edges, root, Popped(s, node), rank)
  {
    CoreKeys(v, edges, root, s, rank);
    hide TreeOk, NodesOk, HeapOk, RankOk, FrontierOk, AllRelaxed, HopsOf;
    PoppedOthers(v, root, s, rank, node);
    SameRank(v, root, s, Popped(s, node), rank);
    DropFrontier(v, s, rank, node);
  }

  lemma DropFrontier(v: set<Id>, s: Search, rank: Ranks, node: Node)
    requires rank.Keys <= v <= s.nodes.Keys && FrontierOk(v, s, rank) && node.id in rank
    ensures FrontierOk(v, Popped(s, node), rank)
  {
    forall u | u in v && u !in rank && s.nodes[u].dist < UINT32_MAX
      ensures Copy(Popped(s, node).nodes, u) in Popped(s, node).heap
    {
      assert Copy(s.nodes, u) in s.heap && Copy(s.nodes, u) != node;
    }
  }

  lemma SettleTree(v: set<Id>, g: iset<Hop<Id>>, root: Id, nodes: Nodes, prevs: map<Id, Id>, rank: Ranks, u: Id)
    requires rank.Keys <= v <= nodes.Keys && v <= prevs.Keys && u in v && u !in rank
    requires TreeOk(v, g, root, nodes, prevs, rank) && forall w | w in rank :: rank[w] < |rank|
    ensures TreeOk(v, g, root, nodes, prevs, rank[u := |rank|])
  {
    forall w | w in v && w != root
      ensures Placed(v, g, nodes, prevs, rank[u := |rank|], w)
    {
      assert Placed(v, g, nodes, prevs, rank, w);
    }
  }

  lemma SettleIsCurrent(v: set<Id>, root: Id, s: Search, rank: Ranks, node: Node)
    requires NodesOk(v, root, s) && rank.Keys <= v && FrontierOk(v, s, rank) && HeapOk(v, s)
    requires IsLeast(s.heap, node) && node.id !in rank
    ensures node == s.nodes[node.id] && node.dist < UINT32_MAX && node.id in v
    ensures forall w | w in rank :: s.nodes[w].dist <= node.dist
    ensures forall w | w in v && w !in rank :: node.dist <= s.nodes[w].dist
    ensures node.dist <= 65535 * |rank|
  {
    assert Copy(s.nodes, node.id) in s.heap;
    forall w | w in v && w !in rank && s.nodes[w].dist < UINT32_MAX
      ensures node.dist <= s.nodes[w].dist
    {
      assert Copy(s.nodes, w) in s.heap;
    }
  }

  lemma SettleRank(v: set<Id>, root: Id, s: Search, rank: Ranks, u: Id)
    requires v <= s.nodes.Keys && RankOk(v, root, s, rank) && u in v && u !in rank && (rank == map[] ==> u == root)
    requires s.nodes[u].dist <= 65535 * |rank| && s.nodes[u].dist < UINT32_MAX
    ensures RankOk(v, root, s, rank[u := |rank|]) && |rank[u := |rank|]| == |rank| + 1
  {
  }

  lemma SettleFrontier(v: set<Id>, s: Search, rank: Ranks, node: Node)
    requires rank.Keys <= v <= s.nodes.Keys && FrontierOk(v, s, rank) && forall w | w in v :: s.nodes[w].id == w
    requires node.id in v && node.id !in rank && node == s.nodes[node.id]
    requires forall w | w in v && w !in rank :: node.dist <= s.nodes[w].dist
    ensures FrontierOk(v, Popped(s, node), rank[node.id := |rank|])
  {
    var after, more := Popped(s, node), rank[node.id := |rank|];
    assert |more| == |rank| + 1;
    forall u | u in v && u !in more && s.nodes[u].dist < UINT32_MAX
      ensures Copy(after.nodes, u) in after.heap
    {
      assert Copy(s.nodes, u) in s.heap && Copy(s.nodes, u) != node;
    }
  }

  /** A least node that is not settled is no stale copy, and may be settled. */
  lemma Settle(v: set<Id>, edges: Edges, root: Id, s: Search, rank: Ranks, node: Node)
    requires Outer(v, edges, root, s, rank) && IsLeast(s.heap, node) && node.id !in rank
    requires rank == map[] ==> node.id == root
    ensures node.dist == s.nodes[node.id].dist
    ensures Inner(v, edges, root, Popped(s, node), rank[node.id := |rank|], node.id, 0)
  {
    var u, more, after := node.id, rank[node.id := |rank|], Popped(s, node);
    CoreKeys(v, edges, root, s, rank);
    assert after.nodes == s.nodes && after.prevs == s.prevs;
    hide TreeOk, NodesOk, HeapOk, RankOk, FrontierOk, AllRelaxed, HopsOf, Popped, IsLeast;
    PoppedOthers(v, root, s, rank, node);
    SettleIsCurrent(v, root, s, rank, node);
    SettleRank(v, root, s, rank, u);
    SettleFrontier(v, s, rank, node);
    SettleTree(v, HopsOf(v, edges), root, s.nodes, s.prevs, rank, u);
    SameRank(v, root, s, after, more);
    KeysWithout(rank, u, |rank|);
  }

  lemma PoppedOthers(v: set<Id>, root: Id, s: Search, rank: Ranks, node: Node)
    requires NodesOk(v, root, s) && HeapOk(v, s) && RankOk(v, root, s, rank)
    ensures NodesOk(v, root, Popped(s, node)) && HeapOk(v, Popped(s, node))
    ensures forall w | w in rank :: rank[w] < |rank|
    ensures forall w | w in v :: s.nodes[w].id == w
  {
  }

  lemma KeysWithout(rank: Ranks, u: Id, n: nat)
    requires u !in rank
    ensures rank[u := n].Keys - {u} == rank.Keys
  {
  }

  lemma SameRank(v: set<Id>, root: Id, s: Search, after: Search, rank: Ranks)
    requires v <= s.nodes.Keys && RankOk(v, root, s, rank) && after.nodes == s.nodes
    ensures RankOk(v, root, after, rank)
  {
  }

  // ----- At the end, when the heap is empty

  /** Every recorded node has its distance from the root, or the maximum exactly if no walk reaches it. */
  ghost predicate ShortestPaths(v: set<Id>, g: iset<Hop<Id>>, root: Id, nodes: Nodes) {
    && v <= nodes.Keys
    && forall u | u in v ::
         if nodes[u].dist == UINT32_MAX then !Connects(g, root, u) else IsDistance(g, root, u, nodes[u].dist)
  }

  /** The predecessors form a tree, with ranks that fall towards the root: its nodes are exactly those reached. */
  ghost predicate Tree(v: set<Id>, g: iset<Hop<Id>>, root: Id, nodes: Nodes, prevs: map<Id, Id>, rank: Ranks) {
    && rank.Keys <= v <= nodes.Keys && v <= prevs.Keys && root in rank && nodes[root].dist == 0 && prevs[root] == 0
    && (forall u | u in v :: u in rank <==> nodes[u].dist < UINT32_MAX)
    && (forall u | u in rank :: rank[u] < |rank|)
    && TreeOk(v, g, root, nodes, prevs, rank)
  }

  /** The walk along the predecessors costs the distance. */
  lemma {:induction false} TreeWalk(v: set<Id>, g: iset<Hop<Id>>, root: Id, nodes: Nodes, prevs: map<Id, Id>, rank: Ranks, u: Id)
    returns (w: Walk<Id>)
    requires Tree(v, g, root, nodes, prevs, rank) && u in rank
    ensures IsWalk(g, root, u, w) && Cost(w) == nodes[u].dist
    decreases rank[u]
  {
    if u == root {
      w := Here;
    } else {
      assert Placed(v, g, nodes, prevs, rank, u);
      var p := prevs[u];
      var init := TreeWalk(v, g, root, nodes, prevs, rank, p);
      w := Then(init, p, nodes[u].dist - nodes[p].dist);
    }
  }

  /** No walk is cheaper than the distance of its end, since every edge on it is relaxed. */
  lemma {:induction false} NoCheaperWalk(v: set<Id>, edges: Edges, root: Id, nodes: Nodes, u: Id, w: Walk<Id>)
    requires v <= nodes.Keys && root in v && nodes[root].dist == 0 && u in v
    requires forall x | x in v && nodes[x].dist < UINT32_MAX :: Relaxed(v, edges, nodes, x, |OutEdges(edges, x)|)
    requires IsWalk(HopsOf(v, edges), root, u, w)
    ensures nodes[u].dist < UINT32_MAX && nodes[u].dist <= Cost(w)
    decreases w
  {
    match w
    case Here =>
    case Then(init, x, c) =>
      NoCheaperWalk(v, edges, root, nodes, x, init);
      var e := Edge(u, c);
      var i :| 0 <= i < |OutEdges(edges, x)| && OutEdges(edges, x)[i] == e;
      assert Relaxed(v, edges, nodes, x, |OutEdges(edges, x)|);
  }

  lemma SettledTree(v: set<Id>, edges: Edges, root: Id, s: Search, rank: Ranks)
    requires Outer(v, edges, root, s, rank) && s.heap == multiset{}
    ensures Tree(v, HopsOf(v, edges), root, s.nodes, s.prevs, rank)
    ensures forall u | u in v && s.nodes[u].dist < UINT32_MAX :: Relaxed(v, edges, s.nodes, u, |OutEdges(edges, u)|)
  {
    hide HopsOf, Relaxed;
    forall u | u in v
      ensures u in rank <==> s.nodes[u].dist < UINT32_MAX
    {
      assert Copy(s.nodes, u) !in s.heap;
    }
  }

  lemma SettledIsShortest(v: set<Id>, edges: Edges, root: Id, s: Search, rank: Ranks)
    requires Outer(v, edges, root, s, rank) && s.heap == multiset{}
    ensures ShortestPaths(v, HopsOf(v, edges), root, s.nodes)
    ensures Tree(v, HopsOf(v, edges), root, s.nodes, s.prevs, rank)
  {
    SettledTree(v, edges, root, s, rank);
    assert root in v && v <= s.nodes.Keys && s.nodes[root].dist == 0;
    hide HopsOf, Outer, TreeOk, Relaxed;
    var g := HopsOf(v, edges);
    forall u | u in v
      ensures if s.nodes[u].dist == UINT32_MAX then !Connects(g, root, u) else IsDistance(g, root, u, s.nodes[u].dist)
    {
      forall w | IsWalk(g, root, u, w)
        ensures s.nodes[u].dist < UINT32_MAX && s.nodes[u].dist <= Cost(w)
      {
        NoCheaperWalk(v, edges, root, s.nodes, u, w);
      }
      if s.nodes[u].dist < UINT32_MAX {
        var w := TreeWalk(v, g, root, s.nodes, s.prevs, rank, u);
      }
    }
  }

  /** The state before the first round: nothing reached but the root, which alone is in the heap. */
  lemma StartIsOuter(v: set<Id>, edges: Edges, root: Id, s: Search)
    requires root in v && v == s.nodes.Keys && v <= s.prevs.Keys
    requires forall u | u in v :: s.nodes[u].id == u && s.prevs[u] == 0
    requires forall u | u in v && u != root :: s.nodes[u].dist == UINT32_MAX
    requires s.nodes[root].dist == 0 && s.heap == multiset{s.nodes[root]}
    ensures Outer(v, edges, root, s, map[])
  {
    hide HopsOf;
    var g := HopsOf(v, edges);
    forall u | u in v && u != root
      ensures Placed(v, g, s.nodes, s.prevs, map[], u)
    {
    }
    assert s.nodes[root] == Copy(s.nodes, root);
  }
}
