/**
 What `update_route` computes (src/route.cpp; RFC 2328, sections 16.1, 16.1.1 and 16.2): the graph of the database, the
 shortest path tree on it, the summaries spliced in, and the next hop read off the predecessors.
 */
module RouteSpec {
  import opened Words
  import opened Lsas
  import Lsdbs
  import opened Graphs
  import opened Dijkstra
  import opened Topology

  type Db = Lsdbs.Db

  /** Where to send what is meant for a network: nowhere, straight onto it, or to a neighboring router. */
  datatype NextHop = Unreachable | Direct | Via(router: Id)

  datatype Entry = Entry(dst: Id, mask: uint32, nextHop: NextHop, metric: uint32)

  // ----- Preconditions

  ghost predicate RouterName(db: Db, u: Id) {
    || IsRouter(db.routers, u)
    || (exists w, l :: HasLink(db.routers, w, l) && l.linkType == POINT2POINT && l.linkId == u)
    || (exists i :: 0 <= i < |db.networks| && db.networks[i].NetworkLsa? && u in db.networks[i].attachedRouters)
    || (exists i :: 0 <= i < |db.summaries| && db.summaries[i].header.advertisingRouter == u)
  }

  ghost predicate NetworkName(db: Db, u: Id) {
    || IsStub(db.routers, u) || IsNetwork(db.networks, u)
    || (exists i :: 0 <= i < |db.summaries| && db.summaries[i].header.linkStateId == u)
  }

  /** The root has a node, router ids and network ids are disjoint, no node has id 0, and there are not too many. */
  ghost predicate WellPosed(db: Db, root: Id) {
    && IsRouter(db.routers, root) && |GraphNodes(db)| <= MAX_NODES
    && 0 !in GraphNodes(db) && !RouterName(db, 0)
    && forall u :: RouterName(db, u) ==> !NetworkName(db, u)
  }

  // ----- The graph in the tables

  /** The edge lists hold exactly the hops. */
  ghost predicate HoldsHops(edges: Edges, hops: seq<Hop<Id>>) {
    && (forall u, e :: e in OutEdges(edges, u) ==> Hop(u, e.metric, e.dst) in hops)
    && (forall h | h in hops :: h.cost <= MAX_METRIC && Edge(h.dst, h.cost) in OutEdges(edges, h.src))
  }

  function PushEdge(edges: Edges, u: Id, e: Edge): Edges {
    edges[u := OutEdges(edges, u) + [e]]
  }

  lemma PushMatches(edges: Edges, hops: seq<Hop<Id>>, u: Id, e: Edge)
    requires HoldsHops(edges, hops) && e.metric <= MAX_METRIC
    ensures HoldsHops(PushEdge(edges, u, e), hops + [Hop(u, e.metric, e.dst)])
  {
    var more, after := PushEdge(edges, u, e), hops + [Hop(u, e.metric, e.dst)];
    forall w, f | f in OutEdges(more, w)
      ensures Hop(w, f.metric, f.dst) in after
    {
      assert (w == u && f == e) || f in OutEdges(edges, w);
      assert f in OutEdges(edges, w) ==> Hop(w, f.metric, f.dst) in hops;
    }
    forall h | h in after
      ensures h.cost <= MAX_METRIC && Edge(h.dst, h.cost) in OutEdges(more, h.src)
    {
      if h in hops {
        assert Edge(h.dst, h.cost) in OutEdges(edges, h.src);
      }
    }
  }

  lemma LinksStep(src: Id, links: seq<Link>, i: nat, nets: seq<Lsa>, hops: seq<Hop<Id>>, nodes: Nodes)
    requires i < |links|
    ensures hops + LinksHops(src, links[..i + 1], nets)
            == hops + LinksHops(src, links[..i], nets) + LinkHops(src, links[i], nets)
    ensures LinkNodes(nodes, links[..i + 1])
            == (var before := LinkNodes(nodes, links[..i]);
                if links[i].linkType == STUB
                then before[links[i].linkId := Node(links[i].linkId, links[i].linkData, UINT32_MAX)] else before)
  {
    assert links[..i + 1][..i] == links[..i];
  }

  lemma NetworksStep(nets: seq<Lsa>, i: nat, hops: seq<Hop<Id>>, nodes: Nodes)
    requires i < |nets|
    ensures hops + NetworkHops(nets[..i + 1])
            == hops + NetworkHops(nets[..i])
               + (match nets[i] case NetworkLsa(_, _, routers) => IntoHops(NetworkId(nets[i]), routers) case _ => [])
    ensures NetworkNodes(nodes, nets[..i + 1])
            == (var before := NetworkNodes(nodes, nets[..i]);
                match nets[i]
                case NetworkLsa(_, mask, _) => before[NetworkId(nets[i]) := Node(NetworkId(nets[i]), mask, UINT32_MAX)]
                case _ => before)
  {
    assert nets[..i + 1][..i] == nets[..i];
  }

  /** The graph of the calculation: the edges of the code between recorded nodes. */
  ghost function RouteGraph(db: Db): iset<Hop<Id>> {
    iset h: Hop<Id> | h.src in GraphNodes(db) && h.dst in GraphNodes(db) && CodeEdge(db, h.src, h.cost, h.dst)
  }

  lemma HopsAreRouteGraph(db: Db, edges: Edges)
    requires HoldsHops(edges, GraphHops(db))
    ensures HopsOf(GraphNodes(db).Keys, edges) == RouteGraph(db)
  {
    forall h: Hop<Id>
      ensures h in HopsOf(GraphNodes(db).Keys, edges) <==> h in RouteGraph(db)
    {
      GraphHopsAre(db, h);
      if h.cost < TWO_32 && Edge(h.dst, h.cost) in OutEdges(edges, h.src) {
        assert Hop(h.src, h.cost, h.dst) in GraphHops(db);
      }
    }
  }

  // ----- What the calculation gives

  /** The result of the shortest path calculation at router `root`. */
  datatype Spf = Spf(nodes: Nodes, prevs: map<Id, Id>, rank: Ranks)

  ghost predicate SpfOk(db: Db, root: Id, t: Spf) {
    && 0 !in GraphNodes(db)
    && ShortestPaths(GraphNodes(db).Keys, RouteGraph(db), root, t.nodes)
    && Tree(GraphNodes(db).Keys, RouteGraph(db), root, t.nodes, t.prevs, t.rank)
    && (forall u | u in GraphNodes(db) :: t.nodes[u].id == u && t.nodes[u].mask == GraphNodes(db)[u].mask)
    && (forall u | u in t.nodes && u !in GraphNodes(db) :: t.nodes[u] == Node(0, 0, 0))
    && t.prevs.Keys == GraphNodes(db).Keys
  }

  // ----- Splicing in the summaries

  function Splice(nodes: Nodes, prevs: map<Id, Id>, root: Id, lsa: Lsa): (Nodes, map<Id, Id>) {
    var abr := lsa.header.advertisingRouter;
    match lsa
    case SummaryLsa(h, mask, _, _) =>
      if abr == root || abr !in nodes || nodes[abr].dist == UINT32_MAX then (nodes, prevs)
      else
        var id := nodes[abr].id;
        var found := Lookup(nodes, id);
        (nodes[id := found][h.linkStateId := Node(h.linkStateId, mask, found.dist)], prevs[h.linkStateId := id])
    case _ => (nodes, prevs)
  }

  function SpliceAll(nodes: Nodes, prevs: map<Id, Id>, root: Id, summaries: seq<Lsa>): (Nodes, map<Id, Id>) {
    if summaries == [] then (nodes, prevs)
    else
      var (n, p) := SpliceAll(nodes, prevs, root, summaries[..|summaries| - 1]);
      Splice(n, p, root, summaries[|summaries| - 1])
  }

  // ----- Walking back to the root

  function Prev(prevs: map<Id, Id>, u: Id): Id {
    if u in prevs then prevs[u] else 0
  }

  /** Ranks fall along the predecessors until the root, or the 0 of an unreached node. */
  ghost predicate Grounded(prevs: map<Id, Id>, root: Id, rank: Ranks) {
    forall u {:trigger Prev(prevs, u)} :: Prev(prevs, u) != root && Prev(prevs, u) != 0 ==>
      u in rank && Prev(prevs, u) in rank && rank[Prev(prevs, u)] < rank[u]
  }

  /** The last node before the root on the way back from `u`. */
  ghost function Top(prevs: map<Id, Id>, root: Id, rank: Ranks, u: Id): NextHop
    requires Grounded(prevs, root, rank)
    decreases if u in rank then rank[u] + 1 else 0
  {
    var p := Prev(prevs, u);
    if p == root then Via(u) else if p == 0 then Unreachable else Top(prevs, root, rank, p)
  }

  ghost function HopTo(prevs: map<Id, Id>, root: Id, rank: Ranks, dst: Id): NextHop
    requires Grounded(prevs, root, rank)
  {
    if Prev(prevs, dst) == root then Direct else Top(prevs, root, rank, dst)
  }

  // ----- Facts for the shortest path method

  /** The calculation changes distances and nothing else of the nodes it was given, and adds only empty nodes. */
  ghost predicate Untouched(before: Nodes, s: Search) {
    && before.Keys <= s.nodes.Keys && s.prevs.Keys == before.Keys
    && (forall u | u in before :: s.nodes[u].id == before[u].id && s.nodes[u].mask == before[u].mask)
    && (forall u | u in s.nodes && u !in before :: s.nodes[u] == Node(0, 0, 0))
  }

  lemma {:induction false} LeastExists(heap: multiset<Node>)
    requires heap != multiset{}
    ensures exists node :: IsLeast(heap, node)
    decreases |heap|
  {
    var n :| n in heap;
    var rest := heap - multiset{n};
    if rest == multiset{} {
      assert heap == multiset{n};
      assert IsLeast(heap, n);
    } else {
      LeastExists(rest);
      var m :| IsLeast(rest, m);
      assert heap == rest + multiset{n};
      assert IsLeast(heap, if n.dist <= m.dist then n else m);
    }
  }

  lemma FirstIsRoot(v: set<Id>, edges: Edges, root: Id, s: Search, node: Node)
    requires Core(v, edges, root, s, map[]) && node in s.heap
    ensures node.id == root
  {
    hide HopsOf;
    assert node.id != root ==> Placed(v, HopsOf(v, edges), s.nodes, s.prevs, map[], node.id);
  }

  lemma SettleNext(v: set<Id>, edges: Edges, root: Id, s: Search, rank: Ranks, node: Node)
    requires Outer(v, edges, root, s, rank) && IsLeast(s.heap, node) && node.id !in rank
    ensures node.id in v && node.id in s.nodes && node.dist == s.nodes[node.id].dist
    ensures Inner(v, edges, root, Popped(s, node), rank[node.id := |rank|], node.id, 0)
  {
    if rank == map[] {
      FirstIsRoot(v, edges, root, s, node);
    }
    HeapIsRecorded(v, edges, root, s, rank, node);
    Settle(v, edges, root, s, rank, node);
  }

  lemma HeapIsRecorded(v: set<Id>, edges: Edges, root: Id, s: Search, rank: Ranks, node: Node)
    requires Core(v, edges, root, s, rank) && node in s.heap
    ensures node.id in v && node.id in s.nodes
  {
    hide TreeOk, FrontierOk, RankOk;
  }

  lemma InnerDone(v: set<Id>, edges: Edges, root: Id, s: Search, rank: Ranks, u: Id)
    requires Inner(v, edges, root, s, rank, u, |OutEdges(edges, u)|)
    ensures Outer(v, edges, root, s, rank)
  {
    hide TreeOk, FrontierOk, RankOk, HeapOk, NodesOk, Relaxed;
    CoreKeys(v, edges, root, s, rank);
  }

  lemma RelaxLeaves(v: set<Id>, edges: Edges, root: Id, before: Nodes, s: Search, rank: Ranks, n: nat, node: Node)
    requires Input(v, edges, root) && Inner(v, edges, root, s, rank, node.id, n) && n < |OutEdges(edges, node.id)|
    requires v == before.Keys && node.id in s.nodes && node.dist == s.nodes[node.id].dist && Untouched(before, s)
    ensures var r := Relax(s, node, OutEdges(edges, node.id)[n]);
            Untouched(before, r) && node.id in r.nodes && r.nodes[node.id].dist == node.dist
  {
    SumFits(v, edges, root, s, rank, node.id, n);
    InnerKeys(v, edges, root, s, rank, node.id, n);
    hide Inner, Input, HopsOf, Relax;
    var e := OutEdges(edges, node.id)[n];
    RelaxCases(s, node, e);
    if Dijkstra.Lookup(s.nodes, e.dst).dist > node.dist + e.metric {
      GainIsFrontier(v, edges, root, s, rank, node.id, n, e.dst, node.dist + e.metric);
    }
  }

  /** The variables after the initialisation. */
  lemma StartKeeps(before: Nodes, edges: Edges, root: Id, prevs: map<Id, Id>)
    requires NewNodes(before) && Input(before.Keys, edges, root)
    requires prevs.Keys == before.Keys && forall u | u in before :: prevs[u] == 0
    ensures root in before
    ensures var nodes := before[root := before[root].(dist := 0)];
            var s := Search(nodes, prevs, multiset{nodes[root]});
            Outer(before.Keys, edges, root, s, map[]) && Untouched(before, s)
  {
    hide HopsOf, Outer;
    var nodes := before[root := before[root].(dist := 0)];
    StartIsOuter(before.Keys, edges, root, Search(nodes, prevs, multiset{nodes[root]}));
  }

  /** The visit marks are set for exactly the settled nodes. */
  ghost predicate Marks(vis: map<Id, bool>, rank: Ranks) {
    forall u :: u in rank <==> u in vis && vis[u]
  }

  lemma MarkSettled(vis: map<Id, bool>, rank: Ranks, u: Id)
    requires Marks(vis, rank) && !(u in vis && vis[u])
    ensures Marks(vis[u := true], rank[u := |rank|]) && |rank[u := |rank|]| == |rank| + 1
  {
  }

  lemma PoppedIs(s: Search, node: Node, before: Nodes)
    ensures Popped(s, node) == Search(s.nodes, s.prevs, s.heap - multiset{node})
    ensures Untouched(before, s) ==> Untouched(before, Popped(s, node))
  {
  }

  lemma SameSearch(s: Search, r: Search)
    requires s.nodes == r.nodes && s.prevs == r.prevs && s.heap == r.heap
    ensures s == r
  {
  }
}
