/** Why the predecessor walks end, what they find, and what splicing in the summaries changes. */
module RouteProof {
  import opened Words
  import opened Lsas
  import opened Graphs
  import opened Dijkstra
  import opened Topology
  import opened RouteSpec

  // ----- The tree of the calculation

  lemma TreePrev(db: Db, root: Id, t: Spf, u: Id)
    requires SpfOk(db, root, t)
    ensures Prev(t.prevs, u) != 0 ==>
              && u in t.nodes && Prev(t.prevs, u) in t.nodes && u in t.rank && Prev(t.prevs, u) in t.rank && t.rank[Prev(t.prevs, u)] < t.rank[u] < |t.rank|
              && t.nodes[Prev(t.prevs, u)].dist <= t.nodes[u].dist
              && Hop(Prev(t.prevs, u), t.nodes[u].dist - t.nodes[Prev(t.prevs, u)].dist, u) in RouteGraph(db)
    ensures u in t.rank && u != root ==> Prev(t.prevs, u) != 0
  {
    hide RouteGraph, GraphNodes, ShortestPaths;
    var v := GraphNodes(db).Keys;
    if u in v {
      assert u != root ==> Placed(v, RouteGraph(db), t.nodes, t.prevs, t.rank, u);
    }
  }

  lemma TreeGrounded(db: Db, root: Id, t: Spf)
    requires SpfOk(db, root, t)
    ensures Grounded(t.prevs, root, t.rank)
  {
    hide SpfOk, RouteGraph;
    forall u | Prev(t.prevs, u) != root && Prev(t.prevs, u) != 0
      ensures u in t.rank && Prev(t.prevs, u) in t.rank && t.rank[Prev(t.prevs, u)] < t.rank[u]
    {
      TreePrev(db, root, t, u);
    }
  }

  /**
   The walk back from a reached node ends at the root, and the router it stops at is the first on a shortest path:
   an edge leads from the root to it, and a walk from there on costs what remains of the distance.
   */
  lemma {:induction false} TopIsFirstHop(db: Db, root: Id, t: Spf, u: Id) returns (h: Id, rest: Walk<Id>)
    requires SpfOk(db, root, t) && Grounded(t.prevs, root, t.rank) && u in t.rank && u != root && root != 0
    ensures Top(t.prevs, root, t.rank, u) == Via(h) && Prev(t.prevs, h) == root && h in t.rank
    ensures t.nodes[root].dist == 0 && Hop(root, t.nodes[h].dist, h) in RouteGraph(db)
    ensures IsWalk(RouteGraph(db), h, u, rest) && t.nodes[h].dist + Cost(rest) == t.nodes[u].dist
    ensures rest == Here <==> Prev(t.prevs, u) == root
    decreases t.rank[u]
  {
    hide RouteGraph, ShortestPaths, Grounded;
    TreePrev(db, root, t, u);
    var p := Prev(t.prevs, u);
    if p == root {
      h, rest := u, Here;
    } else {
      var init;
      h, init := TopIsFirstHop(db, root, t, p);
      rest := Then(init, p, t.nodes[u].dist - t.nodes[p].dist);
    }
  }

  /** An unreached node's predecessor is 0, so that exactly the unreached nodes get no next hop. */
  lemma UnreachableExactly(db: Db, root: Id, t: Spf, u: Id)
    requires SpfOk(db, root, t) && Grounded(t.prevs, root, t.rank) && u in GraphNodes(db) && u != root && root != 0
    ensures HopTo(t.prevs, root, t.rank, u) == Unreachable <==> !Connects(RouteGraph(db), root, u)
    ensures HopTo(t.prevs, root, t.rank, u) == Unreachable <==> t.nodes[u].dist == UINT32_MAX
  {
    hide RouteGraph, Grounded;
    TreePrev(db, root, t, u);
    if u in t.rank {
      var h, rest := TopIsFirstHop(db, root, t, u);
    }
  }

  // ----- Sources of edges are routers

  lemma SourceIsRouter(db: Db, h: Hop<Id>)
    requires h in RouteGraph(db)
    ensures RouterName(db, h.src)
  {
    if l :| HasLink(db.routers, h.src, l) && LinkGives(l, db.networks, h.src, h.cost, h.dst) {
      LinkOwner(db.routers, h.src, l);
    } else {
      assert Enters(db.networks, h.src, h.dst);
    }
  }

  lemma LinkOwner(routers: seq<Lsa>, u: Id, l: Link)
    requires HasLink(routers, u, l)
    ensures IsRouter(routers, u)
  {
  }

  lemma PrevIsRouter(db: Db, root: Id, t: Spf, u: Id)
    requires SpfOk(db, root, t) && Prev(t.prevs, u) != 0
    ensures RouterName(db, Prev(t.prevs, u))
  {
    hide SpfOk, RouteGraph, RouterName;
    TreePrev(db, root, t, u);
    SourceIsRouter(db, Hop(Prev(t.prevs, u), t.nodes[u].dist - t.nodes[Prev(t.prevs, u)].dist, u));
  }

  // ----- Splicing

  /** The prefixes of the summaries. */
  predicate IsPrefix(summaries: seq<Lsa>, u: Id) {
    exists i | 0 <= i < |summaries| :: summaries[i].header.linkStateId == u
  }

  lemma PrefixIsNetwork(db: Db, u: Id)
    requires IsPrefix(db.summaries, u)
    ensures NetworkName(db, u)
  {
  }

  /** A spliced prefix comes after everything in the tree. */
  function SplicedRank(rank: Ranks, summaries: seq<Lsa>): Ranks {
    var prefixes := set i | 0 <= i < |summaries| :: summaries[i].header.linkStateId as Id;
    map u | u in rank.Keys + prefixes :: if u in prefixes then |rank| else rank[u]
  }

  lemma SplicedRankIs(rank: Ranks, summaries: seq<Lsa>, u: Id)
    ensures u in SplicedRank(rank, summaries) <==> u in rank || IsPrefix(summaries, u)
    ensures IsPrefix(summaries, u) ==> SplicedRank(rank, summaries)[u] == |rank|
    ensures u in rank && !IsPrefix(summaries, u) ==> SplicedRank(rank, summaries)[u] == rank[u]
  {
  }

  /** What holds of the tables while summaries are spliced in. */
  ghost predicate Spliced(db: Db, root: Id, t: Spf, nodes: Nodes, prevs: map<Id, Id>) {
    && (forall u {:trigger Prev(prevs, u)} :: !IsPrefix(db.summaries, u) ==> Prev(prevs, u) == Prev(t.prevs, u))
    && (forall u {:trigger Prev(prevs, u)} :: IsPrefix(db.summaries, u) && Prev(prevs, u) != 0 && Prev(prevs, u) != root ==>
          Prev(prevs, u) in t.rank && RouterName(db, Prev(prevs, u)))
    && (forall u | RouterName(db, u) :: (u in nodes <==> u in t.nodes) && (u in nodes ==> nodes[u] == t.nodes[u]))
  }

  lemma SpliceKeeps(db: Db, root: Id, t: Spf, nodes: Nodes, prevs: map<Id, Id>, i: nat)
    requires WellPosed(db, root) && SpfOk(db, root, t) && Spliced(db, root, t, nodes, prevs) && i < |db.summaries|
    ensures var (n, p) := Splice(nodes, prevs, root, db.summaries[i]); Spliced(db, root, t, n, p)
  {
    var lsa := db.summaries[i];
    var abr, prefix := lsa.header.advertisingRouter, lsa.header.linkStateId;
    assert IsPrefix(db.summaries, prefix) && RouterName(db, abr) && !RouterName(db, 0);
    PrefixIsNetwork(db, prefix);
    PrefixIsNoRouter(db, root, prefix);
    AbrIsReached(db, root, t, abr);
    hide WellPosed, SpfOk, RouterName, IsPrefix, NetworkName;
    if lsa.SummaryLsa? && abr != root && abr in nodes && nodes[abr].dist != UINT32_MAX {
      var id := nodes[abr].id;
      assert id == 0 || (id == abr && id in t.rank);
      SpliceOne(db, root, t, nodes, prevs, id, prefix, Node(prefix, lsa.networkMask, Dijkstra.Lookup(nodes, id).dist));
    }
  }

  lemma SpliceOne(db: Db, root: Id, t: Spf, nodes: Nodes, prevs: map<Id, Id>, id: Id, prefix: Id, node: Node)
    requires Spliced(db, root, t, nodes, prevs) && IsPrefix(db.summaries, prefix)
    requires (id == 0 && !RouterName(db, 0)) || (id in t.rank && RouterName(db, id) && id in nodes)
    requires !RouterName(db, prefix)
    ensures Spliced(db, root, t, nodes[id := Dijkstra.Lookup(nodes, id)][prefix := node], prevs[prefix := id])
  {
    hide RouterName, IsPrefix;
    var n, p := nodes[id := Dijkstra.Lookup(nodes, id)][prefix := node], prevs[prefix := id];
    forall u
      ensures u != prefix ==> Prev(p, u) == Prev(prevs, u)
      ensures Prev(p, prefix) == id
    {
    }
  }

  lemma PrefixIsNoRouter(db: Db, root: Id, prefix: Id)
    requires WellPosed(db, root) && NetworkName(db, prefix)
    ensures !RouterName(db, prefix)
  {
    hide RouterName, NetworkName;
  }

  /** An advertising router with a node is reached by the tree, or it is a node that the calculation created. */
  lemma AbrIsReached(db: Db, root: Id, t: Spf, abr: Id)
    requires SpfOk(db, root, t)
    ensures abr in t.nodes && t.nodes[abr].dist != UINT32_MAX ==>
              if abr in GraphNodes(db) then abr in t.rank && t.nodes[abr].id == abr else t.nodes[abr].id == 0
  {
    hide RouteGraph, ShortestPaths;
  }

  lemma {:induction false} SpliceAllKeeps(db: Db, root: Id, t: Spf, n: nat)
    requires WellPosed(db, root) && SpfOk(db, root, t) && n <= |db.summaries|
    ensures var (nodes, prevs) := SpliceAll(t.nodes, t.prevs, root, db.summaries[..n]); Spliced(db, root, t, nodes, prevs)
  {
    if n == 0 {
      SplicedAtStart(db, root, t);
    } else {
      SpliceAllKeeps(db, root, t, n - 1);
      assert db.summaries[..n][..n - 1] == db.summaries[..n - 1];
      var (nodes, prevs) := SpliceAll(t.nodes, t.prevs, root, db.summaries[..n - 1]);
      SpliceKeeps(db, root, t, nodes, prevs, n - 1);
    }
  }

  lemma SplicedAtStart(db: Db, root: Id, t: Spf)
    requires SpfOk(db, root, t)
    ensures Spliced(db, root, t, t.nodes, t.prevs)
  {
    hide SpfOk, RouteGraph, RouterName;
    forall u | Prev(t.prevs, u) != 0
      ensures Prev(t.prevs, u) in t.rank && RouterName(db, Prev(t.prevs, u))
    {
      TreePrev(db, root, t, u);
      PrevIsRouter(db, root, t, u);
    }
  }

  /** The tables after the splice: still grounded, so that every walk ends. */
  lemma SplicedGrounded(db: Db, root: Id, t: Spf, nodes: Nodes, prevs: map<Id, Id>)
    requires WellPosed(db, root) && SpfOk(db, root, t) && Spliced(db, root, t, nodes, prevs)
    ensures Grounded(prevs, root, SplicedRank(t.rank, db.summaries))
  {
    forall u | Prev(prevs, u) != root && Prev(prevs, u) != 0
      ensures var rank := SplicedRank(t.rank, db.summaries);
              u in rank && Prev(prevs, u) in rank && rank[Prev(prevs, u)] < rank[u]
    {
      SplicedStep(db, root, t, nodes, prevs, u);
    }
  }

  lemma SplicedStep(db: Db, root: Id, t: Spf, nodes: Nodes, prevs: map<Id, Id>, u: Id)
    requires WellPosed(db, root) && SpfOk(db, root, t) && Spliced(db, root, t, nodes, prevs)
    requires Prev(prevs, u) != root && Prev(prevs, u) != 0
    ensures var rank := SplicedRank(t.rank, db.summaries);
            u in rank && Prev(prevs, u) in rank && rank[Prev(prevs, u)] < rank[u]
    ensures RouterName(db, Prev(prevs, u)) && !IsPrefix(db.summaries, Prev(prevs, u)) && Prev(prevs, u) in t.rank
  {
    var p := Prev(prevs, u);
    TreePrev(db, root, t, u);
    if !IsPrefix(db.summaries, u) {
      PrevIsRouter(db, root, t, u);
    }
    RouterIsNoPrefix(db, root, p);
    RankBelow(db, root, t, p);
    SplicedRankIs(t.rank, db.summaries, u);
    SplicedRankIs(t.rank, db.summaries, p);
    hide WellPosed, SpfOk, RouterName, IsPrefix, SplicedRank, RouteGraph;
  }

  lemma RankBelow(db: Db, root: Id, t: Spf, u: Id)
    requires SpfOk(db, root, t)
    ensures u in t.rank ==> t.rank[u] < |t.rank|
  {
    hide RouteGraph, ShortestPaths;
  }

  lemma RouterIsNoPrefix(db: Db, root: Id, u: Id)
    requires WellPosed(db, root)
    ensures RouterName(db, u) ==> !IsPrefix(db.summaries, u)
  {
    if IsPrefix(db.summaries, u) {
      PrefixIsNetwork(db, u);
    }
  }

  /** From a router the walk is the one through the tree of the calculation. */
  lemma {:induction false} SplicedTop(db: Db, root: Id, t: Spf, nodes: Nodes, prevs: map<Id, Id>, u: Id)
    requires WellPosed(db, root) && SpfOk(db, root, t) && Spliced(db, root, t, nodes, prevs)
    requires Grounded(t.prevs, root, t.rank) && Grounded(prevs, root, SplicedRank(t.rank, db.summaries))
    requires !IsPrefix(db.summaries, u)
    ensures Top(prevs, root, SplicedRank(t.rank, db.summaries), u) == Top(t.prevs, root, t.rank, u)
    decreases if u in t.rank then t.rank[u] + 1 else 0
  {
    var p := Prev(prevs, u);
    assert p == Prev(t.prevs, u);
    if p != root && p != 0 {
      SplicedStep(db, root, t, nodes, prevs, u);
      TreePrev(db, root, t, u);
      SplicedTop(db, root, t, nodes, prevs, p);
    }
  }

  /**
   A spliced prefix is routed like its advertising router: by way of the first router on a shortest path to it.
   What is no prefix is routed as the calculation says.
   */
  lemma SplicedHopTo(db: Db, root: Id, t: Spf, nodes: Nodes, prevs: map<Id, Id>, u: Id)
    requires WellPosed(db, root) && SpfOk(db, root, t) && Spliced(db, root, t, nodes, prevs)
    requires Grounded(t.prevs, root, t.rank) && Grounded(prevs, root, SplicedRank(t.rank, db.summaries))
    ensures var hop := HopTo(prevs, root, SplicedRank(t.rank, db.summaries), u);
            && (!IsPrefix(db.summaries, u) ==> hop == HopTo(t.prevs, root, t.rank, u))
            && (Prev(prevs, u) != 0 && Prev(prevs, u) != root ==> hop == Top(t.prevs, root, t.rank, Prev(prevs, u)))
  {
    var p := Prev(prevs, u);
    if !IsPrefix(db.summaries, u) {
      SplicedTop(db, root, t, nodes, prevs, u);
    }
    if p != 0 && p != root {
      SplicedStep(db, root, t, nodes, prevs, u);
      SplicedTop(db, root, t, nodes, prevs, p);
    }
  }

  // ----- For the methods

  lemma SelfUpdate(nodes: Nodes, id: Id)
    requires id in nodes
    ensures nodes[id := nodes[id]] == nodes
  {
  }

  /** The graph of a well-posed database meets what the calculation relies on. */
  lemma InputOk(db: Db, root: Id, edges: Edges)
    requires WellPosed(db, root) && HoldsHops(edges, GraphHops(db))
    ensures NewNodes(GraphNodes(db)) && Input(GraphNodes(db).Keys, edges, root)
  {
    GraphNodesAre(db, root);
    hide GraphNodes, RouterName, NetworkName;
    forall u, i | u in GraphNodes(db) && 0 <= i < |OutEdges(edges, u)|
      ensures OutEdges(edges, u)[i].metric <= MAX_METRIC
    {
      var e := OutEdges(edges, u)[i];
      assert e in OutEdges(edges, u);
      assert Hop(u, e.metric, e.dst) in GraphHops(db);
    }
  }

  /** The route that a node gives rise to, if it is a network with a next hop. */
  ghost predicate Yields(node: Node, prevs: map<Id, Id>, root: Id, rank: Ranks, e: Entry)
    requires Grounded(prevs, root, rank)
  {
    && node.mask != 0 && HopTo(prevs, root, rank, node.id) != Unreachable
    && e == Entry(node.id, node.mask, HopTo(prevs, root, rank, node.id), node.dist)
  }

  /** The routes are exactly those of the networks with a next hop. */
  ghost predicate RoutesOk(routes: seq<Entry>, nodes: Nodes, prevs: map<Id, Id>, root: Id, rank: Ranks) {
    && Grounded(prevs, root, rank)
    && forall e :: e in routes <==> exists item | item in nodes.Items :: Yields(item.1, prevs, root, rank, e)
  }
}
