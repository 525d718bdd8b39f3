/** Every well-posed database has routing tables: what the theorems about forwarding assume can always be had. */
module Convergence {
  import opened Lsas
  import Lsdbs
  import opened Graphs
  import opened Dijkstra
  import opened Topology
  import opened RouteSpec
  import opened RouteProof
  import opened RouteTable
  import opened Forwarding
  import opened Detours

  // ----- A run of the calculation

  lemma {:induction false} RelaxingEnds(
    v: set<Id>, edges: Edges, root: Id, before: Nodes, s: Search, rank: Ranks, node: Node, i: nat) returns (s': Search)
    requires Input(v, edges, root) && v == before.Keys && i <= |OutEdges(edges, node.id)|
    requires Inner(v, edges, root, s, rank, node.id, i)
    requires node.id in s.nodes && node.dist == s.nodes[node.id].dist && Untouched(before, s)
    ensures Outer(v, edges, root, s', rank) && Untouched(before, s')
    decreases |OutEdges(edges, node.id)| - i
  {
    hide Input, Inner, Outer, Untouched, Relax;
    if i < |OutEdges(edges, node.id)| {
      RelaxKeeps(v, edges, root, s, rank, i, node);
      RelaxLeaves(v, edges, root, before, s, rank, i, node);
      s' := RelaxingEnds(v, edges, root, before, Relax(s, node, OutEdges(edges, node.id)[i]), rank, node, i + 1);
    } else {
      InnerDone(v, edges, root, s, rank, node.id);
      s' := s;
    }
  }

  lemma RanksWithin(v: set<Id>, edges: Edges, root: Id, s: Search, rank: Ranks)
    requires Outer(v, edges, root, s, rank)
    ensures rank.Keys <= v && |rank| <= |v|
  {
    CoreKeys(v, edges, root, s, rank);
    SubsetSize(rank.Keys, v);
  }

  lemma {:induction false} SearchEnds(v: set<Id>, edges: Edges, root: Id, before: Nodes, s: Search, rank: Ranks)
    returns (s': Search, rank': Ranks)
    requires Input(v, edges, root) && v == before.Keys && Outer(v, edges, root, s, rank) && Untouched(before, s)
    ensures Outer(v, edges, root, s', rank') && Untouched(before, s') && s'.heap == multiset{}
    decreases |v| - |rank|, |s.heap|
  {
    RanksWithin(v, edges, root, s, rank);
    hide Input, Inner, Outer, Untouched, IsLeast;
    if s.heap == multiset{} {
      s', rank' := s, rank;
    } else {
      LeastExists(s.heap);
      var node :| IsLeast(s.heap, node);
      var rest := Popped(s, node);
      LeastIsThere(s, node);
      PoppedIs(s, node, before);
      if node.id in rank {
        DropStale(v, edges, root, s, rank, node);
        s', rank' := SearchEnds(v, edges, root, before, rest, rank);
      } else {
        SettleNext(v, edges, root, s, rank, node);
        var more := rank[node.id := |rank|];
        var relaxed := RelaxingEnds(v, edges, root, before, rest, more, node, 0);
        RanksWithin(v, edges, root, relaxed, more);
        assert |more| == |rank| + 1;
        s', rank' := SearchEnds(v, edges, root, before, relaxed, more);
      }
    }
  }

  lemma LeastIsThere(s: Search, node: Node)
    requires IsLeast(s.heap, node)
    ensures node in s.heap && |Popped(s, node).heap| < |s.heap|
  {
    assert s.heap == Popped(s, node).heap + multiset{node};
  }

  lemma {:induction false} EdgesExist(db: Db, n: nat) returns (edges: Edges)
    requires n <= |GraphHops(db)|
    ensures HoldsHops(edges, GraphHops(db)[..n])
  {
    if n == 0 {
      edges := map[];
    } else {
      var h := GraphHops(db)[n - 1];
      edges := EdgesExist(db, n - 1);
      assert h in GraphHops(db);
      GraphHopsAre(db, h);
      assert GraphHops(db)[..n] == GraphHops(db)[..n - 1] + [h];
      hide GraphHops, HoldsHops;
      PushMatches(edges, GraphHops(db)[..n - 1], h.src, Edge(h.dst, h.cost));
      edges := PushEdge(edges, h.src, Edge(h.dst, h.cost));
    }
  }

  lemma SpfExists(db: Db, root: Id)
    requires WellPosed(db, root)
    ensures exists t :: SpfOk(db, root, t)
  {
    var edges := EdgesExist(db, |GraphHops(db)|);
    assert GraphHops(db)[..|GraphHops(db)|] == GraphHops(db);
    InputOk(db, root, edges);
    HopsAreRouteGraph(db, edges);
    var before := GraphNodes(db);
    var prevs: map<Id, Id> := map u | u in before :: 0;
    StartKeeps(before, edges, root, prevs);
    var nodes := before[root := before[root].(dist := 0)];
    hide GraphHops, GraphNodes, RouteGraph, HoldsHops, Outer, Input;
    var s, rank := SearchEnds(before.Keys, edges, root, before, Search(nodes, prevs, multiset{nodes[root]}), map[]);
    SettledIsShortest(before.Keys, edges, root, s, rank);
    RootIsRouter(db, root);
    assert SpfOk(db, root, Spf(s.nodes, s.prevs, rank));
  }

  // ----- The routes

  lemma {:induction false} RoutesOfItems(items: set<(Id, Node)>, prevs: map<Id, Id>, root: Id, rank: Ranks)
    returns (routes: seq<Entry>)
    requires Grounded(prevs, root, rank)
    ensures forall e :: e in routes <==> exists item | item in items :: Yields(item.1, prevs, root, rank, e)
    decreases items
  {
    hide Grounded, HopTo;
    if items == {} {
      routes := [];
    } else {
      var item :| item in items;
      var rest := RoutesOfItems(items - {item}, prevs, root, rank);
      var node := item.1;
      var e := Entry(node.id, node.mask, HopTo(prevs, root, rank, node.id), node.dist);
      routes := if node.mask != 0 && e.nextHop != Unreachable then rest + [e] else rest;
      forall f
        ensures f in routes <==> exists i | i in items :: Yields(i.1, prevs, root, rank, f)
      {
        assert f in routes <==> f in rest || Yields(node, prevs, root, rank, f);
        assert forall i :: i in items <==> i == item || i in items - {item};
      }
    }
  }

  lemma TableExists(db: Db, root: Id)
    requires WellPosed(db, root)
    ensures exists table :: TableAt(db, root, table)
  {
    SpfExists(db, root);
    var t :| SpfOk(db, root, t);
    SpliceAllKeeps(db, root, t, |db.summaries|);
    assert db.summaries[..|db.summaries|] == db.summaries;
    var (nodes, prevs) := SpliceAll(t.nodes, t.prevs, root, db.summaries);
    SplicedGrounded(db, root, t, nodes, prevs);
    TreeGrounded(db, root, t);
    hide SpfOk, Spliced, WellPosed, SpliceAll, SplicedRank, Grounded;
    var routes := RoutesOfItems(nodes.Items, prevs, root, SplicedRank(t.rank, db.summaries));
    assert TableAt(db, root, Table(t, nodes, prevs, routes));
  }

  ghost function SomeTable(db: Db, root: Id): (table: Table)
    requires WellPosed(db, root)
    ensures TableAt(db, root, table)
  {
    TableExists(db, root);
    var table :| TableAt(db, root, table);
    table
  }

  lemma TablesExist(db: Db)
    requires forall r :: IsRouter(db.routers, r) ==> WellPosed(db, r)
    ensures exists tables :: Converged(db, tables)
  {
    hide WellPosed, TableAt, GraphNodes, IsRouter;
    var tables := map r | r in GraphNodes(db) && IsRouter(db.routers, r) :: SomeTable(db, r);
    forall r | IsRouter(db.routers, r)
      ensures r in tables && TableAt(db, r, tables[r])
    {
      GraphNodesAre(db, r);
    }
    assert Converged(db, tables);
  }

  // ----- Two routers that send a packet to and fro

  const TWO_ROUTERS: Db := Lsdbs.Db([
    RouterLsa(Header(0, 2, ROUTER, 1, 1, 0x8000_0001, 0, 36), 0, 1, [Link(2, 0, POINT2POINT, 0, 1)]),
    RouterLsa(Header(0, 2, ROUTER, 2, 2, 0x8000_0001, 0, 48), 0, 2, [Link(1, 0, POINT2POINT, 0, 1), Link(10, 255, STUB, 0, 1)])
  ], [], [
    SummaryLsa(Header(0, 2, SUMMARY, 10, 1, 0x8000_0001, 0, 28), 255, 0, 1)
  ])

  lemma TwoRoutersLinks(u: Id, l: Link)
    ensures HasLink(TWO_ROUTERS.routers, u, l) <==>
              || (u == 1 && l == Link(2, 0, POINT2POINT, 0, 1))
              || (u == 2 && (l == Link(1, 0, POINT2POINT, 0, 1) || l == Link(10, 255, STUB, 0, 1)))
  {
    var routers := TWO_ROUTERS.routers;
    assert routers[0].header.linkStateId == 1 && routers[1].header.linkStateId == 2;
  }

  lemma TwoRoutersAre(u: Id)
    ensures IsRouter(TWO_ROUTERS.routers, u) <==> u == 1 || u == 2
    ensures IsStub(TWO_ROUTERS.routers, u) <==> u == 10
  {
    var routers := TWO_ROUTERS.routers;
    assert routers[0].header.linkStateId == 1 && routers[1].header.linkStateId == 2;
    TwoRoutersLinks(2, Link(10, 255, STUB, 0, 1));
    forall w, l | HasLink(routers, w, l)
      ensures l.linkType == STUB ==> l.linkId == 10
    {
      TwoRoutersLinks(w, l);
    }
  }

  lemma TwoRoutersNodes()
    ensures GraphNodes(TWO_ROUTERS).Keys == {1, 2, 10} && GraphNodes(TWO_ROUTERS)[10].mask == 255
  {
    var routers := TWO_ROUTERS.routers;
    assert routers == [routers[0]] + [routers[1]] && routers[..1] == [routers[0]] && routers[..1][..0] == [];
    var links := routers[1].links;
    assert links[..1][..0] == [] && links[..1] == [links[0]];
    forall u
      ensures u in GraphNodes(TWO_ROUTERS) <==> u in {1, 2, 10}
    {
      GraphNodesAre(TWO_ROUTERS, u);
      TwoRoutersAre(u);
    }
  }

  lemma TwoRoutersWellPosed(root: Id)
    requires root == 1 || root == 2
    ensures WellPosed(TWO_ROUTERS, root) && PositiveLinks(TWO_ROUTERS)
  {
    var db := TWO_ROUTERS;
    TwoRoutersNodes();
    forall u
      ensures RouterName(db, u) ==> u == 1 || u == 2
      ensures NetworkName(db, u) ==> u == 10
    {
      TwoRoutersAre(u);
      forall w, l | HasLink(db.routers, w, l)
        ensures l.linkType == POINT2POINT ==> l.linkId == 1 || l.linkId == 2
      {
        TwoRoutersLinks(w, l);
      }
    }
    TwoRoutersAre(root);
    forall u, l | HasLink(db.routers, u, l)
      ensures l.metric >= 1
    {
      TwoRoutersLinks(u, l);
    }
    hide GraphNodes;
  }

  lemma TwoRoutersEdges()
    ensures var g := RouteGraph(TWO_ROUTERS);
            && Hop(1, 1, 2) in g && Hop(2, 1, 1) in g && Hop(2, 1, 10) in g
            && forall c :: Hop(1, c, 10) !in g
  {
    var db := TWO_ROUTERS;
    TwoRoutersNodes();
    TwoRoutersLinks(1, Link(2, 0, POINT2POINT, 0, 1));
    TwoRoutersLinks(2, Link(1, 0, POINT2POINT, 0, 1));
    TwoRoutersLinks(2, Link(10, 255, STUB, 0, 1));
    assert LinkGives(Link(2, 0, POINT2POINT, 0, 1), db.networks, 1, 1, 2);
    assert LinkGives(Link(1, 0, POINT2POINT, 0, 1), db.networks, 2, 1, 1);
    assert LinkGives(Link(10, 255, STUB, 0, 1), db.networks, 2, 1, 10);
    hide GraphNodes;
    forall l | HasLink(db.routers, 1, l)
      ensures l.linkId == 2 && l.linkType == POINT2POINT
    {
      TwoRoutersLinks(1, l);
    }
  }

  lemma TwoRoutersConnect()
    ensures var g := RouteGraph(TWO_ROUTERS); Connects(g, 1, 2) && Connects(g, 2, 1) && Connects(g, 2, 10) && Connects(g, 1, 10)
  {
    TwoRoutersEdges();
    var g := RouteGraph(TWO_ROUTERS);
    assert IsWalk(g, 1, 2, Then(Here, 1, 1)) && IsWalk(g, 2, 1, Then(Here, 2, 1)) && IsWalk(g, 2, 10, Then(Here, 2, 1));
    ConnectsOn(TWO_ROUTERS, 1, 2, 10);
  }

  /**
   The loop: network 10 is a stub of router 2, and router 1 advertises a summary for the same number. Router 2 then sends
   every packet for 10 to router 1, router 1 sends it back, and it never arrives.
   */
  lemma TwoRoutersLoop(tables: Tables)
    requires Converged(TWO_ROUTERS, tables)
    ensures Hop(2, 1, 10) in RouteGraph(TWO_ROUTERS) && IsNet(TWO_ROUTERS, 10)
    ensures HopAt(tables, 2, 10) == Via(1) && HopAt(tables, 1, 10) == Via(2)
    ensures !Delivered(tables, 1, 10) && !Delivered(tables, 2, 10)
  {
    TwoRoutersNodes();
    TwoRoutersWellPosed(1);
    TwoRoutersEdges();
    TwoRoutersConnect();
    TwoRoutersSummary();
    forall r
      ensures IsRouter(TWO_ROUTERS.routers, r) <==> r == 1 || r == 2
    {
      TwoRoutersAre(r);
    }
    hide Converged, RouteGraph, Connects, PositiveLinks, SoleAdvertiser, HopAt, GraphNodes, IsRouter, Delivered;
    PairLoops(TWO_ROUTERS, tables, 1, 2, 10);
  }

  lemma TwoRoutersSummary()
    ensures SoleAdvertiser(TWO_ROUTERS, 10, 1)
  {
    TwoRoutersAre(1);
    assert TWO_ROUTERS.summaries[0] in TWO_ROUTERS.summaries && Names(TWO_ROUTERS.summaries[0], 10);
  }

  /** Two routers, a network that is not on the first, and a summary for it that the first advertises. */
  lemma PairLoops(db: Db, tables: Tables, a: Id, b: Id, n: Id)
    requires Converged(db, tables) && PositiveLinks(db) && IsNet(db, n) && SoleAdvertiser(db, n, a)
    requires forall r :: IsRouter(db.routers, r) <==> r == a || r == b
    requires Connects(RouteGraph(db), a, n) && forall c :: Hop(a, c, n) !in RouteGraph(db)
    requires a != b && Connects(RouteGraph(db), a, b) && Connects(RouteGraph(db), b, a)
    ensures HopAt(tables, a, n) == Via(b) && HopAt(tables, b, n) == Via(a)
    ensures !Delivered(tables, a, n) && !Delivered(tables, b, n)
  {
    hide Connects, RouteGraph, IsNet, Converged, PositiveLinks, IsRouter, HopAt, Delivered, SoleAdvertiser;
    PairGoesBack(db, tables, a, b, n);
    PairGoesForth(db, tables, a, b, n);
    assert Connects(RouteGraph(db), a, a) by {
      ConnectsOn(db, a, b, a);
    }
    SummarisedIsDelivered(db, tables, a, n, a);
    SummarisedIsDelivered(db, tables, b, n, a);
  }

  lemma PairGoesBack(db: Db, tables: Tables, a: Id, b: Id, n: Id)
    requires Converged(db, tables) && PositiveLinks(db) && IsNet(db, n) && SoleAdvertiser(db, n, a)
    requires forall r :: IsRouter(db.routers, r) <==> r == a || r == b
    requires Connects(RouteGraph(db), a, n) && forall c :: Hop(a, c, n) !in RouteGraph(db)
    ensures HopAt(tables, a, n) == Via(b)
  {
    assert TableAt(db, a, tables[a]);
    OwnSummaries(tables[a].spf, a, db.summaries, n);
    HopAtIsPlanned(db, tables, a, n);
    CalculatedHopIs(db, a, tables[a].spf, n);
    hide Connects, RouteGraph, IsNet, Converged, PositiveLinks, IsRouter, HopAt, HopTo, TableAt, SoleAdvertiser;
    var h :| HopAt(tables, a, n) == Via(h);
    HopIsEdge(db, tables, a, n, h);
  }

  lemma PairGoesForth(db: Db, tables: Tables, a: Id, b: Id, n: Id)
    requires Converged(db, tables) && PositiveLinks(db) && SoleAdvertiser(db, n, a)
    requires forall r :: IsRouter(db.routers, r) <==> r == a || r == b
    requires a != b && Connects(RouteGraph(db), b, a)
    ensures HopAt(tables, b, n) == Via(a)
  {
    hide Connects, RouteGraph, Converged, PositiveLinks, IsRouter, HopAt;
    SoleAttractor(db, db.summaries, b, n, a);
    var lsa := Attractor(db, db.summaries, b, n).value;
    var h := DrawnNearer(db, tables, b, n, lsa);
    HopIsEdge(db, tables, b, n, h);
  }

  /** Such tables can be had: `update_route` at both routers leaves them. */
  lemma TwoRoutersConverge()
    ensures exists tables :: Converged(TWO_ROUTERS, tables)
  {
    forall r | IsRouter(TWO_ROUTERS.routers, r)
      ensures WellPosed(TWO_ROUTERS, r)
    {
      TwoRoutersAre(r);
      TwoRoutersWellPosed(r);
    }
    TablesExist(TWO_ROUTERS);
  }
}
