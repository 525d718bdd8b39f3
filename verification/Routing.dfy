/**
 The routing table (src/route.cpp, src/route.hpp; RFC 2328, sections 16.1, 16.1.1 and 16.2): the class whose methods
 build the graph, run the shortest path calculation, splice in the summary LSAs and extract the routes.
 */
module Routing {
  import opened Wrappers
  import opened Words
  import opened Lsas
  import opened Graphs
  import opened Dijkstra
  import opened Topology
  import opened RouteSpec
  import opened RouteProof
  import opened RouteTable

  class RoutingTable {
    const rootId: Id
    var nodes: Nodes
    var edges: Edges
    var prevs: map<Id, Id>
    var routes: seq<Entry>

    constructor (root: Id)
      ensures rootId == root && routes == []
    {
      rootId := root;
      nodes, edges, prevs, routes := map[], map[], map[], [];
    }

    method AddEdge(u: Id, e: Edge, ghost hops: seq<Hop<Id>>)
      requires HoldsHops(edges, hops) && e.metric <= MAX_METRIC
      modifies `edges
      ensures HoldsHops(edges, hops + [Hop(u, e.metric, e.dst)])
    {
      PushMatches(edges, hops, u, e);
      edges := edges[u := (if u in edges then edges[u] else []) + [e]];
    }

    /** The edges of a transit link. */
    method AddTransit(src: Id, metric: uint16, routers: seq<uint32>, ghost hops: seq<Hop<Id>>)
      requires HoldsHops(edges, hops)
      modifies `edges
      ensures HoldsHops(edges, hops + AttachedHops(src, metric, routers))
    {
      assert hops + [] == hops;
      for i := 0 to |routers|
        invariant HoldsHops(edges, hops + AttachedHops(src, metric, routers[..i]))
      {
        assert routers[..i + 1][..i] == routers[..i];
        ghost var before := hops + AttachedHops(src, metric, routers[..i]);
        if routers[i] != src {
          AddEdge(src, Edge(routers[i], metric), before);
        }
        assert before + [Hop(src, metric, routers[i])]
            == hops + (AttachedHops(src, metric, routers[..i]) + [Hop(src, metric, routers[i])]);
        assert AttachedHops(src, metric, routers[..i]) + [] == AttachedHops(src, metric, routers[..i]);
      }
      assert routers[..|routers|] == routers;
    }

    static method GetNetworkLsa(nets: seq<Lsa>, lsId: uint32) returns (r: Option<Lsa>)
      ensures r == FindNetwork(nets, lsId)
    {
      var i := 0;
      while i < |nets| && nets[i].header.linkStateId != lsId
        invariant i <= |nets| && FindNetwork(nets[i..], lsId) == FindNetwork(nets, lsId)
      {
        assert nets[i..][1..] == nets[i + 1..];
        i := i + 1;
      }
      r := if i < |nets| then Some(nets[i]) else None;
    }

    method AddLink(src: Id, link: Link, nets: seq<Lsa>, ghost hops: seq<Hop<Id>>)
      requires HoldsHops(edges, hops)
      modifies `edges, `nodes
      ensures HoldsHops(edges, hops + LinkHops(src, link, nets))
      ensures nodes == if link.linkType == STUB then old(nodes)[link.linkId := Node(link.linkId, link.linkData, UINT32_MAX)]
                       else old(nodes)
    {
      assert hops + [] == hops;
      if link.linkType == POINT2POINT {
        AddEdge(src, Edge(link.linkId, link.metric), hops);
      } else if link.linkType == TRANSIT {
        var net := GetNetworkLsa(nets, link.linkId);
        match net {
          case Some(NetworkLsa(_, _, routers)) => AddTransit(src, link.metric, routers, hops);
          case _ =>
        }
      } else if link.linkType == STUB {
        nodes := nodes[link.linkId := Node(link.linkId, link.linkData, UINT32_MAX)];
        AddEdge(src, Edge(link.linkId, link.metric), hops);
      }
    }

    method AddLinks(src: Id, links: seq<Link>, nets: seq<Lsa>, ghost hops: seq<Hop<Id>>)
      requires HoldsHops(edges, hops)
      modifies `edges, `nodes
      ensures HoldsHops(edges, hops + LinksHops(src, links, nets))
      ensures nodes == LinkNodes(old(nodes), links)
    {
      hide LinkHops, HoldsHops;
      assert hops + [] == hops;
      for i := 0 to |links|
        invariant HoldsHops(edges, hops + LinksHops(src, links[..i], nets))
        invariant nodes == LinkNodes(old(nodes), links[..i])
      {
        LinksStep(src, links, i, nets, hops, old(nodes));
        AddLink(src, links[i], nets, hops + LinksHops(src, links[..i], nets));
      }
      assert links[..|links|] == links;
    }

    method AddRouters(routers: seq<Lsa>, nets: seq<Lsa>)
      requires edges == map[] && nodes == map[]
      modifies `edges, `nodes
      ensures HoldsHops(edges, RouterHops(routers, nets)) && nodes == RouterNodes(routers)
    {
      for i := 0 to |routers|
        invariant HoldsHops(edges, RouterHops(routers[..i], nets)) && nodes == RouterNodes(routers[..i])
      {
        assert routers[..i + 1][..i] == routers[..i];
        ghost var before := RouterHops(routers[..i], nets);
        assert before + [] == before;
        match routers[i] {
          case RouterLsa(h, _, _, links) =>
            nodes := nodes[h.linkStateId := Node(h.linkStateId, 0, UINT32_MAX)];
            AddLinks(h.linkStateId, links, nets, before);
          case _ =>
        }
      }
      assert routers[..|routers|] == routers;
    }

    method AddInto(net: Id, routers: seq<uint32>, ghost hops: seq<Hop<Id>>)
      requires HoldsHops(edges, hops)
      modifies `edges
      ensures HoldsHops(edges, hops + IntoHops(net, routers))
    {
      assert hops + [] == hops;
      for i := 0 to |routers|
        invariant HoldsHops(edges, hops + IntoHops(net, routers[..i]))
      {
        assert routers[..i + 1][..i] == routers[..i];
        ghost var before := hops + IntoHops(net, routers[..i]);
        AddEdge(routers[i], Edge(net, 0), before);
        assert before + [Hop(routers[i], 0, net)] == hops + (IntoHops(net, routers[..i]) + [Hop(routers[i], 0, net)]);
      }
      assert routers[..|routers|] == routers;
    }

    method AddNetworks(nets: seq<Lsa>, ghost hops: seq<Hop<Id>>)
      requires HoldsHops(edges, hops)
      modifies `edges, `nodes
      ensures HoldsHops(edges, hops + NetworkHops(nets)) && nodes == NetworkNodes(old(nodes), nets)
    {
      hide IntoHops, HoldsHops, NetworkId;
      assert hops + [] == hops;
      for i := 0 to |nets|
        invariant HoldsHops(edges, hops + NetworkHops(nets[..i])) && nodes == NetworkNodes(old(nodes), nets[..i])
      {
        NetworksStep(nets, i, hops, old(nodes));
        match nets[i] {
          case NetworkLsa(_, mask, routers) =>
            var id := NetworkId(nets[i]);
            nodes := nodes[id := Node(id, mask, UINT32_MAX)];
            AddInto(id, routers, hops + NetworkHops(nets[..i]));
          case _ => assert hops + NetworkHops(nets[..i]) + [] == hops + NetworkHops(nets[..i]);
        }
      }
      assert nets[..|nets|] == nets;
    }

    /** The first part of `update_route`. */
    method BuildGraph(db: Db)
      modifies `nodes, `edges, `prevs
      ensures nodes == GraphNodes(db) && prevs == map[] && HoldsHops(edges, GraphHops(db))
    {
      nodes, edges, prevs := map[], map[], map[];
      AddRouters(db.routers, db.networks);
      AddNetworks(db.networks, RouterHops(db.routers, db.networks));
    }

    /** The initialisation of `dijkstra`: predecessors and visit marks for every node. */
    method ResetMarks() returns (vis: map<Id, bool>)
      requires prevs == map[]
      modifies `prevs
      ensures prevs.Keys == vis.Keys == nodes.Keys && forall u | u in nodes :: prevs[u] == 0 && !vis[u]
    {
      prevs := map u | u in nodes :: 0;
      vis := map u | u in nodes :: false;
    }

    /** `dijkstra`. */
    method RunDijkstra() returns (ghost rank: Ranks)
      requires NewNodes(nodes) && prevs == map[] && Input(nodes.Keys, edges, rootId)
      modifies `nodes, `prevs
      ensures var v := old(nodes).Keys;
              ShortestPaths(v, HopsOf(v, edges), rootId, nodes) && Tree(v, HopsOf(v, edges), rootId, nodes, prevs, rank)
      ensures Untouched(old(nodes), Search(nodes, prevs, multiset{}))
    {
      ghost var before, v := nodes, nodes.Keys;
      var vis := ResetMarks();
      StartKeeps(before, edges, rootId, prevs);
      hide Outer, Inner, Input, HopsOf, Untouched, Popped, ShortestPaths, Tree, IsLeast, NewNodes;
      nodes := nodes[rootId := nodes[rootId].(dist := 0)];
      var heap := multiset{nodes[rootId]};
      rank := map[];
      while heap != multiset{}
        invariant Outer(v, edges, rootId, Search(nodes, prevs, heap), rank) && Untouched(before, Search(nodes, prevs, heap))
        invariant Marks(vis, rank) && rank.Keys <= v
        decreases |v| - |rank|, |heap|
      {
        var node, rest := TakeLeast(heap);
        ghost var s := Search(nodes, prevs, heap);
        PoppedIs(s, node, before);
        SubsetSize(rank.Keys, v);
        if node.id in vis && vis[node.id] {
          DropStale(v, edges, rootId, s, rank, node);
          heap := rest;
        } else {
          SettleNext(v, edges, rootId, s, rank, node);
          MarkSettled(vis, rank, node.id);
          rank := rank[node.id := |rank|];
          SubsetSize(rank.Keys, v);
          vis := vis[node.id := true];
          heap := RelaxAll(node, rest, v, before, rank);
        }
      }
      SettledIsShortest(v, edges, rootId, Search(nodes, prevs, heap), rank);
    }

    /** `top` and `pop`: which of several least nodes comes first is left open. */
    static method TakeLeast(heap: multiset<Node>) returns (node: Node, rest: multiset<Node>)
      requires heap != multiset{}
      ensures IsLeast(heap, node) && node in heap && rest == heap - multiset{node} && |rest| < |heap|
    {
      LeastExists(heap);
      node :| IsLeast(heap, node);
      rest := heap - multiset{node};
      assert heap == rest + multiset{node};
    }

    /** The inner loop of `dijkstra`, over the edges of the node just settled. */
    method RelaxAll(node: Node, heap0: multiset<Node>, ghost v: set<Id>, ghost before: Nodes, ghost rank: Ranks)
      returns (heap: multiset<Node>)
      requires Input(v, edges, rootId) && v == before.Keys
      requires Inner(v, edges, rootId, Search(nodes, prevs, heap0), rank, node.id, 0)
      requires node.id in nodes && node.dist == nodes[node.id].dist && Untouched(before, Search(nodes, prevs, heap0))
      modifies `nodes, `prevs
      ensures Outer(v, edges, rootId, Search(nodes, prevs, heap), rank) && Untouched(before, Search(nodes, prevs, heap))
    {
      hide Outer, Inner, Input, HopsOf, Untouched, Gained;
      heap := heap0;
      var out := if node.id in edges then edges[node.id] else [];
      for i := 0 to |out|
        invariant Inner(v, edges, rootId, Search(nodes, prevs, heap), rank, node.id, i)
        invariant node.id in nodes && node.dist == nodes[node.id].dist && Untouched(before, Search(nodes, prevs, heap))
      {
        var edge := out[i];
        ghost var s := Search(nodes, prevs, heap);
        RelaxKeeps(v, edges, rootId, s, rank, i, node);
        RelaxLeaves(v, edges, rootId, before, s, rank, i, node);
        var d := U32(node.dist + edge.metric);
        if edge.dst !in nodes {
          nodes := nodes[edge.dst := Node(0, 0, 0)];
        }
        if nodes[edge.dst].dist > d {
          nodes := nodes[edge.dst := nodes[edge.dst].(dist := d)];
          prevs := prevs[edge.dst := node.id];
          heap := heap + multiset{nodes[edge.dst]};
        }
        SameSearch(Search(nodes, prevs, heap), Relax(s, node, edge));
      }
      InnerDone(v, edges, rootId, Search(nodes, prevs, heap), rank, node.id);
    }

    /** The part of `update_route` that adds inter-area routes. */
    method SpliceSummaries(summaries: seq<Lsa>)
      modifies `nodes, `edges, `prevs
      ensures (nodes, prevs) == SpliceAll(old(nodes), old(prevs), rootId, summaries)
    {
      ghost var n0, p0 := nodes, prevs;
      for i := 0 to |summaries|
        invariant (nodes, prevs) == SpliceAll(n0, p0, rootId, summaries[..i])
      {
        assert summaries[..i + 1][..i] == summaries[..i];
        match summaries[i] {
          case SummaryLsa(h, mask, _, metric) =>
            if h.advertisingRouter != rootId && h.advertisingRouter in nodes {
              var abr := nodes[h.advertisingRouter];
              if abr.dist != UINT32_MAX {
                if abr.id !in nodes {
                  nodes := nodes[abr.id := Node(0, 0, 0)];
                }
                SelfUpdate(nodes, abr.id);
                nodes := nodes[h.linkStateId := Node(h.linkStateId, mask, nodes[abr.id].dist)];
                edges := PushEdge(edges, abr.id, Edge(h.linkStateId, metric));
                prevs := prevs[h.linkStateId := abr.id];
              }
            }
          case _ =>
        }
      }
      assert summaries[..|summaries|] == summaries;
    }

    /** The search for a next hop: the walk along the predecessors. */
    method NextHopFor(dst: Id, ghost rank: Ranks) returns (hop: NextHop)
      requires Grounded(prevs, rootId, rank)
      ensures hop == HopTo(prevs, rootId, rank, dst)
    {
      var prevHop := Prev(prevs, dst);
      if prevHop == rootId {
        return Direct;
      }
      var next := dst;
      while prevHop != rootId && prevHop != 0
        invariant prevHop == Prev(prevs, next) && Top(prevs, rootId, rank, next) == Top(prevs, rootId, rank, dst)
        decreases if next in rank then rank[next] + 1 else 0
      {
        next := prevHop;
        prevHop := Prev(prevs, prevHop);
      }
      hop := if prevHop == 0 && prevHop != rootId then Unreachable else Via(next);
    }

    /** The last part of `update_route`: an entry for every network with a next hop. */
    method ExtractRoutes(ghost rank: Ranks)
      requires Grounded(prevs, rootId, rank)
      modifies `routes
      ensures RoutesOk(routes, nodes, prevs, rootId, rank)
    {
      routes := [];
      var todo := nodes.Items;
      ghost var done: set<(Id, Node)> := {};
      while todo != {}
        invariant todo + done == nodes.Items
        invariant forall e :: e in routes <==> exists item | item in done :: Yields(item.1, prevs, rootId, rank, e)
        decreases |todo|
      {
        var item :| item in todo;
        ghost var before, was := routes, done;
        todo, done := todo - {item}, done + {item};
        var node := item.1;
        if node.mask != 0 {
          var hop := NextHopFor(node.id, rank);
          if hop != Unreachable {
            routes := routes + [Entry(node.id, node.mask, hop, node.dist)];
          }
        }
        forall e
          ensures e in routes <==> exists i | i in done :: Yields(i.1, prevs, rootId, rank, e)
        {
          assert e in routes <==> e in before || Yields(node, prevs, rootId, rank, e);
        }
      }
      assert done == nodes.Items;
    }

    /**
     `update_route`, without the kernel's table and the lookup of interfaces. `t` is the state after the shortest
     path calculation, whose tables the final ones are spliced from.
     */
    method UpdateRoute(db: Db) returns (ghost t: Spf)
      requires WellPosed(db, rootId)
      modifies this
      ensures TableOk(db, rootId, Table(t, nodes, prevs, routes)) && Grounded(t.prevs, rootId, t.rank)
      ensures forall e: Entry :: e in routes <==> Expected(db, rootId, t, e)
    {
      BuildGraph(db);
      InputOk(db, rootId, edges);
      HopsAreRouteGraph(db, edges);
      ghost var rank := RunDijkstra();
      t := Spf(nodes, prevs, rank);
      assert SpfOk(db, rootId, t);
      hide WellPosed, SpfOk, RoutesOk, HopsOf, RouteGraph, HoldsHops;
      SpliceSummaries(db.summaries);
      assert db.summaries[..|db.summaries|] == db.summaries;
      SpliceAllKeeps(db, rootId, t, |db.summaries|);
      SplicedGrounded(db, rootId, t, nodes, prevs);
      ExtractRoutes(SplicedRank(rank, db.summaries));
      TreeGrounded(db, rootId, t);
      hide Grounded, Expected, Spliced, SpliceAll;
      forall e: Entry
        ensures e in routes <==> Expected(db, rootId, t, e)
      {
        RoutesExactly(db, rootId, Table(t, nodes, prevs, routes), e);
      }
    }
  }
}
