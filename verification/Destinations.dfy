/**
 Under which number and mask the networks of a database appear in the routing table, in terms of the LSAs' own fields
 (RFC 2328, sections 12.4.1.2 and 12.4.2).
 */
module Destinations {
  import opened Wrappers
  import opened Words
  import opened Lsas
  import opened Graphs
  import opened Dijkstra
  import opened Topology
  import opened RouteSpec
  import opened RouteProof
  import opened RouteTable
  import opened Forwarding

  // ----- Transit networks

  /** The network LSA's mask leaves out the `k` low bits. */
  predicate Prefix(lsa: Lsa, k: nat) {
    k <= 32 && lsa.NetworkLsa? && lsa.networkMask == TWO_32 - Pow2(k)
  }

  /** `u` is the number of the LSA's network: its designated router's address with the low bits cleared. */
  predicate Numbers(lsa: Lsa, u: Id) {
    exists k | 0 <= k <= 32 :: Prefix(lsa, k) && u == lsa.header.linkStateId - lsa.header.linkStateId % Pow2(k)
  }

  ghost predicate Contiguous(nets: seq<Lsa>) {
    forall i | 0 <= i < |nets| :: exists k: nat :: Prefix(nets[i], k)
  }

  lemma NumbersExactly(lsa: Lsa, k: nat, u: Id)
    requires Prefix(lsa, k)
    ensures Numbers(lsa, u) <==> NetworkId(lsa) == u
  {
    forall j: nat | Prefix(lsa, j)
      ensures NetworkId(lsa) == lsa.header.linkStateId - lsa.header.linkStateId % Pow2(j)
    {
      AndMask(lsa.header.linkStateId, j);
    }
    hide Pow2, And32;
  }

  /** The last network LSA with that number. */
  predicate Decides(nets: seq<Lsa>, i: nat, u: Id) {
    i < |nets| && Numbers(nets[i], u) && forall j | i < j < |nets| :: !Numbers(nets[j], u)
  }

  lemma DecidesById(nets: seq<Lsa>, i: nat, u: Id)
    requires Contiguous(nets) && Decides(nets, i, u)
    ensures NetworkId(nets[i]) == u && forall j | i < j < |nets| :: NetworkId(nets[j]) != u
    ensures forall j | 0 <= j < |nets| :: nets[j].NetworkLsa?
  {
    hide NetworkId, Numbers;
    forall j | 0 <= j < |nets|
      ensures nets[j].NetworkLsa? && (Numbers(nets[j], u) <==> NetworkId(nets[j]) == u)
    {
      var k: nat :| Prefix(nets[j], k);
      NumbersExactly(nets[j], k, u);
    }
  }

  lemma {:induction false} NetworkNodeIs(nodes: Nodes, nets: seq<Lsa>, i: nat, u: Id)
    requires i < |nets| && NetworkId(nets[i]) == u && forall j | i < j < |nets| :: NetworkId(nets[j]) != u
    requires forall j | 0 <= j < |nets| :: nets[j].NetworkLsa?
    ensures u in NetworkNodes(nodes, nets) && NetworkNodes(nodes, nets)[u] == Node(u, nets[i].networkMask, UINT32_MAX)
  {
    hide NetworkId;
    if i < |nets| - 1 {
      NetworkNodeIs(nodes, nets[..|nets| - 1], i, u);
    }
  }

  // ----- Stub networks

  /** Link `j` of router LSA `i` is a link to the stub network `u`. */
  predicate StubAt(routers: seq<Lsa>, i: int, j: int, u: Id) {
    && 0 <= i < |routers| && routers[i].RouterLsa? && 0 <= j < |routers[i].links|
    && routers[i].links[j].linkType == 3 && routers[i].links[j].linkId == u
  }

  /** The last one, in the order of the LSAs and of the links in each. */
  ghost predicate DecidesStub(routers: seq<Lsa>, i: nat, j: nat, u: Id) {
    StubAt(routers, i, j, u) && forall a, b | StubAt(routers, a, b, u) :: a < i || (a == i && b <= j)
  }

  lemma {:induction false} LinkNodeIs(nodes: Nodes, links: seq<Link>, j: nat, u: Id)
    requires j < |links| && links[j].linkType == STUB && links[j].linkId == u
    requires forall b | j < b < |links| :: links[b].linkType == STUB ==> links[b].linkId != u
    ensures u in LinkNodes(nodes, links) && LinkNodes(nodes, links)[u] == Node(u, links[j].linkData, UINT32_MAX)
  {
    var n := |links| - 1;
    if j < n {
      LinkNodeIs(nodes, links[..n], j, u);
    }
  }

  lemma {:induction false} StubNodeIs(routers: seq<Lsa>, i: nat, j: nat, u: Id)
    requires DecidesStub(routers, i, j, u) && !IsRouter(routers, u)
    ensures u in RouterNodes(routers)
    ensures RouterNodes(routers)[u] == Node(u, routers[i].links[j].linkData, UINT32_MAX)
  {
    var n := |routers| - 1;
    var init, last := routers[..n], routers[n];
    RouterNodesSnoc(routers, n, u);
    if i < n {
      EarlierStub(routers, i, j, u);
      StubNodeIs(init, i, j, u);
      if last.RouterLsa? {
        var id := last.header.linkStateId;
        LinkNodesKeep(RouterNodes(init)[id := Node(id, 0, UINT32_MAX)], last.links, u);
      }
    } else {
      forall b | j < b < |last.links|
        ensures last.links[b].linkType == STUB ==> last.links[b].linkId != u
      {
        assert !StubAt(routers, n, b, u);
      }
      var id := last.header.linkStateId;
      LinkNodeIs(RouterNodes(init)[id := Node(id, 0, UINT32_MAX)], last.links, j, u);
    }
  }

  lemma EarlierStub(routers: seq<Lsa>, i: nat, j: nat, u: Id)
    requires DecidesStub(routers, i, j, u) && i < |routers| - 1
    ensures DecidesStub(routers[..|routers| - 1], i, j, u)
    ensures var last := routers[|routers| - 1];
            last.RouterLsa? ==> forall l | l in last.links :: l.linkType == STUB ==> l.linkId != u
  {
    var n := |routers| - 1;
    forall a, b | StubAt(routers[..n], a, b, u)
      ensures a < i || (a == i && b <= j)
    {
      assert StubAt(routers, a, b, u);
    }
    assert StubAt(routers[..n], i, j, u);
    var last := routers[n];
    if last.RouterLsa? {
      forall b | 0 <= b < |last.links|
        ensures last.links[b].linkType == STUB ==> last.links[b].linkId != u
      {
        assert !StubAt(routers, n, b, u);
      }
    }
  }

  // ----- The entries

  /** What the table should hold for the destination `u` with this mask: one entry if it can be reached, at its distance. */
  ghost predicate RoutedAs(db: Db, root: Id, table: Table, u: Id, mask: uint32)
    requires Grounded(table.spf.prevs, root, table.spf.rank)
  {
    forall e: Entry | e.dst == u :: e in table.routes <==>
      && mask != 0 && Connects(RouteGraph(db), root, u) && IsDistance(RouteGraph(db), root, u, e.metric)
      && e.mask == mask && e.nextHop == HopTo(table.spf.prevs, root, table.spf.rank, u)
  }

  predicate Unnamed(db: Db, u: Id) {
    forall lsa | lsa in db.summaries :: lsa.header.linkStateId != u
  }

  lemma {:induction false} UnnamedHasNoSource(t: Spf, root: Id, summaries: seq<Lsa>, u: Id)
    requires forall lsa | lsa in summaries :: lsa.header.linkStateId != u
    ensures Source(t, root, summaries, u) == None
  {
    if summaries != [] {
      assert summaries[|summaries| - 1] in summaries;
      UnnamedHasNoSource(t, root, summaries[..|summaries| - 1], u);
    }
  }

  lemma NodeIsRouted(db: Db, root: Id, table: Table, u: Id)
    requires WellPosed(db, root) && TableOk(db, root, table) && Unnamed(db, u) && u in GraphNodes(db)
    ensures Grounded(table.spf.prevs, root, table.spf.rank) && RoutedAs(db, root, table, u, GraphNodes(db)[u].mask)
  {
    TreeGrounded(db, root, table.spf);
    UnnamedHasNoSource(table.spf, root, db.summaries, u);
    hide Source, RouteGraph, Connects, GraphNodes, HopTo, Grounded, WellPosed, TableOk;
    forall e: Entry | e.dst == u
      ensures e in table.routes <==> Expected(db, root, table.spf, e)
    {
      RoutesExactly(db, root, table, e);
    }
  }

  /**
   A transit network is routed under its designated router's address cut to the prefix, with the mask of its LSA; where
   several LSAs give one number, the last decides. A stub network of the same number is overwritten.
   */
  lemma TransitNetworkRouted(db: Db, root: Id, table: Table, i: nat, k: nat, u: Id)
    requires WellPosed(db, root) && TableOk(db, root, table) && Contiguous(db.networks)
    requires Decides(db.networks, i, u) && Unnamed(db, u)
    ensures Grounded(table.spf.prevs, root, table.spf.rank)
    ensures db.networks[i].NetworkLsa? && RoutedAs(db, root, table, u, db.networks[i].networkMask)
    ensures var id := db.networks[i].header.linkStateId; Prefix(db.networks[i], k) ==> u == id - id % Pow2(k)
  {
    hide WellPosed, TableOk, RoutedAs, Unnamed, Pow2, NetworkId;
    DecidesById(db.networks, i, u);
    NetworkNodeIs(RouterNodes(db.routers), db.networks, i, u);
    if Prefix(db.networks[i], k) {
      IdIsCut(db.networks[i], k);
    }
    NodeIsRouted(db, root, table, u);
  }

  lemma IdIsCut(lsa: Lsa, k: nat)
    requires Prefix(lsa, k)
    ensures NetworkId(lsa) == lsa.header.linkStateId - lsa.header.linkStateId % Pow2(k)
  {
    AndMask(lsa.header.linkStateId, k);
    hide Pow2, And32;
  }

  /** A stub network is routed under the id and the mask of the last link to it, unless a transit network has that id. */
  lemma StubNetworkRouted(db: Db, root: Id, table: Table, i: nat, j: nat, u: Id)
    requires WellPosed(db, root) && TableOk(db, root, table) && Contiguous(db.networks)
    requires DecidesStub(db.routers, i, j, u) && Unnamed(db, u)
    requires forall n | 0 <= n < |db.networks| :: !Numbers(db.networks[n], u)
    ensures Grounded(table.spf.prevs, root, table.spf.rank)
    ensures RoutedAs(db, root, table, db.routers[i].links[j].linkId, db.routers[i].links[j].linkData)
  {
    hide TableOk, RoutedAs, Unnamed, Numbers, RouterNodes, NetworkNodes, RouteGraph;
    StubIsNoRouter(db, root, i, j, u);
    StubNodeIs(db.routers, i, j, u);
    NoNetworkNumbers(db.networks, u);
    NetworkNodesKeep(RouterNodes(db.routers), db.networks, u);
    NodeIsRouted(db, root, table, u);
  }

  lemma StubIsNoRouter(db: Db, root: Id, i: nat, j: nat, u: Id)
    requires WellPosed(db, root) && StubAt(db.routers, i, j, u)
    ensures !IsRouter(db.routers, u)
  {
    assert HasLink(db.routers, db.routers[i].header.linkStateId, db.routers[i].links[j]);
    assert NetworkName(db, u);
  }

  lemma NoNetworkNumbers(nets: seq<Lsa>, u: Id)
    requires Contiguous(nets) && forall n | 0 <= n < |nets| :: !Numbers(nets[n], u)
    ensures !IsNetwork(nets, u)
  {
    forall n | 0 <= n < |nets|
      ensures NetworkId(nets[n]) != u
    {
      var k: nat :| Prefix(nets[n], k);
      NumbersExactly(nets[n], k, u);
    }
  }

  // ----- Networks the router is on

  lemma EntersNetwork(db: Db, root: Id, i: nat, u: Id)
    requires WellPosed(db, root) && Contiguous(db.networks) && Decides(db.networks, i, u)
    requires db.networks[i].NetworkLsa? && root in db.networks[i].attachedRouters
    ensures Hop(root, 0, u) in RouteGraph(db) && NetworkName(db, u) && u in GraphNodes(db)
  {
    DecidesById(db.networks, i, u);
    hide NetworkId;
    assert Enters(db.networks, root, u) && IsNetwork(db.networks, u);
    GraphNodesAre(db, root);
    GraphNodesAre(db, u);
  }

  /** With positive links, only the root itself is at distance 0 among the routers. */
  lemma ZeroHasRootBefore(db: Db, root: Id, t: Spf, u: Id)
    requires WellPosed(db, root) && SpfOk(db, root, t) && PositiveLinks(db)
    requires u in t.rank && u in t.nodes && t.nodes[u].dist == 0 && u != root
    ensures Prev(t.prevs, u) == root
  {
    TreePrev(db, root, t, u);
    PrevIsRouter(db, root, t, u);
    var p := Prev(t.prevs, u);
    if p != root {
      TreePrev(db, root, t, p);
      assert !NetworkName(db, p);
      RouterEdgePositive(db, Hop(Prev(t.prevs, p), t.nodes[p].dist - t.nodes[Prev(t.prevs, p)].dist, p));
    }
  }

  /** A transit network that the router is attached to is routed straight onto it, at distance 0. */
  lemma AttachedIsDirect(db: Db, root: Id, table: Table, i: nat, u: Id)
    requires WellPosed(db, root) && TableOk(db, root, table) && Contiguous(db.networks) && PositiveLinks(db)
    requires Decides(db.networks, i, u) && Unnamed(db, u)
    requires db.networks[i].NetworkLsa? && root in db.networks[i].attachedRouters && db.networks[i].networkMask != 0
    ensures Entry(u, db.networks[i].networkMask, Direct, 0) in table.routes
  {
    var t := table.spf;
    TransitNetworkRouted(db, root, table, i, 0, u);
    EntersNetwork(db, root, i, u);
    assert IsWalk(RouteGraph(db), root, u, Then(Here, root, 0));
    assert Cost(Then(Here, root, 0)) == 0;
    assert RouterName(db, root) && u != root;
    DistanceBound(db, root, t, u, Then(Here, root, 0));
    DistanceIs(db, root, t, u, 0);
    ZeroHasRootBefore(db, root, t, u);
    hide RouteGraph, WellPosed, TableOk, Numbers, Connects, Grounded;
  }
}
