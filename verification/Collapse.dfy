/**
 The graph of RFC 2328, section 16.1, in which transit networks are vertices of their own, compared with the graph of the
 code, which joins the routers of a network directly.
 */
module Collapse {
  import opened Words
  import opened Lsas
  import opened Graphs
  import opened Dijkstra
  import opened Topology
  import opened RouteSpec
  import F = Forwarding

  datatype Vertex = Router(id: Id) | Network(lsId: uint32)

  // ----- The graph of the standard

  ghost predicate Attached(nets: seq<Lsa>, lsId: uint32, r: Id) {
    exists i :: 0 <= i < |nets| && nets[i].NetworkLsa? && nets[i].header.linkStateId == lsId && r in nets[i].attachedRouters
  }

  ghost predicate LinksTo(routers: seq<Lsa>, u: Id, linkType: uint8, linkId: Id) {
    exists l :: HasLink(routers, u, l) && l.linkType == linkType && l.linkId == linkId
  }

  /** An edge counts only if the other end's LSA links back. */
  ghost predicate RfcEdge(db: Db, h: Hop<Vertex>) {
    match h
    case Hop(Router(u), c, Router(v)) =>
      && (exists l :: HasLink(db.routers, u, l) && l.linkType == POINT2POINT && l.linkId == v && l.metric == c)
      && LinksTo(db.routers, v, POINT2POINT, u)
    case Hop(Router(u), c, Network(n)) =>
      && (exists l :: HasLink(db.routers, u, l) && l.linkType == TRANSIT && l.linkId == n && l.metric == c)
      && Attached(db.networks, n, u)
    case Hop(Network(n), c, Router(v)) =>
      c == 0 && Attached(db.networks, n, v) && LinksTo(db.routers, v, TRANSIT, n)
    case _ => false
  }

  ghost function RfcGraph(db: Db): iset<Hop<Vertex>> {
    iset h: Hop<Vertex> | RfcEdge(db, h)
  }

  /** Every link is described from both ends. */
  ghost predicate BothEnds(db: Db) {
    && (forall u, l :: HasLink(db.routers, u, l) && l.linkType == POINT2POINT ==>
          LinksTo(db.routers, l.linkId, POINT2POINT, u))
    && (forall u, l :: HasLink(db.routers, u, l) && l.linkType == TRANSIT && FindNetwork(db.networks, l.linkId).Some? ==>
          Attached(db.networks, l.linkId, u))
    && (forall n: uint32, v :: Attached(db.networks, n, v) ==> LinksTo(db.routers, v, TRANSIT, n))
  }

  ghost predicate UniqueNetworks(nets: seq<Lsa>) {
    && (forall i | 0 <= i < |nets| :: nets[i].NetworkLsa?)
    && (forall i, j | 0 <= i < j < |nets| :: nets[i].header.linkStateId != nets[j].header.linkStateId)
  }

  /** With unique ids the first network LSA found is the only one. */
  lemma AttachesIsAttached(nets: seq<Lsa>, lsId: uint32, r: Id)
    requires UniqueNetworks(nets)
    ensures Attaches(nets, lsId, r) <==> Attached(nets, lsId, r)
  {
    FindNetworkIsFirst(nets, lsId);
  }

  // ----- From the code's walks to the standard's, and back

  /** The edge between routers comes from a link that the other end describes too. */
  ghost predicate Described(db: Db, h: Hop<Id>) {
    || (exists l :: HasLink(db.routers, h.src, l) && l.linkType == POINT2POINT && l.linkId == h.dst && l.metric == h.cost
          && LinksTo(db.routers, h.dst, POINT2POINT, h.src))
    || (exists l :: HasLink(db.routers, h.src, l) && l.linkType == TRANSIT && l.metric == h.cost
          && Attached(db.networks, l.linkId, h.src) && Attached(db.networks, l.linkId, h.dst)
          && LinksTo(db.routers, h.dst, TRANSIT, l.linkId))
  }

  /** The standard has a walk that makes up for the edge. */
  ghost predicate Backed(db: Db, h: Hop<Id>) {
    exists w :: IsWalk(RfcGraph(db), Router(h.src), Router(h.dst), w) && Cost(w) <= h.cost
  }

  ghost predicate RouterEdge(db: Db, h: Hop<Id>) {
    h in RouteGraph(db) && IsRouter(db.routers, h.dst)
  }

  lemma DescribedIsBacked(db: Db, h: Hop<Id>)
    requires Described(db, h)
    ensures Backed(db, h)
  {
    var w;
    if LinksTo(db.routers, h.dst, POINT2POINT, h.src)
       && exists l :: HasLink(db.routers, h.src, l) && l.linkType == POINT2POINT && l.linkId == h.dst && l.metric == h.cost {
      assert RfcEdge(db, Hop(Router(h.src), h.cost, Router(h.dst)));
      w := Then(Here, Router(h.src), h.cost);
      assert Cost(w) == Cost<Vertex>(Here) + h.cost;
    } else {
      var l :| HasLink(db.routers, h.src, l) && l.linkType == TRANSIT && l.metric == h.cost
               && Attached(db.networks, l.linkId, h.src) && Attached(db.networks, l.linkId, h.dst)
               && LinksTo(db.routers, h.dst, TRANSIT, l.linkId);
      assert RfcEdge(db, Hop(Router(h.src), h.cost, Network(l.linkId)));
      assert RfcEdge(db, Hop(Network(l.linkId), 0, Router(h.dst)));
      var first := Then(Here, Router(h.src), h.cost);
      assert Cost(first) == Cost<Vertex>(Here) + h.cost && IsWalk(RfcGraph(db), Router(h.src), Network(l.linkId), first);
      w := Then(first, Network(l.linkId), 0);
      assert Cost(w) == Cost(first) + 0;
    }
    assert IsWalk(RfcGraph(db), Router(h.src), Router(h.dst), w);
  }

  /** When every link is described from both ends, every edge between routers is. */
  lemma BothEndsDescribe(db: Db, root: Id, h: Hop<Id>)
    requires WellPosed(db, root) && BothEnds(db) && UniqueNetworks(db.networks) && RouterEdge(db, h)
    ensures Described(db, h)
  {
    assert RouterName(db, h.dst) && !NetworkName(db, h.dst);
    assert !Enters(db.networks, h.src, h.dst) by {
      assert Enters(db.networks, h.src, h.dst) ==> IsNetwork(db.networks, h.dst);
    }
    var l :| HasLink(db.routers, h.src, l) && LinkGives(l, db.networks, h.src, h.cost, h.dst);
    assert l.linkType == STUB ==> IsStub(db.routers, h.dst);
    if l.linkType == TRANSIT {
      AttachesIsAttached(db.networks, l.linkId, h.src);
      AttachesIsAttached(db.networks, l.linkId, h.dst);
    }
  }

  lemma {:induction false} CodeWalkLifts(db: Db, root: Id, a: Id, b: Id, w: Walk<Id>) returns (w': Walk<Vertex>)
    requires WellPosed(db, root) && forall h | RouterEdge(db, h) :: Backed(db, h)
    requires IsRouter(db.routers, b) && IsWalk(RouteGraph(db), a, b, w)
    ensures IsWalk(RfcGraph(db), Router(a), Router(b), w') && Cost(w') <= Cost(w)
    decreases w
  {
    hide WellPosed, RouteGraph, RfcGraph;
    match w {
      case Here => w' := Here;
      case Then(init, u, c) =>
        F.SourceHasLsa(db, root, Hop(u, c, b));
        var lifted := CodeWalkLifts(db, root, a, u, init);
        assert RouterEdge(db, Hop(u, c, b));
        var last :| IsWalk(RfcGraph(db), Router(u), Router(b), last) && Cost(last) <= c;
        AppendIsWalk(RfcGraph(db), Router(a), Router(u), Router(b), lifted, last);
        w' := Append(lifted, last);
    }
  }

  lemma LinkInCode(db: Db, u: Id, l: Link, v: Id)
    requires HasLink(db.routers, u, l) && IsRouter(db.routers, v) && LinkGives(l, db.networks, u, l.metric, v)
    ensures Hop(u, l.metric, v) in RouteGraph(db)
  {
    GraphNodesAre(db, u);
    GraphNodesAre(db, v);
    hide GraphNodes;
    assert IsRouter(db.routers, u);
  }

  /** A walk of the standard has a walk of the code that costs no more: leaving a network where it was entered is dropped. */
  lemma {:induction false} RfcWalkCollapses(db: Db, a: Id, b: Id, w: Walk<Vertex>) returns (w': Walk<Id>)
    requires UniqueNetworks(db.networks) && IsRouter(db.routers, b) && IsWalk(RfcGraph(db), Router(a), Router(b), w)
    ensures IsWalk(RouteGraph(db), a, b, w') && Cost(w') <= Cost(w)
    decreases w
  {
    match w {
      case Here => w' := Here;
      case Then(init, Router(u), c) =>
        var l :| HasLink(db.routers, u, l) && l.linkType == POINT2POINT && l.linkId == b && l.metric == c;
        LinkInCode(db, u, l, b);
        var short := RfcWalkCollapses(db, a, u, init);
        w' := Then(short, u, c);
      case Then(Then(init, Router(u), c), Network(n), _) =>
        var l :| HasLink(db.routers, u, l) && l.linkType == TRANSIT && l.linkId == n && l.metric == c;
        var short := RfcWalkCollapses(db, a, u, init);
        if u == b {
          w' := short;
        } else {
          AttachesIsAttached(db.networks, n, b);
          LinkInCode(db, u, l, b);
          w' := Then(short, u, c);
        }
    }
  }

  // ----- When both graphs give the same distances

  lemma BackedKeepsDistances(db: Db, root: Id, a: Id, b: Id, d: nat)
    requires WellPosed(db, root) && UniqueNetworks(db.networks) && IsRouter(db.routers, b)
    requires forall h | RouterEdge(db, h) :: Backed(db, h)
    ensures IsDistance(RouteGraph(db), a, b, d) <==> IsDistance(RfcGraph(db), Router(a), Router(b), d)
    ensures Connects(RouteGraph(db), a, b) <==> Connects(RfcGraph(db), Router(a), Router(b))
  {
    hide RouteGraph, RfcGraph, WellPosed, UniqueNetworks;
    forall w | IsWalk(RouteGraph(db), a, b, w)
      ensures exists w' :: IsWalk(RfcGraph(db), Router(a), Router(b), w') && Cost(w') <= Cost(w)
    {
      var w' := CodeWalkLifts(db, root, a, b, w);
    }
    forall w | IsWalk(RfcGraph(db), Router(a), Router(b), w)
      ensures exists w' :: IsWalk(RouteGraph(db), a, b, w') && Cost(w') <= Cost(w)
    {
      var w' := RfcWalkCollapses(db, a, b, w);
    }
    SameDistances(RouteGraph(db), a, b, RfcGraph(db), Router(a), Router(b), d);
  }

  /** The code and the standard agree about all distances between routers. */
  ghost predicate Agree(db: Db) {
    forall a, b, d | IsRouter(db.routers, a) && IsRouter(db.routers, b) ::
      IsDistance(RouteGraph(db), a, b, d) <==> IsDistance(RfcGraph(db), Router(a), Router(b), d)
  }

  /**
   Collapsing transit networks keeps all distances between routers if and only if every edge between routers that is not
   described from both ends is made up for by a walk of the standard that costs no more.
   */
  lemma AgreeExactly(db: Db, root: Id)
    requires WellPosed(db, root) && UniqueNetworks(db.networks)
    ensures Agree(db) <==> forall h | RouterEdge(db, h) && !Described(db, h) :: Backed(db, h)
  {
    hide RouteGraph, RfcGraph, WellPosed, UniqueNetworks, Described, Backed;
    forall h | RouterEdge(db, h) && Agree(db)
      ensures Backed(db, h)
    {
      AgreeingIsBacked(db, root, h);
    }
    if forall h | RouterEdge(db, h) && !Described(db, h) :: Backed(db, h) {
      forall h | RouterEdge(db, h)
        ensures Backed(db, h)
      {
        if Described(db, h) {
          DescribedIsBacked(db, h);
        }
      }
      forall a, b, d: nat | IsRouter(db.routers, a) && IsRouter(db.routers, b)
        ensures IsDistance(RouteGraph(db), a, b, d) <==> IsDistance(RfcGraph(db), Router(a), Router(b), d)
      {
        BackedKeepsDistances(db, root, a, b, d);
      }
    }
  }

  lemma AgreeingIsBacked(db: Db, root: Id, h: Hop<Id>)
    requires WellPosed(db, root) && RouterEdge(db, h) && Agree(db)
    ensures Backed(db, h)
  {
    F.SourceHasLsa(db, root, h);
    assert Hop(h.src, h.cost, h.dst) == h;
    hide WellPosed, RouteGraph, RfcGraph;
    var d := DistanceExists(RouteGraph(db), h.src, h.dst, Then(Here, h.src, h.cost));
    assert IsDistance(RfcGraph(db), Router(h.src), Router(h.dst), d);
  }

  /** With every link described from both ends, collapsing transit networks keeps the distances between routers. */
  lemma CollapseKeepsDistances(db: Db, root: Id, a: Id, b: Id, d: nat)
    requires WellPosed(db, root) && BothEnds(db) && UniqueNetworks(db.networks) && IsRouter(db.routers, b)
    ensures IsDistance(RouteGraph(db), a, b, d) <==> IsDistance(RfcGraph(db), Router(a), Router(b), d)
    ensures Connects(RouteGraph(db), a, b) <==> Connects(RfcGraph(db), Router(a), Router(b))
    ensures Agree(db)
  {
    hide RouteGraph, RfcGraph, WellPosed, BothEnds, UniqueNetworks, Described, Backed;
    forall h | RouterEdge(db, h)
      ensures Described(db, h) && Backed(db, h)
    {
      BothEndsDescribe(db, root, h);
      DescribedIsBacked(db, h);
    }
    AgreeExactly(db, root);
    BackedKeepsDistances(db, root, a, b, d);
  }

  /** So the distances that the calculation finds for routers are those of the standard. */
  lemma SpfFindsRfcDistances(db: Db, root: Id, t: Spf, r: Id)
    requires WellPosed(db, root) && BothEnds(db) && UniqueNetworks(db.networks) && SpfOk(db, root, t)
    requires IsRouter(db.routers, r)
    ensures r in t.nodes
    ensures if t.nodes[r].dist == UINT32_MAX then !Connects(RfcGraph(db), Router(root), Router(r))
            else IsDistance(RfcGraph(db), Router(root), Router(r), t.nodes[r].dist)
  {
    GraphNodesAre(db, r);
    CollapseKeepsDistances(db, root, root, r, t.nodes[r].dist);
    hide RouteGraph, RfcGraph, WellPosed, BothEnds, UniqueNetworks, GraphNodes, Tree;
  }

  /**
   The condition on both ends matters: a router that describes no links is reached by the code over a neighbor's one-way
   point-to-point link, while the standard does not reach it.
   */
  lemma OneWayLinkDiffers(db: Db, u: Id, l: Link, v: Id)
    requires HasLink(db.routers, u, l) && l.linkType == POINT2POINT && l.linkId == v && u != v && IsRouter(db.routers, v)
    requires forall m :: !HasLink(db.routers, v, m)
    ensures Connects(RouteGraph(db), u, v) && !Connects(RfcGraph(db), Router(u), Router(v))
  {
    LinkInCode(db, u, l, v);
    assert IsWalk(RouteGraph(db), u, v, Then(Here, u, l.metric));
    forall w
      ensures !IsWalk(RfcGraph(db), Router(u), Router(v), w)
    {
      if IsWalk(RfcGraph(db), Router(u), Router(v), w) {
        WalkEndHasLink(db, u, v, w);
      }
    }
  }

  lemma WalkEndHasLink(db: Db, u: Id, v: Id, w: Walk<Vertex>)
    requires IsWalk(RfcGraph(db), Router(u), Router(v), w) && u != v
    ensures exists m :: HasLink(db.routers, v, m)
  {
    var Then(_, x, c) := w;
    assert RfcEdge(db, Hop(x, c, Router(v)));
  }
}
