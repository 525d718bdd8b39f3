/**
 Hop-by-hop forwarding when every router has run `update_route` on the same database (RFC 2328, section 16.1): each
 router sends a packet to the next hop of its own routing table, as the table stands after the summaries are spliced in.
 */
module Forwarding {
  import opened Wrappers
  import opened Words
  import opened Lsas
  import opened Graphs
  import opened Dijkstra
  import opened Topology
  import opened RouteSpec
  import opened RouteProof
  import opened RouteTable

  type Tables = map<Id, Table>

  /** Every router with an LSA has a table for this database, whichever of several shortest paths it chose. */
  ghost predicate Converged(db: Db, tables: Tables) {
    forall r :: IsRouter(db.routers, r) ==> r in tables && TableAt(db, r, tables[r])
  }

  ghost predicate TableAt(db: Db, r: Id, table: Table) {
    WellPosed(db, r) && TableOk(db, r, table) && Grounded(table.spf.prevs, r, table.spf.rank)
  }

  /** Point-to-point and transit links cost at least 1. */
  ghost predicate PositiveLinks(db: Db) {
    forall u, l :: HasLink(db.routers, u, l) && (l.linkType == POINT2POINT || l.linkType == TRANSIT) ==> l.metric >= 1
  }

  /** An intra-area network. */
  predicate IsNet(db: Db, n: Id) {
    n in GraphNodes(db) && GraphNodes(db)[n].mask != 0
  }

  /** What the calculation of `r` says; every router has an entry for every node. */
  function DistanceAt(tables: Tables, r: Id, u: Id): nat {
    if r in tables && u in tables[r].spf.nodes then tables[r].spf.nodes[u].dist else 0
  }

  /** Where `r` sends what is meant for `n`. */
  ghost function HopAt(tables: Tables, r: Id, n: Id): NextHop {
    if r in tables && exists e :: e in tables[r].routes && e.dst == n
    then
      var e :| e in tables[r].routes && e.dst == n;
      e.nextHop
    else Unreachable
  }

  /** The same, read off the calculation and the summaries. */
  ghost function PlannedHop(db: Db, tables: Tables, r: Id, n: Id): NextHop
    requires Converged(db, tables) && IsRouter(db.routers, r)
  {
    var t := tables[r].spf;
    match Source(t, r, db.summaries, n)
    case None => if IsNet(db, n) then HopTo(t.prevs, r, t.rank, n) else Unreachable
    case Some(lsa) =>
      if lsa.SummaryLsa? && lsa.networkMask != 0 && lsa.header.advertisingRouter in GraphNodes(db)
      then Top(t.prevs, r, t.rank, lsa.header.advertisingRouter) else Unreachable
  }

  lemma HopAtIsPlanned(db: Db, tables: Tables, r: Id, n: Id)
    requires Converged(db, tables) && IsRouter(db.routers, r)
    ensures HopAt(tables, r, n) == PlannedHop(db, tables, r, n)
  {
    var table, t := tables[r], tables[r].spf;
    assert TableAt(db, r, table);
    RootIsRouter(db, r);
    if e :| e in table.routes && e.dst == n && e.nextHop == HopAt(tables, r, n) {
      RoutesExactly(db, r, table, e);
    } else if PlannedHop(db, tables, r, n) != Unreachable {
      var e := PlannedEntry(db, tables, r, n);
      RoutesExactly(db, r, table, e);
    }
  }

  lemma PlannedEntry(db: Db, tables: Tables, r: Id, n: Id) returns (e: Entry)
    requires Converged(db, tables) && IsRouter(db.routers, r) && PlannedHop(db, tables, r, n) != Unreachable
    ensures TableAt(db, r, tables[r]) && e.dst == n && Expected(db, r, tables[r].spf, e)
  {
    var t := tables[r].spf;
    assert TableAt(db, r, tables[r]);
    RootIsRouter(db, r);
    match Source(t, r, db.summaries, n) {
      case None =>
        UnreachableExactly(db, r, t, n);
        e := Entry(n, GraphNodes(db)[n].mask, HopTo(t.prevs, r, t.rank, n), t.nodes[n].dist);
        DistanceIs(db, r, t, n, e.metric);
      case Some(lsa) =>
        var abr: Id := lsa.header.advertisingRouter;
        e := Entry(n, lsa.networkMask, Top(t.prevs, r, t.rank, abr), t.nodes[abr].dist);
        DistanceIs(db, r, t, abr, e.metric);
    }
  }

  // ----- One hop towards a node

  lemma {:induction false} FirstHopOf(g: iset<Hop<Id>>, a: Id, b: Id, w: Walk<Id>) returns (first: Hop<Id>)
    requires IsWalk(g, a, b, w) && w != Here
    ensures first in g && first.src == a
    decreases w
  {
    var Then(init, u, c) := w;
    if init == Here {
      first := Hop(u, c, b);
    } else {
      first := FirstHopOf(g, a, u, init);
    }
  }

  /** A recorded node with an edge out of it is a router; a router is no network. */
  lemma SourceHasLsa(db: Db, root: Id, h: Hop<Id>)
    requires WellPosed(db, root) && h in RouteGraph(db)
    ensures IsRouter(db.routers, h.src) && !NetworkName(db, h.src)
  {
    SourceIsRouter(db, h);
    GraphNodesAre(db, h.src);
  }

  /** An edge between routers is a point-to-point or transit link. */
  lemma RouterEdgePositive(db: Db, h: Hop<Id>)
    requires h in RouteGraph(db) && PositiveLinks(db) && !NetworkName(db, h.dst)
    ensures h.cost >= 1
  {
    assert CodeEdge(db, h.src, h.cost, h.dst);
    assert Enters(db.networks, h.src, h.dst) ==> IsNetwork(db.networks, h.dst);
    var l :| HasLink(db.routers, h.src, l) && LinkGives(l, db.networks, h.src, h.cost, h.dst);
    assert l.linkType == STUB ==> IsStub(db.routers, h.dst);
  }

  lemma DistanceBound(db: Db, root: Id, t: Spf, n: Id, w: Walk<Id>)
    requires SpfOk(db, root, t) && n in GraphNodes(db) && IsWalk(RouteGraph(db), root, n, w)
    ensures t.nodes[n].dist < UINT32_MAX && t.nodes[n].dist <= Cost(w)
  {
    hide RouteGraph, Tree, GraphNodes;
  }

  lemma DistanceWalk(db: Db, root: Id, t: Spf, n: Id) returns (w: Walk<Id>)
    requires SpfOk(db, root, t) && n in GraphNodes(db) && t.nodes[n].dist < UINT32_MAX
    ensures IsWalk(RouteGraph(db), root, n, w) && Cost(w) == t.nodes[n].dist
  {
    hide RouteGraph, Tree, GraphNodes;
    w :| IsWalk(RouteGraph(db), root, n, w) && Cost(w) == t.nodes[n].dist;
  }

  /** A router, or a node that is not on a link of `r` itself, is reached by way of a nearer router. */
  ghost predicate Remote(db: Db, tables: Tables, r: Id, u: Id) {
    && r in tables && u != r && u in GraphNodes(db) && u in tables[r].spf.rank
    && (IsRouter(db.routers, u) || Prev(tables[r].spf.prevs, u) != r)
  }

  /**
   The router at the top of the walk back from `u` is nearer to `u`, and the edge to it makes up the difference exactly:
   the two tables agree although each was computed from its own root and ties may have been broken differently.
   */
  lemma TopIsNearer(db: Db, tables: Tables, r: Id, u: Id) returns (h: Id)
    requires Converged(db, tables) && PositiveLinks(db) && IsRouter(db.routers, r) && Remote(db, tables, r, u)
    ensures Top(tables[r].spf.prevs, r, tables[r].spf.rank, u) == Via(h)
    ensures Nearer(db, tables, r, u, h) && Connects(RouteGraph(db), r, h) && Connects(RouteGraph(db), h, u)
  {
    var g, t := RouteGraph(db), tables[r].spf;
    assert TableAt(db, r, tables[r]);
    RootIsRouter(db, r);
    var rest: Walk<Id>;
    h, rest := TopIsFirstHop(db, r, t, u);
    TopHasLsa(db, r, h, u, rest);
    assert TableAt(db, h, tables[h]);
    GraphNodesAre(db, h);
    var onward := NearerWalk(db, tables, r, u, h, rest);
  }

  /** From `r` there is an edge to the router `h`, which is nearer to `u` by its cost. */
  ghost predicate Nearer(db: Db, tables: Tables, r: Id, u: Id, h: Id) {
    && IsRouter(db.routers, h) && h in GraphNodes(db)
    && Hop(r, DistanceAt(tables, r, h), h) in RouteGraph(db) && DistanceAt(tables, r, h) >= 1
    && DistanceAt(tables, r, u) == DistanceAt(tables, r, h) + DistanceAt(tables, h, u)
    && DistanceAt(tables, r, u) < UINT32_MAX
  }

  lemma TopHasLsa(db: Db, r: Id, h: Id, u: Id, rest: Walk<Id>)
    requires WellPosed(db, r) && IsWalk(RouteGraph(db), h, u, rest) && (rest == Here ==> IsRouter(db.routers, u))
    ensures IsRouter(db.routers, h) && !NetworkName(db, h)
  {
    if rest == Here {
      assert RouterName(db, u);
    } else {
      var first := FirstHopOf(RouteGraph(db), h, u, rest);
      SourceHasLsa(db, r, first);
    }
  }

  lemma NearerWalk(db: Db, tables: Tables, r: Id, u: Id, h: Id, rest: Walk<Id>) returns (onward: Walk<Id>)
    requires Converged(db, tables) && PositiveLinks(db) && IsRouter(db.routers, r) && u in GraphNodes(db)
    requires IsRouter(db.routers, h) && h in GraphNodes(db) && !NetworkName(db, h)
    requires var t := tables[r].spf;
             && Hop(r, t.nodes[h].dist, h) in RouteGraph(db) && IsWalk(RouteGraph(db), h, u, rest)
             && t.nodes[h].dist + Cost(rest) == t.nodes[u].dist < UINT32_MAX
    ensures Nearer(db, tables, r, u, h) && IsWalk(RouteGraph(db), h, u, onward)
    ensures Connects(RouteGraph(db), r, h)
  {
    var g, t := RouteGraph(db), tables[r].spf;
    assert TableAt(db, r, tables[r]) && TableAt(db, h, tables[h]);
    RouterEdgePositive(db, Hop(r, t.nodes[h].dist, h));
    DistanceBound(db, h, tables[h].spf, u, rest);
    onward := DistanceWalk(db, h, tables[h].spf, u);
    var step := Then(Here, r, t.nodes[h].dist);
    assert IsWalk(g, r, h, step);
    AppendIsWalk(g, r, h, u, step, onward);
    DistanceBound(db, r, t, u, Append(step, onward));
  }

  // ----- Where summaries interfere

  /** A summary for the number `n`. */
  predicate Names(lsa: Lsa, n: Id) {
    lsa.SummaryLsa? && lsa.header.linkStateId == n
  }

  /** The routers that advertise summaries for `n` have LSAs themselves. */
  ghost predicate Recorded(db: Db, n: Id) {
    forall lsa | lsa in db.summaries && Names(lsa, n) :: IsRouter(db.routers, lsa.header.advertisingRouter)
  }

  /** The last summary for `n` whose advertising router can be reached from `r`, or is `r`. */
  ghost function Attractor(db: Db, summaries: seq<Lsa>, r: Id, n: Id): (lsa: Option<Lsa>)
    ensures lsa.Some? ==>
              lsa.value in summaries && Names(lsa.value, n) && Connects(RouteGraph(db), r, lsa.value.header.advertisingRouter)
  {
    if summaries == [] then None
    else
      var last := summaries[|summaries| - 1];
      if Names(last, n) && Connects(RouteGraph(db), r, last.header.advertisingRouter) then Some(last)
      else Attractor(db, summaries[..|summaries| - 1], r, n)
  }

  /** No summary for `n` comes from within reach of `r`; in particular if there is none at all. */
  ghost predicate Unsummarised(db: Db, r: Id, n: Id) {
    Recorded(db, n) && Attractor(db, db.summaries, r, n) == None
  }

  lemma {:induction false} UnnamedHasNoAttractor(db: Db, summaries: seq<Lsa>, r: Id, n: Id)
    requires forall lsa | lsa in summaries :: !Names(lsa, n)
    ensures Attractor(db, summaries, r, n) == None
  {
    if summaries != [] {
      var k := |summaries| - 1;
      assert summaries[k] in summaries;
      UnnamedHasNoAttractor(db, summaries[..k], r, n);
    }
  }

  lemma {:induction false} ConnectsOn(db: Db, a: Id, b: Id, c: Id)
    requires Connects(RouteGraph(db), a, b) && Connects(RouteGraph(db), b, c)
    ensures Connects(RouteGraph(db), a, c)
  {
    hide RouteGraph;
    var v :| IsWalk(RouteGraph(db), a, b, v);
    var w :| IsWalk(RouteGraph(db), b, c, w);
    AppendIsWalk(RouteGraph(db), a, b, c, v, w);
  }

  /** On the way the attractor stays the same, as long as its router can still be reached; none stays none. */
  lemma {:induction false} AttractorStays(db: Db, summaries: seq<Lsa>, r: Id, x: Id, n: Id)
    requires Connects(RouteGraph(db), r, x)
    ensures var from := Attractor(db, summaries, r, n);
            && (from == None ==> Attractor(db, summaries, x, n) == None)
            && (from.Some? && Connects(RouteGraph(db), x, from.value.header.advertisingRouter) ==>
                  Attractor(db, summaries, x, n) == from)
  {
    hide RouteGraph, Connects;
    if summaries != [] {
      var k := |summaries| - 1;
      AttractorStays(db, summaries[..k], r, x, n);
      var a: Id := summaries[k].header.advertisingRouter;
      if Connects(RouteGraph(db), x, a) {
        ConnectsOn(db, r, x, a);
      }
    }
  }

  /** Where the attractor is another router's, its summary is the one that decides; where there is none, none does. */
  lemma {:induction false} AttractorDecides(db: Db, table: Table, x: Id, n: Id, summaries: seq<Lsa>)
    requires TableAt(db, x, table)
    requires forall lsa | lsa in summaries && Names(lsa, n) :: IsRouter(db.routers, lsa.header.advertisingRouter)
    ensures var lsa := Attractor(db, summaries, x, n);
            && (lsa == None ==> Source(table.spf, x, summaries, n) == None)
            && (lsa.Some? && lsa.value.header.advertisingRouter != x ==> Source(table.spf, x, summaries, n) == lsa)
  {
    hide TableAt, RouteGraph, Connects, IsRouter, Effective;
    if summaries != [] {
      var k := |summaries| - 1;
      assert summaries[k] in summaries;
      AttractorDecides(db, table, x, n, summaries[..k]);
      if Names(summaries[k], n) {
        EffectiveExactly(db, table, x, summaries[k]);
      } else if Effective(table.spf, x, summaries[k]) {
        EffectiveIsSummary(table.spf, x, summaries[k]);
      }
    }
  }

  lemma EffectiveIsSummary(t: Spf, root: Id, lsa: Lsa)
    requires Effective(t, root, lsa)
    ensures lsa.SummaryLsa?
  {
  }

  /** A summary is spliced in exactly where its advertising router, another one, can be reached. */
  lemma EffectiveExactly(db: Db, table: Table, x: Id, lsa: Lsa)
    requires TableAt(db, x, table) && lsa.SummaryLsa? && IsRouter(db.routers, lsa.header.advertisingRouter)
    ensures Effective(table.spf, x, lsa) <==>
              lsa.header.advertisingRouter != x && Connects(RouteGraph(db), x, lsa.header.advertisingRouter)
  {
    var abr: Id := lsa.header.advertisingRouter;
    GraphNodesAre(db, abr);
    DistanceIs(db, x, table.spf, abr, 0);
    hide RouteGraph, GraphNodes, Connects;
  }

  // ----- One hop towards a network

  /** Without interference the hop is the one of the calculation. */
  lemma PlainHop(db: Db, tables: Tables, r: Id, n: Id)
    requires Converged(db, tables) && IsRouter(db.routers, r) && IsNet(db, n) && Unsummarised(db, r, n)
    ensures TableAt(db, r, tables[r])
    ensures HopAt(tables, r, n) == HopTo(tables[r].spf.prevs, r, tables[r].spf.rank, n)
  {
    assert TableAt(db, r, tables[r]);
    HopAtIsPlanned(db, tables, r, n);
    AttractorDecides(db, tables[r], r, n, db.summaries);
    hide HopAt, HopTo, IsNet;
  }

  /** What the hop of the calculation says about the network. */
  lemma CalculatedHopIs(db: Db, r: Id, t: Spf, n: Id)
    requires WellPosed(db, r) && SpfOk(db, r, t) && Grounded(t.prevs, r, t.rank) && IsNet(db, n)
    ensures n != r
    ensures HopTo(t.prevs, r, t.rank, n) == Unreachable <==> !Connects(RouteGraph(db), r, n)
    ensures HopTo(t.prevs, r, t.rank, n) == Direct ==> n in t.nodes && Hop(r, t.nodes[n].dist, n) in RouteGraph(db)
    ensures HopTo(t.prevs, r, t.rank, n).Via? ==> n in t.rank && Prev(t.prevs, n) != r
  {
    RootIsRouter(db, r);
    UnreachableExactly(db, r, t, n);
    TreePrev(db, r, t, n);
    RootAtZero(db, r, t);
    if n in t.rank {
      var h, rest := TopIsFirstHop(db, r, t, n);
    }
    hide RouteGraph, Connects, SpfOk, WellPosed, GraphNodes;
    assert Prev(t.prevs, n) == r ==> Hop(r, t.nodes[n].dist - 0, n) in RouteGraph(db);
  }

  lemma RootAtZero(db: Db, r: Id, t: Spf)
    requires SpfOk(db, r, t)
    ensures r in t.nodes && t.nodes[r].dist == 0
  {
    hide RouteGraph, GraphNodes;
  }

  lemma PlainHopIs(db: Db, tables: Tables, r: Id, n: Id)
    requires Converged(db, tables) && IsRouter(db.routers, r) && IsNet(db, n) && Unsummarised(db, r, n)
    ensures HopAt(tables, r, n) == Unreachable <==> !Connects(RouteGraph(db), r, n)
    ensures HopAt(tables, r, n) == Direct ==> Hop(r, DistanceAt(tables, r, n), n) in RouteGraph(db)
    ensures HopAt(tables, r, n).Via? ==> Remote(db, tables, r, n)
  {
    PlainHop(db, tables, r, n);
    CalculatedHopIs(db, r, tables[r].spf, n);
    assert r in tables;
    hide HopAt, HopTo, RouteGraph, Connects, Converged, TableAt, Unsummarised;
  }

  /** The next hop is nearer to the network, by exactly the edge to it, and summaries interfere there no more than here. */
  lemma NextHopIsNearer(db: Db, tables: Tables, r: Id, n: Id, h: Id)
    requires Converged(db, tables) && PositiveLinks(db) && IsRouter(db.routers, r) && IsNet(db, n)
    requires Unsummarised(db, r, n) && HopAt(tables, r, n) == Via(h)
    ensures Nearer(db, tables, r, n, h) && IsRouter(db.routers, h) && Unsummarised(db, h, n)
    ensures DistanceAt(tables, h, n) < DistanceAt(tables, r, n)
    ensures Connects(RouteGraph(db), r, h) && Connects(RouteGraph(db), h, n)
  {
    PlainHop(db, tables, r, n);
    PlainHopIs(db, tables, r, n);
    var h' := TopIsNearer(db, tables, r, n);
    assert h' == h;
    AttractorStays(db, db.summaries, r, h, n);
  }

  // ----- The whole way

  /** The routers that a packet for `n` visits from `r` on, up to `k` hops. */
  ghost function Route(tables: Tables, r: Id, n: Id, k: nat): (path: seq<Id>)
    ensures 0 < |path| <= k + 1 && path[0] == r
    decreases k
  {
    match HopAt(tables, r, n)
    case Via(h) => if k == 0 then [r] else [r] + Route(tables, h, n, k - 1)
    case _ => [r]
  }

  /** Within `k` hops the packet comes to a router that sends it straight onto the network. */
  ghost predicate Arrives(tables: Tables, r: Id, n: Id, k: nat)
    decreases k
  {
    match HopAt(tables, r, n)
    case Direct => true
    case Via(h) => k > 0 && Arrives(tables, h, n, k - 1)
    case Unreachable => false
  }

  lemma RouteContinues(tables: Tables, r: Id, n: Id, k: nat, h: Id)
    requires HopAt(tables, r, n) == Via(h) && k > 0
    ensures Route(tables, r, n, k) == [r] + Route(tables, h, n, k - 1)
    ensures Arrives(tables, r, n, k) <==> Arrives(tables, h, n, k - 1)
  {
    hide HopAt;
  }

  lemma RouteEnds(tables: Tables, r: Id, n: Id, k: nat)
    requires !HopAt(tables, r, n).Via?
    ensures Route(tables, r, n, k) == [r] && (Arrives(tables, r, n, k) <==> HopAt(tables, r, n) == Direct)
  {
    hide HopAt;
  }

  ghost predicate Delivered(tables: Tables, r: Id, n: Id) {
    exists k: nat :: Arrives(tables, r, n, k)
  }

  /** All on the path are routers, each strictly nearer to `n` than every one before it. */
  ghost predicate Descends(db: Db, tables: Tables, path: seq<Id>, n: Id) {
    && (forall i | 0 <= i < |path| :: IsRouter(db.routers, path[i]))
    && (forall i, j | 0 <= i < j < |path| :: DistanceAt(tables, path[j], n) < DistanceAt(tables, path[i], n))
  }

  lemma DescendsCons(db: Db, tables: Tables, r: Id, rest: seq<Id>, n: Id)
    requires IsRouter(db.routers, r) && rest != []
    requires Descends(db, tables, rest, n) && DistanceAt(tables, rest[0], n) < DistanceAt(tables, r, n)
    ensures Descends(db, tables, [r] + rest, n)
  {
    hide DistanceAt, IsRouter;
    var path := [r] + rest;
    assert forall i | 0 < i < |path| :: path[i] == rest[i - 1];
  }

  /** What the hops along a path cost. */
  function Travelled(tables: Tables, path: seq<Id>): nat {
    if |path| <= 1 then 0 else DistanceAt(tables, path[0], path[1]) + Travelled(tables, path[1..])
  }

  lemma TravelledCons(tables: Tables, r: Id, rest: seq<Id>)
    requires rest != []
    ensures Travelled(tables, [r] + rest) == DistanceAt(tables, r, rest[0]) + Travelled(tables, rest)
  {
    assert ([r] + rest)[1..] == rest;
  }

  /** The whole way within `k` hops: ever nearer to the network, at the cost that the distances say, to a router on it. */
  ghost predicate ShortestWay(db: Db, tables: Tables, path: seq<Id>, n: Id) {
    && path != [] && Descends(db, tables, path, n)
    && var last := path[|path| - 1];
       && HopAt(tables, last, n) == Direct && Hop(last, DistanceAt(tables, last, n), n) in RouteGraph(db)
       && DistanceAt(tables, path[0], n) == Travelled(tables, path) + DistanceAt(tables, last, n)
  }

  lemma WayCons(db: Db, tables: Tables, r: Id, n: Id, rest: seq<Id>)
    requires IsRouter(db.routers, r)
    requires ShortestWay(db, tables, rest, n) && Nearer(db, tables, r, n, rest[0])
    ensures ShortestWay(db, tables, [r] + rest, n)
  {
    DescendsCons(db, tables, r, rest, n);
    TravelledCons(tables, r, rest);
    hide GraphNodes, IsRouter, DistanceAt, Travelled, HopAt, RouteGraph, Descends;
    var path := [r] + rest;
    assert path[|path| - 1] == rest[|rest| - 1];
  }

  lemma EndIsWay(db: Db, tables: Tables, r: Id, n: Id)
    requires IsRouter(db.routers, r) && HopAt(tables, r, n) == Direct && Hop(r, DistanceAt(tables, r, n), n) in RouteGraph(db)
    ensures ShortestWay(db, tables, [r], n)
  {
    hide RouteGraph, HopAt, IsRouter, DistanceAt;
  }

  lemma {:induction false} WayIsShortest(db: Db, tables: Tables, r: Id, n: Id, k: nat)
    requires Converged(db, tables) && PositiveLinks(db) && IsRouter(db.routers, r) && IsNet(db, n)
    requires Unsummarised(db, r, n) && Connects(RouteGraph(db), r, n) && DistanceAt(tables, r, n) <= k
    ensures ShortestWay(db, tables, Route(tables, r, n, k), n) && Arrives(tables, r, n, k)
    decreases k
  {
    PlainHopIs(db, tables, r, n);
    hide Converged, PositiveLinks, IsNet, Unsummarised, DistanceAt, HopAt, RouteGraph, Connects, GraphNodes, IsRouter;
    hide Nearer, ShortestWay, Remote, Route, Arrives;
    if h :| HopAt(tables, r, n) == Via(h) {
      NextHopIsNearer(db, tables, r, n, h);
      RouteContinues(tables, r, n, k, h);
      WayIsShortest(db, tables, h, n, k - 1);
      WayCons(db, tables, r, n, Route(tables, h, n, k - 1));
    } else {
      EndIsWay(db, tables, r, n);
      RouteEnds(tables, r, n, k);
    }
  }

  /**
   Forwarding is loop free, delivers, and takes a shortest way: a packet for a network arrives if and only if the network
   can be reached; on the way every router is strictly nearer than all before it, the hops cost what the first router's
   table says, and the last router is on the network. A router that cannot reach the network has no route to it.
   */
  lemma ForwardingDelivers(db: Db, tables: Tables, r: Id, n: Id)
    requires Converged(db, tables) && PositiveLinks(db) && IsRouter(db.routers, r) && IsNet(db, n) && Unsummarised(db, r, n)
    ensures Delivered(tables, r, n) <==> Connects(RouteGraph(db), r, n)
    ensures Connects(RouteGraph(db), r, n) ==>
              ShortestWay(db, tables, Route(tables, r, n, DistanceAt(tables, r, n)), n)
    ensures !Connects(RouteGraph(db), r, n) ==> HopAt(tables, r, n) == Unreachable
  {
    hide Converged, PositiveLinks, IsNet, Unsummarised, HopAt, RouteGraph, Connects, GraphNodes, IsRouter;
    if Connects(RouteGraph(db), r, n) {
      WayIsShortest(db, tables, r, n, DistanceAt(tables, r, n));
    } else {
      PlainHopIs(db, tables, r, n);
    }
  }
}
