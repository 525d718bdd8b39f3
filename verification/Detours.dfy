/**
 What forwarding does for a number that summaries name. The code lets the last summary overwrite the intra-area node, so
 that packets are drawn to the router that advertises it; that router itself ignores its own summary.
 */
module Detours {
  import opened Wrappers
  import opened Lsas
  import opened Graphs
  import opened Dijkstra
  import opened Topology
  import opened RouteSpec
  import opened RouteTable
  import opened Forwarding

  // ----- One hop

  /** A packet that goes on goes along an edge, to another router. */
  lemma HopIsEdge(db: Db, tables: Tables, r: Id, n: Id, h: Id)
    requires Converged(db, tables) && PositiveLinks(db) && IsRouter(db.routers, r) && HopAt(tables, r, n) == Via(h)
    ensures IsRouter(db.routers, h) && h != r && Connects(RouteGraph(db), r, h)
    ensures Source(tables[r].spf, r, db.summaries, n) == None ==> IsNet(db, n) && Connects(RouteGraph(db), h, n)
  {
    HopAtIsPlanned(db, tables, r, n);
    var t := tables[r].spf;
    assert TableAt(db, r, tables[r]);
    RootIsRouter(db, r);
    match Source(t, r, db.summaries, n)
    case None =>
      CalculatedHopIs(db, r, t, n);
      GoesNearer(db, tables, r, n, h);
    case Some(lsa) =>
      SummaryGoesNearer(db, tables, r, lsa);
      GoesNearer(db, tables, r, lsa.header.advertisingRouter, h);
  }

  lemma GoesNearer(db: Db, tables: Tables, r: Id, u: Id, h: Id)
    requires Converged(db, tables) && PositiveLinks(db) && IsRouter(db.routers, r) && Remote(db, tables, r, u)
    requires TableAt(db, r, tables[r]) && Top(tables[r].spf.prevs, r, tables[r].spf.rank, u) == Via(h)
    ensures Nearer(db, tables, r, u, h) && h != r
    ensures Connects(RouteGraph(db), r, h) && Connects(RouteGraph(db), h, u)
  {
    var h' := TopIsNearer(db, tables, r, u);
    RootAtZero(db, r, tables[r].spf);
  }

  lemma SummaryGoesNearer(db: Db, tables: Tables, r: Id, lsa: Lsa)
    requires Converged(db, tables) && IsRouter(db.routers, r) && Effective(tables[r].spf, r, lsa)
    requires lsa in db.summaries && lsa.header.advertisingRouter in GraphNodes(db)
    ensures Remote(db, tables, r, lsa.header.advertisingRouter)
  {
    var a: Id := lsa.header.advertisingRouter;
    var i :| 0 <= i < |db.summaries| && db.summaries[i] == lsa;
    assert TableAt(db, r, tables[r]);
    assert RouterName(db, a) && !NetworkName(db, a);
    GraphNodesAre(db, a);
    DistanceIs(db, r, tables[r].spf, a, 0);
    hide RouteGraph, GraphNodes;
  }

  /** Elsewhere than at the attractor, a packet moves nearer to it, or is dropped for want of a mask. */
  lemma DrawnNearer(db: Db, tables: Tables, r: Id, n: Id, lsa: Lsa) returns (h: Id)
    requires Converged(db, tables) && PositiveLinks(db) && IsRouter(db.routers, r) && Recorded(db, n)
    requires Attractor(db, db.summaries, r, n) == Some(lsa) && lsa.header.advertisingRouter != r
    ensures lsa.SummaryLsa?
    ensures lsa.networkMask == 0 ==> HopAt(tables, r, n) == Unreachable
    ensures lsa.networkMask != 0 ==>
              && HopAt(tables, r, n) == Via(h) && IsRouter(db.routers, h)
              && Attractor(db, db.summaries, h, n) == Some(lsa)
              && DistanceAt(tables, h, lsa.header.advertisingRouter) < DistanceAt(tables, r, lsa.header.advertisingRouter)
  {
    var a: Id := lsa.header.advertisingRouter;
    assert TableAt(db, r, tables[r]);
    AttractorDecides(db, tables[r], r, n, db.summaries);
    HopAtIsPlanned(db, tables, r, n);
    GraphNodesAre(db, a);
    SummaryGoesNearer(db, tables, r, lsa);
    hide HopAt, RouteGraph, GraphNodes, Connects, IsRouter, Effective, Source;
    h := TopIsNearer(db, tables, r, a);
    AttractorStays(db, db.summaries, r, h, n);
  }

  // ----- The way to the attractor, and back

  /** What arrives comes by the attractor. */
  lemma {:induction false} ComesBy(db: Db, tables: Tables, r: Id, n: Id, lsa: Lsa, k: nat) returns (j: nat)
    requires Converged(db, tables) && PositiveLinks(db) && IsRouter(db.routers, r) && Recorded(db, n)
    requires Attractor(db, db.summaries, r, n) == Some(lsa) && Arrives(tables, r, n, k)
    ensures j <= k && Arrives(tables, lsa.header.advertisingRouter, n, j)
    ensures lsa.header.advertisingRouter != r ==> lsa.SummaryLsa? && lsa.networkMask != 0
    decreases k
  {
    hide Converged, PositiveLinks, Recorded, IsRouter, HopAt;
    j := k;
    if lsa.header.advertisingRouter != r {
      var h := DrawnNearer(db, tables, r, n, lsa);
      j := ComesBy(db, tables, h, n, lsa, k - 1);
    }
  }

  /** What arrives from the attractor arrives from wherever it is drawn. */
  lemma {:induction false} GoesOn(db: Db, tables: Tables, r: Id, n: Id, lsa: Lsa, j: nat) returns (k: nat)
    requires Converged(db, tables) && PositiveLinks(db) && IsRouter(db.routers, r) && Recorded(db, n)
    requires Attractor(db, db.summaries, r, n) == Some(lsa) && lsa.SummaryLsa? && lsa.networkMask != 0
    requires Arrives(tables, lsa.header.advertisingRouter, n, j)
    ensures Arrives(tables, r, n, k)
    decreases DistanceAt(tables, r, lsa.header.advertisingRouter)
  {
    hide Converged, PositiveLinks, Recorded, IsRouter, HopAt, DistanceAt;
    k := j;
    if lsa.header.advertisingRouter != r {
      var h := DrawnNearer(db, tables, r, n, lsa);
      var i := GoesOn(db, tables, h, n, lsa, j);
      k := i + 1;
    }
  }

  /** If the attractor's next hop can reach the attractor, the packet comes back for ever. */
  lemma {:induction false} ComesBack(db: Db, tables: Tables, n: Id, lsa: Lsa, h: Id, k: nat)
    requires Converged(db, tables) && PositiveLinks(db) && Recorded(db, n)
    requires var a := lsa.header.advertisingRouter;
             && IsRouter(db.routers, a) && Attractor(db, db.summaries, a, n) == Some(lsa)
             && HopAt(tables, a, n) == Via(h) && Connects(RouteGraph(db), h, a)
    ensures !Arrives(tables, lsa.header.advertisingRouter, n, k)
    decreases k
  {
    var a: Id := lsa.header.advertisingRouter;
    hide Converged, PositiveLinks, Recorded, IsRouter, HopAt, RouteGraph, Connects, Attractor, Arrives;
    StillDrawn(db, tables, n, lsa, h);
    if k > 0 {
      RouteContinues(tables, a, n, k, h);
      if Arrives(tables, h, n, k - 1) {
        var j := ComesBy(db, tables, h, n, lsa, k - 1);
        ComesBack(db, tables, n, lsa, h, j);
      }
    } else {
      ArrivesNowhere(tables, a, n, h);
    }
  }

  lemma ArrivesNowhere(tables: Tables, r: Id, n: Id, h: Id)
    requires HopAt(tables, r, n) == Via(h)
    ensures !Arrives(tables, r, n, 0)
  {
    hide HopAt;
  }

  lemma StillDrawn(db: Db, tables: Tables, n: Id, lsa: Lsa, h: Id)
    requires Converged(db, tables) && PositiveLinks(db)
    requires var a := lsa.header.advertisingRouter;
             && IsRouter(db.routers, a) && Attractor(db, db.summaries, a, n) == Some(lsa)
             && HopAt(tables, a, n) == Via(h) && Connects(RouteGraph(db), h, a)
    ensures IsRouter(db.routers, h) && Attractor(db, db.summaries, h, n) == Some(lsa)
  {
    HopIsEdge(db, tables, lsa.header.advertisingRouter, n, h);
    hide Converged, PositiveLinks, IsRouter, HopAt, RouteGraph, Connects;
    AttractorStays(db, db.summaries, lsa.header.advertisingRouter, h, n);
  }

  // ----- When a packet is delivered all the same

  /**
   A packet for `n` that some summary draws is delivered if and only if it gets to the advertising router (which takes a
   mask), and that router is on the network or sends it to a router that cannot come back to it and delivers. Which
   routers can still be reached only shrinks along this condition, and `ForwardingDelivers` decides where it ends.
   */
  lemma DrawnIsDelivered(db: Db, tables: Tables, r: Id, n: Id, lsa: Lsa)
    requires Converged(db, tables) && PositiveLinks(db) && IsRouter(db.routers, r) && Recorded(db, n)
    requires Attractor(db, db.summaries, r, n) == Some(lsa)
    ensures lsa.SummaryLsa? && IsRouter(db.routers, lsa.header.advertisingRouter)
    ensures var a := lsa.header.advertisingRouter;
            Delivered(tables, r, n) <==>
              && (r == a || lsa.networkMask != 0)
              && match HopAt(tables, a, n)
                 case Direct => true
                 case Via(h) => !Connects(RouteGraph(db), h, a) && Delivered(tables, h, n)
                 case Unreachable => false
  {
    var a: Id := lsa.header.advertisingRouter;
    AttractorIsRouter(db, r, n, lsa);
    hide Converged, PositiveLinks, Recorded, IsRouter, HopAt, RouteGraph, Connects, Attractor, Arrives, Names;
    if Delivered(tables, r, n) {
      var k: nat :| Arrives(tables, r, n, k);
      var j := ComesBy(db, tables, r, n, lsa, k);
      ArrivalGoesOn(db, tables, n, lsa, j);
    }
    if r == a || lsa.networkMask != 0 {
      if HopAt(tables, a, n) == Direct {
        RouteEnds(tables, a, n, 0);
        DeliveredFrom(db, tables, r, n, lsa, 0);
      } else if h :| HopAt(tables, a, n) == Via(h) && Delivered(tables, h, n) {
        var i: nat :| Arrives(tables, h, n, i);
        RouteContinues(tables, a, n, i + 1, h);
        DeliveredFrom(db, tables, r, n, lsa, i + 1);
      }
    }
  }

  lemma AttractorIsRouter(db: Db, r: Id, n: Id, lsa: Lsa)
    requires Recorded(db, n) && Attractor(db, db.summaries, r, n) == Some(lsa)
    ensures lsa.SummaryLsa? && IsRouter(db.routers, lsa.header.advertisingRouter)
    ensures Attractor(db, db.summaries, lsa.header.advertisingRouter, n) == Some(lsa)
  {
    var a: Id := lsa.header.advertisingRouter;
    assert Connects(RouteGraph(db), a, a) by {
      assert IsWalk(RouteGraph(db), a, a, Here);
    }
    hide RouteGraph, Connects, IsRouter;
    AttractorStays(db, db.summaries, r, a, n);
  }

  lemma DeliveredFrom(db: Db, tables: Tables, r: Id, n: Id, lsa: Lsa, j: nat)
    requires Converged(db, tables) && PositiveLinks(db) && IsRouter(db.routers, r) && Recorded(db, n)
    requires Attractor(db, db.summaries, r, n) == Some(lsa) && lsa.SummaryLsa?
    requires r == lsa.header.advertisingRouter || lsa.networkMask != 0
    requires Arrives(tables, lsa.header.advertisingRouter, n, j)
    ensures Delivered(tables, r, n)
  {
    hide Converged, PositiveLinks, Recorded, IsRouter, Arrives;
    if r != lsa.header.advertisingRouter {
      var k := GoesOn(db, tables, r, n, lsa, j);
    }
  }

  lemma ArrivalGoesOn(db: Db, tables: Tables, n: Id, lsa: Lsa, j: nat)
    requires Converged(db, tables) && PositiveLinks(db) && Recorded(db, n)
    requires var a := lsa.header.advertisingRouter;
             IsRouter(db.routers, a) && Attractor(db, db.summaries, a, n) == Some(lsa) && Arrives(tables, a, n, j)
    ensures match HopAt(tables, lsa.header.advertisingRouter, n)
            case Direct => true
            case Via(h) => !Connects(RouteGraph(db), h, lsa.header.advertisingRouter) && Delivered(tables, h, n)
            case Unreachable => false
  {
    hide Converged, PositiveLinks, Recorded, IsRouter, HopAt, RouteGraph, Connects;
    if h :| HopAt(tables, lsa.header.advertisingRouter, n) == Via(h) {
      assert Arrives(tables, h, n, j - 1);
      if Connects(RouteGraph(db), h, lsa.header.advertisingRouter) {
        ComesBack(db, tables, n, lsa, h, j);
      }
    }
  }

  // ----- One advertising router

  /** Every summary for `n` is advertised by `a`, with a mask, and there is one. */
  ghost predicate SoleAdvertiser(db: Db, n: Id, a: Id) {
    && IsRouter(db.routers, a)
    && (forall lsa | lsa in db.summaries && Names(lsa, n) :: lsa.header.advertisingRouter == a && lsa.networkMask != 0)
    && exists lsa :: lsa in db.summaries && Names(lsa, n)
  }

  lemma {:induction false} OwnSummaries(t: Spf, x: Id, summaries: seq<Lsa>, n: Id)
    requires forall lsa | lsa in summaries && Names(lsa, n) :: lsa.header.advertisingRouter == x
    ensures Source(t, x, summaries, n) == None
  {
    if summaries != [] {
      var k := |summaries| - 1;
      assert summaries[k] in summaries;
      OwnSummaries(t, x, summaries[..k], n);
    }
  }

  lemma {:induction false} SoleAttractor(db: Db, summaries: seq<Lsa>, r: Id, n: Id, a: Id)
    requires forall lsa | lsa in summaries && Names(lsa, n) :: lsa.header.advertisingRouter == a
    ensures Attractor(db, summaries, r, n).Some? <==>
              Connects(RouteGraph(db), r, a) && exists lsa :: lsa in summaries && Names(lsa, n)
  {
    hide RouteGraph, Connects;
    if summaries != [] {
      var k := |summaries| - 1;
      assert summaries[k] in summaries;
      SoleAttractor(db, summaries[..k], r, n, a);
      assert summaries == summaries[..k] + [summaries[k]];
    }
  }

  /**
   An intra-area network that one router summarises is still delivered if and only if that router cannot be reached from
   the sender and the network can, or it can and is on the network itself, or its next hop cannot come back to it.
   */
  lemma SummarisedIsDelivered(db: Db, tables: Tables, r: Id, n: Id, a: Id)
    requires Converged(db, tables) && PositiveLinks(db) && IsRouter(db.routers, r) && IsNet(db, n)
    requires SoleAdvertiser(db, n, a)
    ensures Delivered(tables, r, n) <==>
              if Connects(RouteGraph(db), r, a) then
                match HopAt(tables, a, n)
                case Direct => true
                case Via(h) => !Connects(RouteGraph(db), h, a)
                case Unreachable => false
              else Connects(RouteGraph(db), r, n)
  {
    assert Recorded(db, n);
    SoleAttractor(db, db.summaries, r, n, a);
    hide Connects, RouteGraph, IsNet, Converged, PositiveLinks, IsRouter, HopAt, Delivered;
    if Connects(RouteGraph(db), r, a) {
      DrawnIsDelivered(db, tables, r, n, Attractor(db, db.summaries, r, n).value);
      if h :| HopAt(tables, a, n) == Via(h) && !Connects(RouteGraph(db), h, a) {
        BeyondIsDelivered(db, tables, n, a, h);
      }
    } else {
      ForwardingDelivers(db, tables, r, n);
    }
  }

  lemma BeyondIsDelivered(db: Db, tables: Tables, n: Id, a: Id, h: Id)
    requires Converged(db, tables) && PositiveLinks(db) && IsNet(db, n) && SoleAdvertiser(db, n, a)
    requires HopAt(tables, a, n) == Via(h) && !Connects(RouteGraph(db), h, a)
    ensures Delivered(tables, h, n)
  {
    OwnSummaries(tables[a].spf, a, db.summaries, n);
    HopIsEdge(db, tables, a, n, h);
    SoleAttractor(db, db.summaries, h, n, a);
    assert Recorded(db, n);
    hide Connects, RouteGraph, IsNet, Converged, PositiveLinks, IsRouter, HopAt, Delivered;
    ForwardingDelivers(db, tables, h, n);
  }
}
