/** The whole of `update_route` at once: which entries the routing table holds for each destination, and why. */
module RouteTable {
  import opened Wrappers
  import opened Words
  import opened Lsas
  import opened Graphs
  import opened Dijkstra
  import opened Topology
  import opened RouteSpec
  import opened RouteProof

  // ----- Which summary decides a prefix

  /** The summary is spliced in: another router advertises it whose node is not unreachable. */
  predicate Effective(t: Spf, root: Id, lsa: Lsa) {
    var abr := lsa.header.advertisingRouter;
    lsa.SummaryLsa? && abr != root && abr in t.nodes && t.nodes[abr].dist != UINT32_MAX
  }

  /** The last such summary for a prefix. */
  function Source(t: Spf, root: Id, summaries: seq<Lsa>, u: Id): (r: Option<Lsa>)
    ensures r.Some? ==> r.value in summaries && Effective(t, root, r.value) && r.value.header.linkStateId == u
  {
    if summaries == [] then None
    else
      var last := summaries[|summaries| - 1];
      if Effective(t, root, last) && last.header.linkStateId == u then Some(last)
      else Source(t, root, summaries[..|summaries| - 1], u)
  }

  /** Every node that can give rise to a route carries its own id. */
  predicate Named(nodes: Nodes) {
    forall u | u in nodes :: nodes[u].id == u || nodes[u].mask == 0
  }

  /** Node and predecessor of `u` are those of the calculation, or those that the summary `source` gives. */
  predicate DecidedBy(t: Spf, nodes: Nodes, prevs: map<Id, Id>, u: Id, source: Option<Lsa>) {
    match source
    case None => Lookup(nodes, u) == Lookup(t.nodes, u) && Prev(prevs, u) == Prev(t.prevs, u)
    case Some(lsa) =>
      var abr := Lookup(t.nodes, lsa.header.advertisingRouter);
      && Prev(prevs, u) == abr.id
      && (lsa.SummaryLsa? && abr.id == lsa.header.advertisingRouter ==>
            Lookup(nodes, u) == Node(u, lsa.networkMask, abr.dist))
  }

  lemma SpliceDecides(db: Db, root: Id, t: Spf, nodes: Nodes, prevs: map<Id, Id>, i: nat, u: Id, source: Option<Lsa>)
    requires WellPosed(db, root) && SpfOk(db, root, t) && Spliced(db, root, t, nodes, prevs) && i < |db.summaries|
    requires DecidedBy(t, nodes, prevs, u, source) && Named(nodes)
    ensures var lsa := db.summaries[i];
            var (n, p) := Splice(nodes, prevs, root, lsa);
            && Named(n)
            && DecidedBy(t, n, p, u, if Effective(t, root, lsa) && lsa.header.linkStateId == u then Some(lsa) else source)
  {
    var abr: Id := db.summaries[i].header.advertisingRouter;
    assert RouterName(db, abr);
    assert (abr in nodes <==> abr in t.nodes) && (abr in nodes ==> nodes[abr] == t.nodes[abr]);
    AbrIsReached(db, root, t, abr);
    hide WellPosed, SpfOk, RouterName, Spliced;
  }

  lemma {:induction false} SpliceAllDecides(db: Db, root: Id, t: Spf, n: nat, u: Id)
    requires WellPosed(db, root) && SpfOk(db, root, t) && n <= |db.summaries|
    ensures var (nodes, prevs) := SpliceAll(t.nodes, t.prevs, root, db.summaries[..n]);
            Named(nodes) && DecidedBy(t, nodes, prevs, u, Source(t, root, db.summaries[..n], u))
  {
    if n == 0 {
      assert Named(t.nodes);
    } else {
      SpliceAllDecides(db, root, t, n - 1, u);
      SpliceAllKeeps(db, root, t, n - 1);
      assert db.summaries[..n][..n - 1] == db.summaries[..n - 1];
      var (nodes, prevs) := SpliceAll(t.nodes, t.prevs, root, db.summaries[..n - 1]);
      hide SpfOk, WellPosed, Spliced, DecidedBy, Splice, Named, Effective;
      SpliceDecides(db, root, t, nodes, prevs, n - 1, u, Source(t, root, db.summaries[..n - 1], u));
    }
  }

  // ----- The routes

  /** What `update_route` leaves: the tables after the splice, the routes, and the calculation they come from. */
  datatype Table = Table(spf: Spf, nodes: Nodes, prevs: map<Id, Id>, routes: seq<Entry>)

  ghost predicate TableOk(db: Db, root: Id, table: Table) {
    && SpfOk(db, root, table.spf) && Spliced(db, root, table.spf, table.nodes, table.prevs)
    && (table.nodes, table.prevs) == SpliceAll(table.spf.nodes, table.spf.prevs, root, db.summaries)
    && RoutesOk(table.routes, table.nodes, table.prevs, root, SplicedRank(table.spf.rank, db.summaries))
  }

  lemma EntryIsYielded(routes: seq<Entry>, nodes: Nodes, prevs: map<Id, Id>, root: Id, rank: Ranks, e: Entry)
    requires RoutesOk(routes, nodes, prevs, root, rank) && Named(nodes)
    ensures e in routes <==> Yields(Lookup(nodes, e.dst), prevs, root, rank, e)
  {
    if e in routes {
      var item :| item in nodes.Items && Yields(item.1, prevs, root, rank, e);
      assert item.0 in nodes && nodes[item.0] == item.1 && item.0 == e.dst;
    }
    if Yields(Lookup(nodes, e.dst), prevs, root, rank, e) {
      var item := (e.dst, nodes[e.dst]);
      assert item in nodes.Items && Yields(item.1, prevs, root, rank, e);
    }
  }

  /** The entry that a destination should have, if any. */
  ghost predicate Expected(db: Db, root: Id, t: Spf, e: Entry)
    requires Grounded(t.prevs, root, t.rank)
  {
    match Source(t, root, db.summaries, e.dst)
    case None =>
      && e.dst in GraphNodes(db) && GraphNodes(db)[e.dst].mask != 0 && Connects(RouteGraph(db), root, e.dst)
      && IsDistance(RouteGraph(db), root, e.dst, e.metric)
      && e.mask == GraphNodes(db)[e.dst].mask && e.nextHop == HopTo(t.prevs, root, t.rank, e.dst)
    case Some(lsa) =>
      var abr: Id := lsa.header.advertisingRouter;
      && lsa.SummaryLsa? && lsa.networkMask != 0 && abr in GraphNodes(db)
      && IsDistance(RouteGraph(db), root, abr, e.metric)
      && e.mask == lsa.networkMask && e.nextHop == Top(t.prevs, root, t.rank, abr)
  }

  lemma DistanceIs(db: Db, root: Id, t: Spf, u: Id, d: nat)
    requires SpfOk(db, root, t) && u in GraphNodes(db)
    ensures t.nodes[u].dist == UINT32_MAX <==> !Connects(RouteGraph(db), root, u)
    ensures t.nodes[u].dist < UINT32_MAX <==> u in t.rank
    ensures u in t.rank ==> (IsDistance(RouteGraph(db), root, u, d) <==> d == t.nodes[u].dist)
  {
    hide RouteGraph, GraphNodes;
  }

  /**
   After `update_route` the routing table holds exactly the expected entries: an intra-area network is in it if and only
   if it can be reached, at its distance and by way of the first router on a shortest path; the last effective summary
   decides a prefix, which is routed like its advertising router, and hides an intra-area network of the same number.
   */
  lemma RoutesExactly(db: Db, root: Id, table: Table, e: Entry)
    requires WellPosed(db, root) && TableOk(db, root, table)
    ensures Grounded(table.spf.prevs, root, table.spf.rank)
    ensures e in table.routes <==> Expected(db, root, table.spf, e)
  {
    var Table(t, nodes, prevs, routes) := table;
    TreeGrounded(db, root, t);
    assert db.summaries[..|db.summaries|] == db.summaries;
    SpliceAllDecides(db, root, t, |db.summaries|, e.dst);
    EntryIsYielded(routes, nodes, prevs, root, SplicedRank(t.rank, db.summaries), e);
    SplicedHopTo(db, root, t, nodes, prevs, e.dst);
    match Source(t, root, db.summaries, e.dst)
    case None => FromCalculation(db, root, t, nodes, prevs, e);
    case Some(lsa) => FromSummary(db, root, t, nodes, prevs, e, lsa);
  }

  lemma FromCalculation(db: Db, root: Id, t: Spf, nodes: Nodes, prevs: map<Id, Id>, e: Entry)
    requires WellPosed(db, root) && SpfOk(db, root, t)
    requires Grounded(t.prevs, root, t.rank) && Grounded(prevs, root, SplicedRank(t.rank, db.summaries))
    requires Source(t, root, db.summaries, e.dst) == None && DecidedBy(t, nodes, prevs, e.dst, None)
    requires var hop := HopTo(prevs, root, SplicedRank(t.rank, db.summaries), e.dst);
             Prev(prevs, e.dst) != 0 && Prev(prevs, e.dst) != root ==> hop == Top(t.prevs, root, t.rank, Prev(prevs, e.dst))
    ensures Yields(Lookup(nodes, e.dst), prevs, root, SplicedRank(t.rank, db.summaries), e) <==> Expected(db, root, t, e)
  {
    var u := e.dst;
    assert HopTo(prevs, root, SplicedRank(t.rank, db.summaries), u) == HopTo(t.prevs, root, t.rank, u);
    RootIsRouter(db, root);
    if u in GraphNodes(db) && u != root {
      UnreachableExactly(db, root, t, u);
      DistanceIs(db, root, t, u, e.metric);
    }
    assert u !in GraphNodes(db) ==> Lookup(t.nodes, u).mask == 0;
    hide RouteGraph, WellPosed, Source, HopTo, Top, SplicedRank, GraphNodes;
  }

  lemma FromSummary(db: Db, root: Id, t: Spf, nodes: Nodes, prevs: map<Id, Id>, e: Entry, lsa: Lsa)
    requires WellPosed(db, root) && SpfOk(db, root, t)
    requires Grounded(t.prevs, root, t.rank) && Grounded(prevs, root, SplicedRank(t.rank, db.summaries))
    requires Source(t, root, db.summaries, e.dst) == Some(lsa) && DecidedBy(t, nodes, prevs, e.dst, Some(lsa))
    requires var hop := HopTo(prevs, root, SplicedRank(t.rank, db.summaries), e.dst);
             Prev(prevs, e.dst) != 0 && Prev(prevs, e.dst) != root ==> hop == Top(t.prevs, root, t.rank, Prev(prevs, e.dst))
    ensures Yields(Lookup(nodes, e.dst), prevs, root, SplicedRank(t.rank, db.summaries), e) <==> Expected(db, root, t, e)
  {
    var abr: Id := lsa.header.advertisingRouter;
    AbrIsReached(db, root, t, abr);
    RootIsRouter(db, root);
    if abr in GraphNodes(db) {
      var h, rest := TopIsFirstHop(db, root, t, abr);
      DistanceIs(db, root, t, abr, e.metric);
    }
    hide RouteGraph, WellPosed, Source, SplicedRank, GraphNodes;
  }

  lemma RootIsRouter(db: Db, root: Id)
    requires WellPosed(db, root)
    ensures root != 0 && 0 !in GraphNodes(db) && root in GraphNodes(db) && GraphNodes(db)[root].mask == 0
  {
    GraphNodesAre(db, root);
    assert RouterName(db, root) && !NetworkName(db, root);
    if GraphNodes(db)[root].mask != 0 {
      MaskMeansNetwork(db, root);
    }
  }
}
