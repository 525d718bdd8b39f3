/**
 The graph that `update_route` builds from the link state database (src/route.cpp): as sequences in the order in
 which the C++ loops add nodes and edges, and as a relation that says which edges there are.
 */
module Topology {
  import opened Wrappers
  import opened Words
  import opened Lsas
  import opened Lsdbs
  import opened Graphs
  import opened Dijkstra

  // ----- Edges, in the order of insertion

  /** `get_network_lsa(ls_id)`: the first network LSA with that id, whoever advertises it. */
  function FindNetwork(nets: seq<Lsa>, lsId: uint32): Option<Lsa> {
    if nets == [] then None
    else if nets[0].header.linkStateId == lsId then Some(nets[0])
    else FindNetwork(nets[1..], lsId)
  }

  /** The network found is the one before which there is none with the id; several may advertise it. */
  lemma {:induction false} FindNetworkIsFirst(nets: seq<Lsa>, lsId: uint32)
    ensures match FindNetwork(nets, lsId)
            case Some(net) => exists i | 0 <= i < |nets| ::
              nets[i] == net && net.header.linkStateId == lsId && forall j | 0 <= j < i :: nets[j].header.linkStateId != lsId
            case None => forall j | 0 <= j < |nets| :: nets[j].header.linkStateId != lsId
  {
    if nets != [] && nets[0].header.linkStateId != lsId {
      FindNetworkIsFirst(nets[1..], lsId);
      assert nets == [nets[0]] + nets[1..];
      assert forall j | 0 < j < |nets| :: nets[j] == nets[1..][j - 1];
      if net :| FindNetwork(nets, lsId) == Some(net) {
        var i :| 0 <= i < |nets[1..]| && nets[1..][i] == net && net.header.linkStateId == lsId
                 && forall j | 0 <= j < i :: nets[1..][j].header.linkStateId != lsId;
        assert nets[i + 1] == net;
      }
    }
  }

  /** From a router to every other router of a list. */
  function AttachedHops(src: Id, metric: nat, routers: seq<uint32>): seq<Hop<Id>> {
    if routers == [] then []
    else
      var last := routers[|routers| - 1];
      AttachedHops(src, metric, routers[..|routers| - 1]) + (if last == src then [] else [Hop(src, metric, last)])
  }

  function LinkHops(src: Id, link: Link, nets: seq<Lsa>): seq<Hop<Id>> {
    if link.linkType == POINT2POINT || link.linkType == STUB then [Hop(src, link.metric, link.linkId)]
    else if link.linkType == TRANSIT then
      match FindNetwork(nets, link.linkId)
      case Some(NetworkLsa(_, _, routers)) => AttachedHops(src, link.metric, routers)
      case _ => []
    else []
  }

  function LinksHops(src: Id, links: seq<Link>, nets: seq<Lsa>): seq<Hop<Id>> {
    if links == [] then []
    else LinksHops(src, links[..|links| - 1], nets) + LinkHops(src, links[|links| - 1], nets)
  }

  function RouterHops(routers: seq<Lsa>, nets: seq<Lsa>): seq<Hop<Id>> {
    if routers == [] then []
    else
      RouterHops(routers[..|routers| - 1], nets)
      + (match routers[|routers| - 1]
         case RouterLsa(h, _, _, links) => LinksHops(h.linkStateId, links, nets)
         case _ => [])
  }

  /** The id of a network's node: the interface address of its designated router cut to the prefix. */
  function NetworkId(lsa: Lsa): Id {
    match lsa
    case NetworkLsa(h, mask, _) => And32(h.linkStateId, mask)
    case _ => 0
  }

  /** From every attached router into the network, at no cost. */
  function IntoHops(net: Id, routers: seq<uint32>): seq<Hop<Id>> {
    if routers == [] then []
    else IntoHops(net, routers[..|routers| - 1]) + [Hop(routers[|routers| - 1], 0, net)]
  }

  function NetworkHops(nets: seq<Lsa>): seq<Hop<Id>> {
    if nets == [] then []
    else
      var last := nets[|nets| - 1];
      NetworkHops(nets[..|nets| - 1])
      + (match last case NetworkLsa(_, _, routers) => IntoHops(NetworkId(last), routers) case _ => [])
  }

  function GraphHops(db: Db): seq<Hop<Id>> {
    RouterHops(db.routers, db.networks) + NetworkHops(db.networks)
  }

  // ----- Nodes, in the order of insertion

  function LinkNodes(nodes: Nodes, links: seq<Link>): Nodes {
    if links == [] then nodes
    else
      var before, l := LinkNodes(nodes, links[..|links| - 1]), links[|links| - 1];
      if l.linkType == STUB then before[l.linkId := Node(l.linkId, l.linkData, UINT32_MAX)] else before
  }

  function RouterNodes(routers: seq<Lsa>): Nodes {
    if routers == [] then map[]
    else
      var before := RouterNodes(routers[..|routers| - 1]);
      match routers[|routers| - 1]
      case RouterLsa(h, _, _, links) =>
        LinkNodes(before[h.linkStateId := Node(h.linkStateId, 0, UINT32_MAX)], links)
      case _ => before
  }

  function NetworkNodes(nodes: Nodes, nets: seq<Lsa>): Nodes {
    if nets == [] then nodes
    else
      var before, last := NetworkNodes(nodes, nets[..|nets| - 1]), nets[|nets| - 1];
      match last
      case NetworkLsa(_, mask, _) => before[NetworkId(last) := Node(NetworkId(last), mask, UINT32_MAX)]
      case _ => before
  }

  function GraphNodes(db: Db): Nodes {
    NetworkNodes(RouterNodes(db.routers), db.networks)
  }

  // ----- The edges as a relation

  /** Some router LSA with link state id `u` has link `l`. */
  ghost predicate HasLink(routers: seq<Lsa>, u: Id, l: Link) {
    exists i :: 0 <= i < |routers| && routers[i].RouterLsa? && routers[i].header.linkStateId == u && l in routers[i].links
  }

  /** `r` is attached to the network that a transit link names. */
  predicate Attaches(nets: seq<Lsa>, lsId: uint32, r: Id) {
    var found := FindNetwork(nets, lsId);
    found.Some? && found.value.NetworkLsa? && r in found.value.attachedRouters
  }

  ghost predicate LinkGives(l: Link, nets: seq<Lsa>, u: Id, c: nat, v: Id) {
    && l.metric == c
    && (((l.linkType == POINT2POINT || l.linkType == STUB) && l.linkId == v)
        || (l.linkType == TRANSIT && Attaches(nets, l.linkId, v) && v != u))
  }

  ghost predicate Enters(nets: seq<Lsa>, u: Id, v: Id) {
    exists i :: 0 <= i < |nets| && nets[i].NetworkLsa? && u in nets[i].attachedRouters && NetworkId(nets[i]) == v
  }

  ghost predicate CodeEdge(db: Db, u: Id, c: nat, v: Id) {
    || (exists l :: HasLink(db.routers, u, l) && LinkGives(l, db.networks, u, c, v))
    || (c == 0 && Enters(db.networks, u, v))
  }

  /** The link types by their numbers: 1 and 3 lead to the link id, 2 to whoever else is attached to the network it names. */
  lemma LinkTypes(l: Link, nets: seq<Lsa>, u: Id, c: nat, v: Id)
    ensures l.linkType == 1 || l.linkType == 3 ==> (LinkGives(l, nets, u, c, v) <==> c == l.metric && v == l.linkId)
    ensures l.linkType == 2 ==>
              (LinkGives(l, nets, u, c, v) <==> c == l.metric && v != u && Attaches(nets, l.linkId, v))
    ensures LinkGives(l, nets, u, c, v) ==> l.linkType in {1, 2, 3}
  {
  }

  lemma {:induction false} AttachedHopsAre(src: Id, metric: nat, routers: seq<uint32>, h: Hop<Id>)
    ensures h in AttachedHops(src, metric, routers) <==>
              h.src == src && h.cost == metric && h.dst != src && h.dst in routers
  {
    if routers != [] {
      var n := |routers| - 1;
      AttachedHopsAre(src, metric, routers[..n], h);
      assert routers == routers[..n] + [routers[n]];
    }
  }

  lemma LinkHopsAre(src: Id, link: Link, nets: seq<Lsa>, h: Hop<Id>)
    ensures h in LinkHops(src, link, nets) <==> h.src == src && LinkGives(link, nets, src, h.cost, h.dst)
  {
    var found := FindNetwork(nets, link.linkId);
    if found.Some? && found.value.NetworkLsa? {
      AttachedHopsAre(src, link.metric, found.value.attachedRouters, h);
    }
  }

  lemma {:induction false} LinksHopsAre(src: Id, links: seq<Link>, nets: seq<Lsa>, h: Hop<Id>)
    ensures h in LinksHops(src, links, nets) <==>
              h.src == src && exists l :: l in links && LinkGives(l, nets, src, h.cost, h.dst)
  {
    if links != [] {
      var n := |links| - 1;
      LinksHopsAre(src, links[..n], nets, h);
      LinkHopsAre(src, links[n], nets, h);
      assert links == links[..n] + [links[n]];
    }
  }

  lemma {:induction false} RouterHopsAre(routers: seq<Lsa>, nets: seq<Lsa>, h: Hop<Id>)
    ensures h in RouterHops(routers, nets) <==>
              exists l :: HasLink(routers, h.src, l) && LinkGives(l, nets, h.src, h.cost, h.dst)
  {
    if routers != [] {
      var n := |routers| - 1;
      RouterHopsAre(routers[..n], nets, h);
      if routers[n].RouterLsa? {
        LinksHopsAre(routers[n].header.linkStateId, routers[n].links, nets, h);
      }
      forall l
        ensures HasLink(routers, h.src, l) <==>
                  HasLink(routers[..n], h.src, l)
                  || (routers[n].RouterLsa? && routers[n].header.linkStateId == h.src && l in routers[n].links)
      {
        HasLinkSnoc(routers, n, h.src, l);
      }
    }
  }

  lemma HasLinkSnoc(routers: seq<Lsa>, n: nat, u: Id, l: Link)
    requires |routers| == n + 1
    ensures HasLink(routers, u, l) <==>
              HasLink(routers[..n], u, l)
              || (routers[n].RouterLsa? && routers[n].header.linkStateId == u && l in routers[n].links)
  {
    if HasLink(routers[..n], u, l) {
      var i :| 0 <= i < n && routers[..n][i].RouterLsa? && routers[..n][i].header.linkStateId == u && l in routers[..n][i].links;
      assert routers[i] == routers[..n][i];
    }
    if HasLink(routers, u, l) {
      var i :| 0 <= i < n + 1 && routers[i].RouterLsa? && routers[i].header.linkStateId == u && l in routers[i].links;
      if i < n {
        assert routers[..n][i] == routers[i];
      }
    }
  }

  lemma {:induction false} IntoHopsAre(net: Id, routers: seq<uint32>, h: Hop<Id>)
    ensures h in IntoHops(net, routers) <==> h.src in routers && h.cost == 0 && h.dst == net
  {
    if routers != [] {
      var n := |routers| - 1;
      IntoHopsAre(net, routers[..n], h);
      assert routers == routers[..n] + [routers[n]];
    }
  }

  lemma {:induction false} NetworkHopsAre(nets: seq<Lsa>, h: Hop<Id>)
    ensures h in NetworkHops(nets) <==> h.cost == 0 && Enters(nets, h.src, h.dst)
  {
    if nets != [] {
      var n := |nets| - 1;
      NetworkHopsAre(nets[..n], h);
      if nets[n].NetworkLsa? {
        IntoHopsAre(NetworkId(nets[n]), nets[n].attachedRouters, h);
      }
      if Enters(nets[..n], h.src, h.dst) {
        var i :| 0 <= i < n && nets[..n][i].NetworkLsa? && h.src in nets[..n][i].attachedRouters && NetworkId(nets[..n][i]) == h.dst;
        assert nets[i] == nets[..n][i];
      }
      if Enters(nets, h.src, h.dst) {
        var i :| 0 <= i < n + 1 && nets[i].NetworkLsa? && h.src in nets[i].attachedRouters && NetworkId(nets[i]) == h.dst;
        if i < n {
          assert nets[..n][i] == nets[i];
        }
      }
    }
  }

  /** The loops add exactly the edges of the relation. */
  lemma GraphHopsAre(db: Db, h: Hop<Id>)
    ensures h in GraphHops(db) <==> CodeEdge(db, h.src, h.cost, h.dst)
  {
    RouterHopsAre(db.routers, db.networks, h);
    NetworkHopsAre(db.networks, h);
  }

  // ----- Which nodes there are

  ghost predicate IsRouter(routers: seq<Lsa>, u: Id) {
    exists i :: 0 <= i < |routers| && routers[i].RouterLsa? && routers[i].header.linkStateId == u
  }

  ghost predicate IsStub(routers: seq<Lsa>, u: Id) {
    exists w, l :: HasLink(routers, w, l) && l.linkType == STUB && l.linkId == u
  }

  ghost predicate IsNetwork(nets: seq<Lsa>, u: Id) {
    exists i :: 0 <= i < |nets| && nets[i].NetworkLsa? && NetworkId(nets[i]) == u
  }

  /** A new node carries its own id, and no distance yet. */
  predicate NewNodes(nodes: Nodes) {
    forall u | u in nodes :: nodes[u].id == u && nodes[u].dist == UINT32_MAX
  }

  lemma {:induction false} LinkNodesAre(nodes: Nodes, links: seq<Link>, u: Id)
    requires NewNodes(nodes)
    ensures NewNodes(LinkNodes(nodes, links))
    ensures u in LinkNodes(nodes, links) <==> u in nodes || exists l :: l in links && l.linkType == STUB && l.linkId == u
  {
    if links != [] {
      var n := |links| - 1;
      LinkNodesAre(nodes, links[..n], u);
      assert links == links[..n] + [links[n]];
    }
  }

  lemma {:induction false} RouterNodesAre(routers: seq<Lsa>, u: Id)
    ensures NewNodes(RouterNodes(routers))
    ensures u in RouterNodes(routers) <==> IsRouter(routers, u) || IsStub(routers, u)
  {
    if routers != [] {
      var n := |routers| - 1;
      var init, last := routers[..n], routers[n];
      RouterNodesAre(init, u);
      RouterNodesSnoc(routers, n, u);
      if last.RouterLsa? {
        LinkNodesAre(RouterNodes(init)[last.header.linkStateId := Node(last.header.linkStateId, 0, UINT32_MAX)], last.links, u);
      }
    }
  }

  lemma RouterNodesSnoc(routers: seq<Lsa>, n: nat, u: Id)
    requires |routers| == n + 1
    ensures IsRouter(routers, u) <==>
              IsRouter(routers[..n], u) || (routers[n].RouterLsa? && routers[n].header.linkStateId == u)
    ensures IsStub(routers, u) <==>
              IsStub(routers[..n], u)
              || (routers[n].RouterLsa? && exists l :: l in routers[n].links && l.linkType == STUB && l.linkId == u)
  {
    var init := routers[..n];
    if IsRouter(init, u) {
      var i :| 0 <= i < n && init[i].RouterLsa? && init[i].header.linkStateId == u;
      assert routers[i] == init[i];
    }
    if IsRouter(routers, u) {
      var i :| 0 <= i < n + 1 && routers[i].RouterLsa? && routers[i].header.linkStateId == u;
      assert i < n ==> init[i] == routers[i];
    }
    if IsStub(init, u) {
      var w, l :| HasLink(init, w, l) && l.linkType == STUB && l.linkId == u;
      HasLinkSnoc(routers, n, w, l);
    }
    if IsStub(routers, u) {
      var w, l :| HasLink(routers, w, l) && l.linkType == STUB && l.linkId == u;
      HasLinkSnoc(routers, n, w, l);
    }
    if routers[n].RouterLsa? && exists l :: l in routers[n].links && l.linkType == STUB && l.linkId == u {
      var l :| l in routers[n].links && l.linkType == STUB && l.linkId == u;
      HasLinkSnoc(routers, n, routers[n].header.linkStateId, l);
    }
  }

  lemma IsNetworkSnoc(nets: seq<Lsa>, n: nat, u: Id)
    requires |nets| == n + 1
    ensures IsNetwork(nets, u) <==> IsNetwork(nets[..n], u) || (nets[n].NetworkLsa? && NetworkId(nets[n]) == u)
  {
    hide NetworkId;
    if i :| 0 <= i < n && nets[..n][i].NetworkLsa? && NetworkId(nets[..n][i]) == u {
      assert nets[i] == nets[..n][i];
    }
    if i :| 0 <= i < n + 1 && nets[i].NetworkLsa? && NetworkId(nets[i]) == u {
      assert i < n ==> nets[..n][i] == nets[i];
    }
  }

  lemma {:induction false} NetworkNodesAre(nodes: Nodes, nets: seq<Lsa>, u: Id)
    requires NewNodes(nodes)
    ensures NewNodes(NetworkNodes(nodes, nets))
    ensures u in NetworkNodes(nodes, nets) <==> u in nodes || IsNetwork(nets, u)
  {
    hide NetworkId;
    if nets != [] {
      var n := |nets| - 1;
      NetworkNodesAre(nodes, nets[..n], u);
      IsNetworkSnoc(nets, n, u);
      hide IsNetwork;
    }
  }

  /** The recorded nodes are the routers, the stub networks and the transit networks. */
  lemma GraphNodesAre(db: Db, u: Id)
    ensures NewNodes(GraphNodes(db))
    ensures u in GraphNodes(db) <==> IsRouter(db.routers, u) || IsStub(db.routers, u) || IsNetwork(db.networks, u)
  {
    RouterNodesAre(db.routers, u);
    NetworkNodesAre(RouterNodes(db.routers), db.networks, u);
  }

  lemma {:induction false} LinkNodesKeep(nodes: Nodes, links: seq<Link>, u: Id)
    requires u in nodes && forall l | l in links :: l.linkType == STUB ==> l.linkId != u
    ensures u in LinkNodes(nodes, links) && LinkNodes(nodes, links)[u] == nodes[u]
  {
    if links != [] {
      assert links[|links| - 1] in links;
      LinkNodesKeep(nodes, links[..|links| - 1], u);
    }
  }

  lemma {:induction false} RouterNodesHaveNoMask(routers: seq<Lsa>, u: Id)
    requires !IsStub(routers, u) && u in RouterNodes(routers)
    ensures RouterNodes(routers)[u].mask == 0
  {
    var n := |routers| - 1;
    var init, last := routers[..n], routers[n];
    RouterNodesSnoc(routers, n, u);
    if last.RouterLsa? {
      var id := last.header.linkStateId;
      var nodes := RouterNodes(init)[id := Node(id, 0, UINT32_MAX)];
      RouterNodesAre(init, u);
      LinkNodesAre(nodes, last.links, u);
      LinkNodesKeep(nodes, last.links, u);
    }
    if u in RouterNodes(init) {
      RouterNodesHaveNoMask(init, u);
    }
  }

  lemma {:induction false} NetworkNodesKeep(nodes: Nodes, nets: seq<Lsa>, u: Id)
    requires u in nodes && !IsNetwork(nets, u)
    ensures u in NetworkNodes(nodes, nets) && NetworkNodes(nodes, nets)[u] == nodes[u]
  {
    if nets != [] {
      var n := |nets| - 1;
      IsNetworkSnoc(nets, n, u);
      NetworkNodesKeep(nodes, nets[..n], u);
    }
  }

  /** Only networks have masks. */
  lemma MaskMeansNetwork(db: Db, u: Id)
    requires u in GraphNodes(db) && GraphNodes(db)[u].mask != 0
    ensures IsStub(db.routers, u) || IsNetwork(db.networks, u)
  {
    if !IsStub(db.routers, u) && !IsNetwork(db.networks, u) {
      GraphNodesAre(db, u);
      RouterNodesAre(db.routers, u);
      RouterNodesHaveNoMask(db.routers, u);
      NetworkNodesKeep(RouterNodes(db.routers), db.networks, u);
    }
  }
}
