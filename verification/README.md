# An OSPFv2 daemon, modelled and proved

The C++ daemon in `src/` runs OSPF version 2 (RFC 2328) on Linux interfaces. This project models the parts that decide
whether its routers agree and whether packets arrive, and proves what those parts promise:

- **Database exchange** (`Neighbors`, `NeighborRules`, `Exchange*`, `Adjacency`, `Handlers`): the neighbor state machine,
  the database description handlers, link state requests and updates. Two peers are joined by FIFO channels that may lose
  and duplicate packets. In every run what a peer has accepted is a gap-free prefix of the other's snapshot, FULL means that
  the databases share every key of the snapshots, no C `assert` fails, and the number of polls is known exactly. A second
  model, `Adjacency`, feeds one neighbor arbitrary input, restarts included. `NeighborRules` says for every state and
  packet exactly when which event fires and what it leaves.
- **Route calculation** (`Graphs`, `Topology`, `Dijkstra`, `RouteSpec`, `RouteProof`, `RouteTable`, `Routing`,
  `Destinations`, `Forwarding`, `Detours`, `Convergence`, `Collapse`): the graph built from the database, Dijkstra's
  algorithm over a heap with stale copies, the spliced summaries, the walk that finds next hops, the exact content of the
  routing table in terms of the LSAs' fields, where the packets go that follow these tables from router to router, and
  how the distances compare with the graph of the standard.
- **Checksums and wire formats** (`Fletcher`, `InternetChecksum`, `Codec`, `WireLayout`, `PacketBuffers`,
  `ChecksumFailures`): over 32-bit registers and byte arrays, with the exact conditions under which stamping verifies and
  reading gives back what was written.
- **Link state database** (`Lsas`, `Lsdbs`): what the lists hold after any history of arrivals.
- **Election** (`Election`): the designated router election as a function that is iterated.

`Words` holds C's integer conversions, `Wrappers` the option and result types. An `Aborted` result is a C `assert` that
fails. Classes and array methods follow the C++ objects and loops; each is proved equal to a function on values, and the
theorems are about those functions.

Where the code does not meet its purpose, the exact condition is proved:

- `ExchangeTheorems.CompletesExactly`: the master can complete the exchange if and only if it did not hold or see
  sequence number 0 before the slave's first reply (both routers start at 0, so that the reply looks like a duplicate).
  `DoomedIsReached` shows that every start has a run into that state.
- `ExchangeTheorems.MasterDoneExactly`: the slave fires exchange_done unless the master has nothing to describe and the
  slave at most ten headers; then it never does. `SlaveLeftWaiting` is such a run.
- `Fletcher.StampVerifiesExactly`: the check bytes are wrong in exactly two residue cases. `ChecksumFailures` has a router
  LSA for each; the second origination of router 10.0.0.2 with one stub link is one of them.
- `Detours.DrawnIsDelivered`, `Detours.SummarisedIsDelivered`: a summary overwrites an intra-area network of the same
  number, so that packets for it are drawn to the advertising router. It is shown exactly when they arrive all the same;
  in `Convergence.TwoRoutersLoop` two routers send them to and fro for ever.
- `Collapse.AgreeExactly`: the code's graph gives the distances of RFC 2328 if and only if every edge between routers
  that is not described from both ends is made up for by a walk of the standard. `OneWayLinkDiffers` is one that is not.
- `Election.RepeatsExactly`: the election can be repeated without following a null pointer if and only if some neighbor
  does not claim to be designated router, or one does and the router itself does not. A router alone on its network
  aborts in the second round (`LoneRouterAborts`), which the comment at `src/interface.cpp:73` rules out.
- `Lsdbs.DistinctExactly`, `Lsdbs.NeverStaleExactly`: an instance that is no newer than a stored one is added all the
  same. Lookups stay current if and only if nothing newer than all before follows such an arrival.
- `Lsdbs.LocalHistoryIncreasingExactly`: the router's own sequence numbers stop increasing when the counter passes 2^32.
- `Codec.RoundTripExactly`: which LSAs the wire format loses something of.
- `Adjacency.TimerAbortsExactly`: the state in which a timer expiry would fail an assert; the invariant excludes it.

Where code and documentation differ the model follows the code. In `src/packet.cpp:213` the macro `DD_FLAG_ALL`
(`src/packet.hpp:467`) has no parentheses, so that the test of the three flags is always true and only the comparison of
ids is left.

## Model

| member | source | states |
|---|---|---|
| ExchangeTheorems.AcceptedIsPrefix | src/packet.cpp:187-332 | in every reachable state each side's accepted headers are an in-order, gap-free, repeat-free prefix of the other's snapshot, and the whole snapshot once that side fired exchange_done |
| ExchangeTheorems.FullMeansSynchronised | src/packet.cpp:298-346 | a peer in FULL holds an instance of every LSA in the other's snapshot |
| ExchangeTheorems.NoAssertFails | src/packet.cpp:187-332 | in no run with loss and duplication does an assert fail below process_dd, process_hello, adj_ok or the timer |
| ExchangeTheorems.NoMismatch | src/packet.cpp:238-292 | in no run does seq_number_mismatch fire |
| ExchangeTheorems.MasterDoneExactly | src/packet.cpp:156-181 | when the master is done, exactly max(ceil(M/10), ceil(S/10)-1) polls have been accepted, and the slave is done already, except when the master's snapshot is empty and the slave's has at most ten headers |
| ExchangeTheorems.CompletesExactly | src/packet.cpp:194-195 | some run completes from a reachable state if and only if the master has not taken, and cannot take, the slave's first reply for a duplicate |
| ExchangeTheorems.DoomedForever | src/packet.cpp:240-246 | once the reply is a duplicate, or recv_dd_seq_num is 0 before negotiation, no run leads out |
| ExchangeTheorems.DoomedIsReached | src/transit.cpp:124-130 | every start has a run into such a state: the slave's own invitation carries sequence number 0 |
| ExchangeTheorems.SlaveLeftWaiting | src/packet.cpp:321-328 | a master with an empty database and a slave with at most ten headers have a run in which the master is done and the slave is not |
| ExchangeTheorems.SnapshotsFixed | src/neighbor.cpp:92-116 | after negotiation no step of a run changes which header values are described to the peer |
| ExchangeTheorems.RunGood | src/packet.cpp:139-332 | every run from the starting values keeps the exchange invariant and the request bookkeeping |
| ExchangeTheorems.DdRequests | src/packet.cpp:305-319 | whatever the packet, the request list grows by exactly the missing keys of what was accepted, and FULL is entered only without requests |
| ExchangeTheorems.MissingComplete | src/packet.cpp:308-319 | each received header's key is known or gets requested |
| ExchangeTheorems.RemoveRequestKeeps | src/packet.cpp:436-446 | removing one request keeps every other |
| ExchangeTheorems.RoundCompletes | src/packet.cpp:263-330 | from any good state in rounds, losing what is under way, one poll and one reply take the master to the next round |
| ExchangeProof.StepKeepsInv | src/packet.cpp:139-332 | each of the protocol's steps, in any phase, runs without a failing assert and keeps the two-peer invariant |
| ExchangeProof.FreshSlaveHears | src/packet.cpp:211-234 | the slave's first packet in EXSTART negotiates and is answered with the first batch |
| ExchangeProof.MasterNegotiates | src/packet.cpp:216-245 | the slave's first reply either starts round 1 or, at sequence number 0, is dropped after negotiation |
| ExchangeProof.SlaveHearsOld | src/packet.cpp:239-246 | a repeated poll is answered with the last reply and changes nothing else |
| ExchangeProof.SlaveHearsNew | src/packet.cpp:263-330 | the next poll is accepted, the described part advances by one batch, and exchange_done fires exactly after the last |
| ExchangeProof.MasterHearsOld | src/packet.cpp:239-246 | an old reply is ignored by the master |
| ExchangeProof.MasterHearsNew | src/packet.cpp:267-328 | the reply to the current poll is accepted and either ends the exchange or sends the next poll |
| ExchangeProof.SequenceNumbersDiffer | src/packet.cpp:264-269 | with 32-bit wrap-around the sequence numbers of two successive rounds still differ |
| ExchangeProof.PacketsDiffer | src/packet.cpp:139-185 | packets of neighbouring rounds differ, and none looks like the empty packet of the negotiation |
| ExchangeProof.TimerKeeps | src/transit.cpp:121-142 | a timer expiry sends only the packet of the current round |
| Adjacency.RunNeverAborts | src/packet.cpp:187-332 | over any interleaving of hellos, arbitrary DD packets, updates, adj_ok, timers and losses no assert below the handlers fails, and EXSTART implies not is_master |
| Adjacency.FullMeansKnown | src/packet.cpp:334-346 | over any such run, in FULL every header accepted since the lists were last cleared has its key in the database |
| Adjacency.DbKeepsKeys | src/lsdb.cpp:13-40 | over any such run the database never loses a key |
| Adjacency.TimerAbortsExactly | src/packet.cpp:176-180 | a timer expiry fails an assert if and only if the state is EXSTART with is_master, no more to receive, dd_init false and at most ten headers left |
| Adjacency.ProcessDdSound | src/packet.cpp:187-332 | for every state and packet process_dd fails no assert, and a mismatch always ends in EXSTART as non-slave |
| NeighborRules.MismatchExactly | src/packet.cpp:238-292 | for every state and packet: seq_number_mismatch fires if and only if in LOADING or FULL the MS flag differs from is_master or I is set, or in EXCHANGE a packet that is no repeat has the wrong role, I, other options or the wrong number; it leaves EXSTART, number 0, is_master false and both lists empty, and sends nothing |
| NeighborRules.AcceptedExactly | src/packet.cpp:211-275 | exactly when a packet's headers are taken, and that all of them are |
| NeighborRules.NegotiatedExactly | src/packet.cpp:211-223 | exactly when the roles are settled; the router with the greater id is master |
| NeighborRules.RepeatIsAnswered | src/packet.cpp:239-292 | a slave answers every repeat with its last packet, in LOADING and FULL too, and nothing else changes |
| NeighborRules.OtherwiseIgnored | src/packet.cpp:199-222 | what is ignored, state by state, but for the number, the options and the step to two-way |
| NeighborRules.DoneDecides | src/neighbor.cpp:118-135 | the exchange ends in FULL without requests and in LOADING with |
| NeighborRules.PacketIs | src/packet.cpp:139-185 | for every negotiated or negotiating state: flags, number, options 0x02 and headers of the packet produced, M exactly if more than ten headers are left, and exactly when exchange_done fires |
| NeighborRules.HelloNamingUs | src/neighbor.cpp:64-90 | a hello that names the router takes a new neighbor to TWOWAY or EXSTART by adjacency, and leaves all others where they are |
| NeighborRules.HelloNotNamingUs | src/neighbor.cpp:192-205 | a hello that does not takes every neighbor to INIT, with empty lists if it was two-way |
| NeighborRules.AdjOkDecides | src/neighbor.cpp:160-176 | after adj_ok the state is EXSTART or beyond if and only if the neighbor is adjacent |
| NeighborRules.LostIsDown | src/neighbor.cpp:207-238 | a lost neighbor is DOWN with empty lists |
| NeighborRules.TimerRequests | src/transit.cpp:131-142 | an expiry asks for every outstanding LSA in EXCHANGE and LOADING, and takes LOADING to FULL exactly when none is |
| NeighborRules.MissingExactly | src/packet.cpp:308-319 | a key is requested if and only if a header has it and the database holds no instance |
| NeighborRules.RequestLeaves | src/packet.cpp:436-446 | exactly one request for the key that arrived leaves the list |
| NeighborRules.UpdateAnswers | src/packet.cpp:414-447 | after an update as many requests for a key are left as it did not answer |
| Adjacency.StepKeepsInv | src/packet.cpp:404-447 | every input runs to its end and keeps accepted keys known or requested |
| Adjacency.LsuKeeps | src/packet.cpp:414-447 | the update loop turns requests into known keys and loses neither |
| Adjacency.KnownIsHasKey | src/neighbor.cpp:96-112 | a key is among the copied headers if and only if the database lookup finds it |
| Handlers.Neighbor.constructor | src/neighbor.hpp:32-96 | a new neighbor: DOWN, dd_init set, lists empty |
| Handlers.HandleHello | src/packet.cpp:95-122 | hello handling up to the interface events in place (hello_received, then 2way_received or 1way_received), with no failing assert from any state |
| Handlers.MakeDd | src/packet.cpp:139-185 | packet, cursor and exchange_done of produce_dd in place |
| Handlers.RequestMissing | src/packet.cpp:308-319 | the loop appends exactly the keys without an instance in the database, in order |
| Handlers.HandleAccept | src/packet.cpp:298-331 | acceptance in place: erase, request, finish or answer |
| Handlers.HandleInExchange | src/packet.cpp:238-275 | duplicates, mismatches and acceptance in EXCHANGE, in place |
| Handlers.HandleInExStart | src/packet.cpp:211-237 | negotiation in place, falling through to EXCHANGE for the master |
| Handlers.BecomeSlave | src/packet.cpp:213-234 | the slave's half: role, sequence number, snapshot and first reply |
| Handlers.BecomeMaster | src/packet.cpp:216-245 | the master's half: snapshot, and the reply handled as in EXCHANGE |
| Handlers.HandleDd | src/packet.cpp:187-332 | process_dd in place for any state and packet, with the events it fires (2way_received, negotiation_done, exchange_done, seq_number_mismatch); no assert below it fails |
| Handlers.EraseFirst | src/packet.cpp:436-446 | the search and erase remove exactly the first matching request |
| Handlers.HandleLsu | src/packet.cpp:411-447 | the update loop on database and request list in place |
| Handlers.HandleTimer | src/transit.cpp:121-143 | one expiry in place, with exchange_done and loading_done, under the invariant proved in Adjacency |
| Dijkstra.SettledIsShortest | src/route.cpp:241-272 | when the heap is empty every recorded node has its least walk cost from the root, or UINT32_MAX exactly when no walk reaches it, and the predecessors form a tree |
| Dijkstra.SumFits | src/route.cpp:264-269 | with 16-bit metrics and at most 65537 nodes no sum wraps, and one that equals UINT32_MAX can improve nothing |
| Dijkstra.RelaxKeeps | src/route.cpp:264-269 | relaxing one edge, to a recorded node or not, keeps the invariant with zero-cost edges and stale copies |
| Dijkstra.DropStale | src/route.cpp:257-261 | discarding a copy of a settled node keeps the invariant |
| Dijkstra.Settle | src/route.cpp:257-262 | the least unsettled copy in the heap is current and may be settled next |
| Dijkstra.TreeWalk | src/route.cpp:261-271 | the predecessors of a reached node are a walk from the root that costs its distance |
| Dijkstra.NoCheaperWalk | src/route.cpp:264-271 | once all edges of reached nodes are relaxed no walk is cheaper than the recorded distance |
| Dijkstra.StartIsOuter | src/route.cpp:245-253 | the initialisation establishes the invariant |
| Routing.RoutingTable.RunDijkstra | src/route.cpp:241-272 | dijkstra in place gives shortest distances and a predecessor tree, terminates, and touches nothing but distances and predecessors |
| Routing.RoutingTable.ResetMarks | src/route.cpp:245-249 | every node gets predecessor 0 and is unvisited |
| Routing.RoutingTable.TakeLeast | src/route.cpp:257-258 | top and pop give some least element, ties left open |
| Routing.RoutingTable.RelaxAll | src/route.cpp:264-270 | the inner loop relaxes every edge of the settled node |
| Routing.RoutingTable.UpdateRoute | src/route.cpp:98-239 | update_route from any old tables: a shortest path tree of the database's graph, the summaries spliced in, and for every destination exactly the expected entries |
| RouteTable.RoutesExactly | src/route.cpp:157-235 | an intra-area network has an entry if and only if it can be reached, at its distance and by way of the first router on a shortest path; the last effective summary decides a prefix, which is routed like its advertising router |
| Destinations.TransitNetworkRouted | src/route.cpp:141-151 | a transit network is routed under its designated router's address minus the remainder by 2^k, with the LSA's mask 2^32 - 2^k; of several LSAs with one number the last decides, and a stub of that number is overwritten |
| Destinations.StubNetworkRouted | src/route.cpp:130-135 | a stub network is routed under the id and mask of the last link to it |
| Destinations.AttachedIsDirect | src/route.cpp:147-228 | with positive links, a transit network that the router is attached to has a direct entry at distance 0 |
| Destinations.NumbersExactly | src/route.cpp:144 | with a contiguous mask the bitwise and is the address with its low bits cleared |
| RouteTable.SpliceAllDecides | src/route.cpp:160-181 | node and predecessor of every destination come from the last effective summary for it, and from the calculation if there is none |
| RouteTable.EntryIsYielded | src/route.cpp:186-234 | the traversal gives a destination an entry exactly when its own node does |
| Routing.RoutingTable.constructor | src/route.hpp:39-47 | empty tables for the root |
| Routing.RoutingTable.AddEdge | src/route.cpp:114-115 | the edge lists gain exactly one hop |
| Routing.RoutingTable.AddTransit | src/route.cpp:123-129 | a transit link gives edges to all attached routers but the source |
| Routing.RoutingTable.GetNetworkLsa | src/lsdb.cpp:124-128 | the first network LSA with the id, or none |
| Routing.RoutingTable.AddLink | src/route.cpp:111-139 | edges and stub node of one link, by type |
| Routing.RoutingTable.AddLinks | src/route.cpp:111-139 | edges and stub nodes of all links of a router |
| Routing.RoutingTable.AddRouters | src/route.cpp:107-140 | nodes and edges of all router LSAs |
| Routing.RoutingTable.AddInto | src/route.cpp:147-150 | zero-cost edges from the attached routers into a network |
| Routing.RoutingTable.AddNetworks | src/route.cpp:141-151 | nodes and edges of all network LSAs |
| Routing.RoutingTable.BuildGraph | src/route.cpp:98-152 | the tables hold exactly the nodes and hops of the database |
| Routing.RoutingTable.SpliceSummaries | src/route.cpp:157-181 | nodes and predecessors after splicing, including an advertising router whose node the lookup created |
| Routing.RoutingTable.NextHopFor | src/route.cpp:200-220 | the walk over grounded predecessors terminates with the next hop of the specification |
| Routing.RoutingTable.ExtractRoutes | src/route.cpp:185-235 | the entries are exactly those of the networks with a next hop, in whatever order the map is traversed |
| Topology.GraphHopsAre | src/route.cpp:107-151 | the loops add an edge if and only if a point-to-point, transit or stub link or an attachment gives it |
| Topology.LinkTypes | src/route.cpp:112-136 | link types 1 and 3 lead to the link id at the link's metric, type 2 to every other router on the network it names, and no other type leads anywhere |
| Topology.GraphNodesAre | src/route.cpp:107-151 | the recorded nodes are exactly the routers, stub networks and masked transit networks |
| Topology.FindNetworkIsFirst | src/lsdb.cpp:124-128 | the lookup by id answers with the first network LSA that has it |
| Topology.MaskMeansNetwork | src/route.cpp:109-145 | only stub and transit networks have a mask, so that the root itself gets no route |
| RouteSpec.HopsAreRouteGraph | src/route.cpp:107-151 | the hops between recorded nodes in the tables are the edges of the declarative graph |
| RouteSpec.RelaxLeaves | src/route.cpp:264-270 | relaxing changes no recorded node's id or mask and creates only empty nodes |
| RouteProof.TopIsFirstHop | src/route.cpp:200-219 | the predecessor walk ends at the root, at the first router of a shortest path: an edge from the root leads there and the rest of the distance is a walk onward |
| RouteProof.UnreachableExactly | src/route.cpp:208-210 | a network is skipped if and only if no walk reaches it |
| RouteProof.TreePrev | src/route.cpp:265-269 | a reached node's predecessor was settled earlier and has an edge that costs the difference of distances |
| RouteProof.SpliceAllKeeps | src/route.cpp:160-181 | splicing any number of summaries leaves routers and all predecessors but those of prefixes alone |
| RouteProof.SplicedGrounded | src/route.cpp:160-219 | after splicing every predecessor chain still ends, at the root or at 0 |
| RouteProof.SplicedHopTo | src/route.cpp:174-219 | a spliced prefix is routed by way of the first router on a shortest path to its advertising router; other networks as before |
| RouteProof.InputOk | src/route.cpp:105-155 | a well-posed database gives a graph that meets what the calculation relies on |
| Forwarding.NextHopIsNearer | src/route.cpp:200-219 | over the tables as written, at different roots and with ties broken differently: the next hop is nearer to the network by exactly the edge to it, and no summary interferes there either |
| Forwarding.ForwardingDelivers | src/route.cpp:98-235 | over the routing tables as written, for a network that no summary within reach names: a packet arrives if and only if the network can be reached; every router on the way is strictly nearer than all before, the hops cost what the first table says, and the last router is on the network |
| Forwarding.WayIsShortest | src/route.cpp:98-235 | the same for any bound on the hops that is no less than the distance |
| Forwarding.HopAtIsPlanned | src/route.cpp:157-235 | the next hop in the written table is the calculation's, or that of the summary that decides |
| Forwarding.TopIsNearer | src/route.cpp:200-219 | the first router on the way to any remote node is nearer to it by exactly the edge there, by its own table |
| Forwarding.EffectiveExactly | src/route.cpp:162-174 | a summary is spliced in exactly where its advertising router is another one and can be reached |
| Forwarding.AttractorDecides | src/route.cpp:160-181 | the last summary whose advertising router can be reached decides the route everywhere but at that router |
| Forwarding.AttractorStays | src/route.cpp:160-181 | along a path the deciding summary stays the same as long as its router can be reached |
| Detours.DrawnIsDelivered | src/route.cpp:157-235 | a packet that a summary draws is delivered if and only if it gets to the advertising router and that router is on the network, or its next hop cannot come back to it and delivers |
| Detours.SummarisedIsDelivered | src/route.cpp:157-235 | for an intra-area network that one router summarises: delivered if and only if that router is out of reach and the network is not, or it is on the network, or its next hop cannot reach it |
| Detours.DrawnNearer | src/route.cpp:174-219 | away from the advertising router a drawn packet moves nearer to it, or is dropped if the summary has no mask |
| Detours.ComesBy | src/route.cpp:174-219 | whatever is delivered from where a summary draws comes by its advertising router |
| Detours.ComesBack | src/route.cpp:162-164 | if the advertising router's next hop can reach it, the packet comes back for ever |
| Detours.HopIsEdge | src/route.cpp:200-219 | a packet that is sent on goes along an edge to another router |
| Convergence.TwoRoutersLoop | src/route.cpp:160-181 | the network of router 2 that router 1 also summarises: both send its packets to each other, and they never arrive |
| Convergence.PairLoops | src/route.cpp:160-181 | the same for any two routers of which the one off the network summarises it |
| Convergence.TwoRoutersConverge | src/route.cpp:98-239 | the tables of that example exist |
| Convergence.TablesExist | src/route.cpp:98-239 | every database that is well posed at all its routers has tables at all of them |
| Convergence.SearchEnds | src/route.cpp:255-271 | from every state of the search some run empties the heap and keeps the invariant |
| Collapse.AgreeExactly | src/route.cpp:107-151 | with unique network ids, the code's graph and RFC 2328's agree on all distances between routers if and only if every edge between routers not described from both ends has a walk of the standard no dearer |
| Collapse.CollapseKeepsDistances | src/route.cpp:107-151 | with every link described from both ends they agree |
| Collapse.BackedKeepsDistances | src/route.cpp:107-151 | edge by edge backing carries over to the distance of any two routers |
| Collapse.BothEndsDescribe | src/route.cpp:111-129 | links described from both ends leave no edge between routers undescribed |
| Collapse.SpfFindsRfcDistances | src/route.cpp:241-272 | so the distances found for routers are those of section 16.1 of RFC 2328 |
| Collapse.CodeWalkLifts | src/route.cpp:116-129 | if every edge is backed, every walk of the code's graph has one through network vertices that is no dearer |
| Collapse.RfcWalkCollapses | src/route.cpp:116-129 | every walk through network vertices has one of the code's graph that is no dearer |
| Collapse.OneWayLinkDiffers | src/route.cpp:112-115 | a link described from one end only is followed by the code and not by the standard |
| Fletcher.StampVerifiesExactly | src/utils.hpp:10-56 | up to 5803 bytes the check bytes are nonzero, and written in place make both sums 0 modulo 255 if and only if neither residue case occurs |
| Fletcher.Fletcher16 | src/utils.hpp:10-56 | the loop over wrapping registers computes both check bytes for data of any length |
| Fletcher.RunningSums | src/utils.hpp:12-27 | the two sums modulo 2^32 of the data with the field blanked |
| Fletcher.CheckBytes | src/utils.hpp:29-55 | the signed adjustments and truncating remainders give the two bytes |
| Fletcher.NoWrap | src/utils.hpp:14-27 | no sum wraps up to 5803 bytes |
| Fletcher.SumsUpdate | src/utils.hpp:19-27 | one byte's contribution to the two sums: its value, and its value times its weight |
| Fletcher.SumsOfStamped | src/utils.hpp:19-27 | what two check bytes add to the sums |
| Fletcher.HighByteResidue | src/utils.hpp:33-48 | the high byte's residue modulo 255, and the one case in which it is off by one |
| Fletcher.LowByteResidue | src/utils.hpp:34-51 | the low byte's residue, and the one case in which it is off by one |
| Fletcher.HighByteFailureExample | src/utils.hpp:39-41 | four bytes whose stamped form is rejected because of the high byte |
| Fletcher.LowByteFailureExample | src/utils.hpp:36-38 | four bytes whose stamped form is rejected because of the low byte |
| InternetChecksum.StoredChecksumVerifies | src/utils.hpp:59-73 | a packet of even or odd length up to 131074 bytes that carries its checksum at an even offset has checksum 0 |
| InternetChecksum.StoredChecksumVerifiesOnTheWire | src/packet.cpp:45-52 | read in network byte order, with an odd last byte padded as in RFC 1071, the packet sent sums to all ones |
| InternetChecksum.ByteOrderIndependent | src/utils.hpp:59-68 | reading words in host order gives the one's complement sum of the network order but for a factor of 256 |
| InternetChecksum.CrcChecksum | src/utils.hpp:59-73 | the loop computes the folded complement of the word sum for data of any length |
| InternetChecksum.Fold | src/utils.hpp:70-72 | the last three lines on a 32-bit register |
| InternetChecksum.FoldTwiceResidue | src/utils.hpp:70-72 | two folds suffice: the result is the complement modulo 65535, in 0..65534 |
| InternetChecksum.FoldCancels | src/utils.hpp:70-72 | adding the complement to a sum makes it fold to 0 |
| InternetChecksum.WordSumStored | src/packet.cpp:45-52 | storing the checksum at an even offset adds it to the word sum |
| InternetChecksum.NoWrap | src/utils.hpp:60-68 | no sum wraps up to 131074 bytes |
| Codec.RoundTripExactly | src/packet.hpp:94-301 | inside any packet, reading back a written LSA gives the same LSA if and only if it is well formed: the type fits, the link count is the number of links, tos is 0, the network length ends within the last id, the metric has 24 bits |
| Codec.ProperLsuRoundTrip | src/packet.cpp:391-432 | any list of LSAs whose length is their size, as originators fill it in, is read back from an update, and the loop goes on right behind each |
| WireLayout.HeaderLayout | src/packet.hpp:18-51 | where each header field stands, most significant byte first, as in section A.4.1 of RFC 2328 |
| WireLayout.RouterLayout | src/packet.hpp:146-169 | likewise the flags, the link count and each link (section A.4.2) |
| WireLayout.NetworkLayout | src/packet.hpp:214-227 | likewise the mask and each attached router (section A.4.3) |
| WireLayout.SummaryLayout | src/packet.hpp:276-289 | likewise the mask, the tos and the metric's low 24 bits (section A.4.4) |
| WireLayout.UpdateLayout | src/packet.cpp:391-402 | likewise the number of LSAs and each LSA of an update (section A.3.5) |
| Codec.LsuRoundTrip | src/packet.cpp:391-432 | the receiver's loop over a written update recovers any mixed list of well-formed LSAs and stops right after it |
| Codec.ParsedIsWellFormed | src/packet.cpp:414-432 | whatever the bytes, an LSA that is read is well formed and its size is what the loop advances by |
| Codec.ParseEncodedLsa | src/packet.hpp:94-301 | a well-formed LSA is read back from wherever its wire form stands |
| Codec.GetEncodedHeader | src/packet.hpp:18-51 | the header conversions to and from network order are inverse |
| Codec.GetEncodedLinks | src/packet.hpp:107-169 | links written one after the other are read back |
| PacketBuffers.ProduceLsu | src/packet.cpp:391-402 | produce_lsu writes exactly the wire form of the list, returns its length and leaves the rest of the buffer |
| PacketBuffers.ReadLsu | src/packet.cpp:404-432 | the parse loop over a byte array computes the specified list and end |
| PacketBuffers.ToPacket | src/packet.hpp:146-293 | to_packet writes exactly the wire form at its offset and nothing else |
| PacketBuffers.PutHeader | src/packet.hpp:71-75 | the header's twenty bytes and nothing else |
| PacketBuffers.PutLinks | src/packet.hpp:158-169 | the links' bytes, one after the other, and nothing else |
| PacketBuffers.PutIds | src/packet.hpp:224-227 | the attached routers' bytes and nothing else |
| PacketBuffers.ReadRouter | src/packet.hpp:125-140 | the Router constructor on a byte array |
| PacketBuffers.ReadNetwork | src/packet.hpp:195-208 | the Network constructor, whose loop ends where the header's length says |
| PacketBuffers.MakeChecksum | src/packet.hpp:175-180 | make_checksum stamps the LSA with the Fletcher bytes of its own wire form |
| PacketBuffers.EncodeChecksummed | src/packet.hpp:175-180 | in the wire form the two check bytes stand exactly in the checksum field |
| PacketBuffers.FloodedLsaVerifiesExactly | src/packet.hpp:175-180 | what a router floods passes the receiver's test of section 12.1.7 of RFC 2328 except exactly in the two residue cases |
| ChecksumFailures.LowByteFailsInLsa | src/lsdb.cpp:132-174 | the second origination of router 10.0.0.2 with one stub link is rejected because of its low check byte |
| ChecksumFailures.HighByteFailsInLsa | src/lsdb.cpp:132-174 | an origination of router 10.0.0.83 is rejected because of its high check byte |
| ChecksumFailures.StubRouterFails | src/utils.hpp:29-51 | for which host numbers and sequence numbers such an LSA falls into either case |
| Lsdbs.MostRecentStored | src/lsdb.cpp:13-40 | whatever the order of arrival, the most recent instance ever added is stored |
| Lsdbs.DistinctExactly | src/lsdb.cpp:13-40 | a list holds one entry per advertisement if and only if every arrival was newer than all earlier ones |
| Lsdbs.IncreasingIsMap | src/lsdb.cpp:13-102 | with increasing arrivals a lookup finds the last instance: the list is a map to the newest |
| Lsdbs.AddToDistinct | src/lsdb.cpp:13-40 | one addition keeps entries distinct if and only if it is newer than all it meets |
| Lsdbs.AddToKeepsId | src/lsdb.cpp:13-40 | an addition gains exactly its own advertisement and loses none |
| Lsdbs.AddKeys | src/lsdb.cpp:13-102 | the same for the keys of the whole database |
| Lsdbs.StaleLookupExample | src/lsdb.cpp:14-19 | arrivals 5, 3, 7 leave a lookup that answers 3 |
| Lsdbs.NeverStaleExactly | src/lsdb.cpp:13-40 | lookups of one advertisement stay current if and only if instances arrive in order up to some instance and nothing newer than it follows |
| Lsdbs.OthersDoNotMatter | src/lsdb.cpp:13-102 | what a list holds and a lookup finds of an advertisement depends on the arrivals of that one alone |
| Lsdbs.PeakHeadsQueue | src/lsdb.cpp:13-40 | until then the list is the history from its most recent instance on |
| Lsdbs.OvertakenIsStale | src/lsdb.cpp:14-19 | a newer arrival after one that was not newer leaves a stale lookup |
| Lsdbs.LocalHistoryIncreasingExactly | src/lsdb.cpp:130-142 | the first 2^32 own originations increase if and only if no advertisement is originated on both sides of the wrap of the 64-bit counter cut to 32 bits |
| Lsdbs.Lsdb.constructor | src/lsdb.hpp:17-27 | an empty database, with the counter at 0x80000001 |
| Lsdbs.Lsdb.FindIf | src/lsdb.cpp:44-46 | the first matching position, or the length |
| Lsdbs.Lsdb.GetLsa | src/lsdb.cpp:72-102 | the first stored instance of a key |
| Lsdbs.Lsdb.Del | src/lsdb.cpp:42-70 | exactly the first match leaves its list; the other lists stay |
| Lsdbs.Lsdb.AddLsa | src/lsdb.cpp:13-40 | the database after add, as the function of the old one |
| Lsdbs.Lsdb.MakeLsa | src/lsdb.cpp:204-231 | the i-th origination has the i-th local sequence number, its own size and the checksum of the result; it is stored like any other, and flooded only if it replaces one |
| Lsdbs.LocalNumbers | src/lsdb.cpp:130-142 | the local sequence numbers start at 0x80000001 and go up by one, over 32 bits |
| Lsdbs.OriginationReplaces | src/lsdb.cpp:207-216 | before the wrap a further origination replaces the one before: it is the only instance, a lookup finds it, and the list does not grow |
| Lsdbs.FirstOriginationStored | src/lsdb.cpp:207-211 | the first origination is the only instance of its advertisement |
| Lsas.NewerInNumbers | src/packet.hpp:79-90 | recency compares sequence number and checksum as one 48-bit number |
| Election.RepeatsExactly | src/interface.cpp:44-88 | every number of rounds runs without the null pointer if and only if some rival does not claim to be designated router, or there is a rival and the router itself does not |
| Election.TwoRoundsSettle | src/interface.cpp:26-105 | under exactly that condition two rounds reach claims that a third keeps, and there the router is not both designated and backup |
| Election.LoneRouterAborts | src/interface.cpp:59-88 | a router without rivals becomes both in the first round and follows the null pointer in the second |
| Election.OneRoundMayNotSettle | src/interface.cpp:26-105 | two rounds can be needed, and after one the router can be both |
| Election.RoundIgnoresOrder | src/interface.cpp:37-90 | the result does not depend on the order of the neighbor list |
| Election.RoundByField | src/interface.cpp:49-90 | a round depends on the rivals only through the best of each class |
| Election.BestWithSelf | src/interface.cpp:62-74 | adding the router itself changes the best of a class only if it is in the class and not beaten |
| Election.WinnersLead | src/interface.cpp:44-88 | after a round that runs to its end: the backup claims not to be designated router and has the least priority, then the least id, among those that claim to be backup, or failing these among all; the designated router likewise among those that claim to be, or it is the backup |
| Election.RivalsExactly | src/interface.cpp:37-42 | candidates are the neighbors that are two-way or beyond and have a priority |
| Election.Best | src/interface.cpp:62-74 | the element that max_element returns is in the list and none is preferred to it |
| Election.AdjOkKeepsEligible | src/interface.cpp:95-103 | the adj_ok events after an election leave every neighbor eligible |
| Election.Interface.MaxElement | src/interface.cpp:69-73 | the loop's result is the specified best |
| Election.Interface.TakeCandidates | src/interface.cpp:30-42 | the router itself and the eligible neighbors, in order |
| Election.Interface.Divide | src/interface.cpp:50-84 | the three candidate lists in one pass |
| Election.Interface.ElectDesignatedRouter | src/interface.cpp:26-93 | the router's claims after the election are one round from its claims before; it crashes exactly if all candidates claim to be designated router |

## Left out

- Sockets, ioctl, kernel routes, threads, sleeping, printing and address strings (src/main.cpp, most of src/transit.cpp, update_kernel_route): input and output.
- Interleavings inside a handler: each handler is one atomic step. At src/packet.cpp:340-342 the lock is released before the state is read; nothing is claimed at that grain.
- The exchange across a restart: dd_init and db_summary_send_iter are not reset by a mismatch. The theorems of ExchangeTheorems are about one session from the starting values; Adjacency covers restarts.
- db_summary_send_iter is never assigned before its first use. It is modelled as an offset that starts at the front and never runs past the list; after a clear the C++ iterator dangles, which the model does not capture.
- Progress under a fair channel: ExchangeTheorems.CompletesExactly shows which states have a completing run, not that every run completes.
- Originations inside exchange_done and loading_done (src/neighbor.cpp:124-157): they are steps of their own (Originate), with content left arbitrary.
- Contents of make_router_lsa and make_network_lsa, which read interface state (src/lsdb.cpp:132-201): an argument of Lsdbs.Lsdb.MakeLsa, of fewer than 65536 bytes so that the length field holds its size. The code lists neighbors' interface addresses as attached routers, where the graph expects router ids.
- process_lsr: it looks up router LSAs only, continues with a null entry after a miss, and fires bad_lsreq, whose assert a second miss fails.
- ExchangeTheorems.NoAssertFails: does not cover the assert of event_bad_lsreq, which only process_lsr fires.
- Adjacency.RunNeverAborts: likewise.
- db_summary_list holds pointers to headers inside the database, which LSDB::add deletes when it replaces an instance (src/neighbor.cpp:98-106, src/lsdb.cpp:48); the model copies the header values at negotiation.
- event_start and event_bad_lsreq: the first is never called, the second only by process_lsr.
- Interface events that process_hello fires (src/packet.cpp:124-136) and the interface state machine; inactivity and hello timers, and the counting up to a retransmission.
- Acknowledgments, retransmission lists and lsa_update_list: filled or cleared, never read.
- AS-external and ASBR-summary LSAs: no code constructs them, the AS-external loop bound moves with its pointer (src/packet.hpp:327), and del asserts on them. Their lists stay empty.
- Reads past the end of a packet give the value PastEnd instead of undefined behaviour; an update with an unknown LSA type gives its own error, where the C++ code asserts.
- The checksum loop of InternetChecksum reads words in little-endian order, as on the machines the daemon runs on.
- LSA age, MaxAge flushing and the premature-ageing rules: the code keeps the field and never acts on it.
- Claims of RFC 2328 that the code does not make: highest priority wins (section 9.4; the comparator is descending), signed sequence numbers (section 13.1), requesting newer instances of known LSAs (section 10.6), adding a summary's metric (section 16.2), distances of network vertices (section 16.1), longest match (section 11.1).
- Routing.RoutingTable.SpliceSummaries: says nothing about the edges it appends, which only the debug output reads.
- Metrics of spliced prefixes: the entry carries the distance of the advertising router, as in the code; forwarding theorems are about intra-area networks.
- Virtual links: the code ignores them, and so does the model. Finding the interface for a next hop is left out: the next hop is a router id, and the assert at src/route.cpp:231 is not modelled.
- Dead code: the MAKE_NETWORK_LSA test after an election (src/interface.cpp:107-109) can never hold.
- Election.Interface.ElectDesignatedRouter: after the null pointer nothing is said of the claims; the router's own priority, which the code never assigns, is a fixed parameter.
- Election.RepeatsExactly: rivals keep their claims, and have ids and addresses of their own.
- Routing.RoutingTable.UpdateRoute: requires that the root has an LSA, that router ids and network numbers are disjoint, and that no node has the id 0, which marks unreached nodes in the code.
- Routing.RoutingTable.NextHopFor: gives a router id where the code goes on to look up the neighbor's address and interface.
- Routing.RoutingTable.ExtractRoutes: likewise.
- Destinations.TransitNetworkRouted: masks are contiguous, and no summary names the number (Detours has that case).
- Destinations.StubNetworkRouted: likewise.
- Detours.DrawnIsDelivered: the routers that advertise summaries have router LSAs of their own. Without one the lookup at src/route.cpp:265 may have created a node of distance 0, to which no predecessor chain leads.
- Lsdbs.LocalHistoryIncreasingExactly: up to the 2^32-th origination.
- Handlers.HandleHello: does not record the neighbor's priority and claimed routers.
- Dijkstra.SumFits: at most 65537 nodes; beyond that a sum of 16-bit metrics can wrap.
- Fletcher.StampVerifiesExactly: at most 5803 bytes, the longest data for which no 32-bit sum wraps; Fletcher.Fletcher16 itself covers any length.
