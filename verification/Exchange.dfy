/**
 Two routers that exchange their database descriptions over FIFO channels that lose and duplicate packets.

 The peer with the larger router id is called `m` (it becomes the master), the other `s`. The state holds, beside
 each peer's `Nbr` and database headers, history that no handler reads: the snapshot taken at negotiation, the
 headers accepted, the number of packets accepted, and whether exchange_done and seq_number_mismatch have fired.
 Runs start before the first hello and cover one session: the neighbor is not lost and stays eligible for adjacency.
 */
module Exchange {
  import opened Wrappers
  import opened Words
  import opened Lsas
  import opened Neighbors

  datatype Peer = Peer(
    ownId: uint32, nbr: Nbr, db: seq<Header>,
    negotiated: bool, snapshot: seq<Header>, accepted: seq<Header>, rounds: nat, done: bool, mismatched: bool)

  datatype Sys = Sys(m: Peer, s: Peer, toS: seq<DdPacket>, toM: seq<DdPacket>)

  // ----- Steps

  /** What happens at one peer without a database description packet. */
  datatype Local =
    | Hello(listed: bool, adjacent: bool)
    | AdjOk(adjacent: bool)
    | Originate(db: seq<Header>)
    | Update(key: Key, db: seq<Header>)  // one LSA of a link state update

  datatype Step =
    | DeliverToM(adjacent: bool) | DeliverToS(adjacent: bool)
    | TimerM | TimerS
    | LocalM(l: Local) | LocalS(l: Local)
    | LoseToM(i: nat) | LoseToS(i: nat)
    | DuplicateToM(i: nat) | DuplicateToS(i: nat)

  /** The database keeps every key. */
  ghost predicate Grows(db: seq<Header>, db': seq<Header>) {
    forall key :: Known(db, key) ==> Known(db', key)
  }

  ghost predicate LocalEnabled(p: Peer, l: Local) {
    match l
    case Hello(listed, _) => listed || p.nbr.state.Rank() <= Init.Rank()
    case AdjOk(adjacent) => p.nbr.state == TwoWay || (p.nbr.state.Rank() > TwoWay.Rank() && adjacent)
    case Originate(db) => Grows(p.db, db)
    case Update(key, db) => Grows(p.db, db) && Known(db, key)
  }

  function DoLocal(p: Peer, l: Local): Result<Peer> {
    match l
    case Hello(listed, adjacent) =>
      var n :- ProcessHello(p.nbr, p.nbr.id, listed, adjacent);
      Ok(p.(nbr := n))
    case AdjOk(adjacent) =>
      var n :- EventAdjOk(p.nbr, adjacent);
      Ok(p.(nbr := n))
    case Originate(db) => Ok(p.(db := db))
    case Update(key, db) => Ok(p.(db := db, nbr := p.nbr.(requests := RemoveRequest(p.nbr.requests, key))))
  }

  function Record(p: Peer, o: Outcome): Peer {
    p.(nbr := o.nbr,
       negotiated := p.negotiated || o.negotiated,
       snapshot := if o.negotiated then p.db else p.snapshot,
       accepted := p.accepted + (if o.accepted.Some? then o.accepted.value else []),
       rounds := p.rounds + (if o.accepted.Some? then 1 else 0),
       done := p.done || o.done,
       mismatched := p.mismatched || o.mismatch)
  }

  function Send(channel: seq<DdPacket>, sent: Option<DdPacket>): seq<DdPacket> {
    if sent.Some? then channel + [sent.value] else channel
  }

  function Lose(channel: seq<DdPacket>, i: nat): seq<DdPacket>
    requires i < |channel|
  {
    channel[..i] + channel[i + 1..]
  }

  function Duplicate(channel: seq<DdPacket>, i: nat): seq<DdPacket>
    requires i < |channel|
  {
    channel[..i] + [channel[i]] + channel[i..]
  }

  ghost predicate Enabled(c: Sys, step: Step) {
    match step
    case DeliverToM(_) => c.toM != []
    case DeliverToS(_) => c.toS != []
    case TimerM | TimerS => true
    case LocalM(l) => LocalEnabled(c.m, l)
    case LocalS(l) => LocalEnabled(c.s, l)
    case LoseToM(i) => i < |c.toM|
    case LoseToS(i) => i < |c.toS|
    case DuplicateToM(i) => i < |c.toM|
    case DuplicateToS(i) => i < |c.toS|
  }

  function Receive(p: Peer, dd: DdPacket, adjacent: bool): Result<Outcome> {
    ProcessDd(p.nbr, dd, p.ownId, adjacent, p.db)
  }

  ghost function Do(c: Sys, step: Step): Result<Sys>
    requires Enabled(c, step)
  {
    match step
    case DeliverToM(adjacent) =>
      var o :- Receive(c.m, c.toM[0], adjacent);
      Ok(Sys(Record(c.m, o), c.s, Send(c.toS, o.sent), c.toM[1..]))
    case DeliverToS(adjacent) =>
      var o :- Receive(c.s, c.toS[0], adjacent);
      Ok(Sys(c.m, Record(c.s, o), c.toS[1..], Send(c.toM, o.sent)))
    case TimerM =>
      var o :- RxmtTimer(c.m.nbr);
      Ok(c.(m := c.m.(nbr := o.nbr), toS := Send(c.toS, o.sent)))
    case TimerS =>
      var o :- RxmtTimer(c.s.nbr);
      Ok(c.(s := c.s.(nbr := o.nbr), toM := Send(c.toM, o.sent)))
    case LocalM(l) =>
      var p :- DoLocal(c.m, l);
      Ok(c.(m := p))
    case LocalS(l) =>
      var p :- DoLocal(c.s, l);
      Ok(c.(s := p))
    case LoseToM(i) => Ok(c.(toM := Lose(c.toM, i)))
    case LoseToS(i) => Ok(c.(toS := Lose(c.toS, i)))
    case DuplicateToM(i) => Ok(c.(toM := Duplicate(c.toM, i)))
    case DuplicateToS(i) => Ok(c.(toS := Duplicate(c.toS, i)))
  }

  /** A new neighbor; the two sequence numbers are uninitialised in the C++ code and hence arbitrary. */
  predicate NewPeer(p: Peer) {
    && p.nbr.state == Down && !p.nbr.isMaster && p.nbr.lastDd == None && !p.nbr.ddRecvNoMore && p.nbr.ddInit
    && p.nbr.summary == [] && p.nbr.cursor == 0 && p.nbr.requests == []
    && !p.negotiated && p.snapshot == [] && p.accepted == [] && p.rounds == 0 && !p.done && !p.mismatched
  }

  predicate Start(c: Sys) {
    && NewPeer(c.m) && NewPeer(c.s) && c.toS == [] && c.toM == []
    && c.m.nbr.id == c.s.ownId < c.m.ownId == c.s.nbr.id
  }

  /** The state after a sequence of steps, if each is enabled and no C assert stops it. */
  ghost function Run(c: Sys, steps: seq<Step>): Option<Sys> {
    if steps == [] then Some(c)
    else
      match Run(c, steps[..|steps| - 1])
      case None => None
      case Some(mid) =>
        var last := steps[|steps| - 1];
        if !Enabled(mid, last) then None
        else match Do(mid, last) case Ok(next) => Some(next) case Aborted => None
  }

  // ----- The packets of round k

  /** What is left of a snapshot after `j` batches of ten headers, and the batch that comes next. */
  function Rest(list: seq<Header>, j: nat): seq<Header> {
    list[Min(10 * j, |list|)..]
  }

  function Batch(list: seq<Header>, j: nat): seq<Header> {
    Rest(list, j)[..Min(10, |Rest(list, j)|)]
  }

  function Batches(list: seq<Header>, j: nat): seq<Header> {
    list[..Min(10 * j, |list|)]
  }

  const INIT_PACKET := DdPacket(true, true, false, 0, DD_OPTIONS, [])

  /** The master's packet of round `k`: round 0 is the empty packet of the negotiation. */
  function Poll(list: seq<Header>, k: nat): DdPacket {
    if k == 0 then INIT_PACKET
    else DdPacket(true, false, |list| > 10 * k, U32(k), DD_OPTIONS, Batch(list, k - 1))
  }

  function Reply(list: seq<Header>, k: nat): DdPacket {
    DdPacket(false, false, |list| > 10 * (k + 1), U32(k), DD_OPTIONS, Batch(list, k))
  }

  /** After `j` accepted polls and the slave's reply to the last, both snapshots have been sent. */
  predicate Finished(mList: seq<Header>, sList: seq<Header>, j: nat) {
    |mList| <= 10 * j && |sList| <= 10 * (j + 1)
  }

  // ----- The invariant

  predicate Fresh(p: Peer) {
    var n := p.nbr;
    && n.state.Rank() <= ExStart.Rank() && (n.state == ExStart ==> n.ddSeqNum == 0)
    && !n.isMaster && (n.lastDd == None || n.lastDd == Some(INIT_PACKET)) && !n.ddRecvNoMore && n.ddInit
    && n.summary == [] && n.cursor == 0 && n.requests == []
    && !p.negotiated && p.snapshot == [] && p.accepted == [] && p.rounds == 0 && !p.done && !p.mismatched
  }

  /** The slave after accepting `p.rounds` polls from a master with snapshot `mList`. */
  predicate SlaveAt(p: Peer, mList: seq<Header>) {
    var n, k := p.nbr, p.rounds;
    && p.negotiated && !p.mismatched && n.isMaster && !n.ddInit && n.ddOptions == DD_OPTIONS
    && n.ddSeqNum == n.recvDdSeqNum == U32(k)
    && n.lastDd == Some(Reply(p.snapshot, k))
    && p.accepted == Batches(mList, k)
    && n.ddRecvNoMore == (k > 0 && |mList| <= 10 * k)
    && p.done == (k > 0 && Finished(mList, p.snapshot, k))
    && (if p.done then n.state == Loading || n.state == Full
        else n.state == Exchange && n.summary == Rest(p.snapshot, k) && n.cursor == |Batch(p.snapshot, k)|)
  }

  /** The master after accepting `p.rounds > 0` replies from a slave with snapshot `sList`. */
  predicate MasterAt(p: Peer, sList: seq<Header>) {
    var n, k := p.nbr, p.rounds;
    && p.negotiated && !p.mismatched && !n.isMaster && !n.ddInit && n.ddOptions == DD_OPTIONS
    && k > 0 && n.ddSeqNum == U32(k) && n.recvDdSeqNum == U32(k - 1)
    && p.accepted == Batches(sList, k)
    && p.done == Finished(p.snapshot, sList, k - 1)
    && (k > 1 ==> !Finished(p.snapshot, sList, k - 2))
    && (if p.done then n.state == Loading || n.state == Full
        else n.state == Exchange && n.lastDd == Some(Poll(p.snapshot, k))
             && n.summary == Rest(p.snapshot, k - 1) && n.cursor == |Batch(p.snapshot, k - 1)|)
  }

  /** The master that took the slave's first reply for a duplicate. */
  predicate MasterStuck(p: Peer) {
    var n := p.nbr;
    && p.negotiated && !p.mismatched && !p.done && p.rounds == 0 && p.accepted == []
    && n.state == Exchange && !n.isMaster && !n.ddInit && n.ddSeqNum == n.recvDdSeqNum == 0
    && n.lastDd == Some(INIT_PACKET)
  }

  /** The channel holds copies of `x` and then copies of `y`. */
  predicate TwoPhase(channel: seq<DdPacket>, x: DdPacket, y: DdPacket) {
    && (forall i | 0 <= i < |channel| :: channel[i] == x || channel[i] == y)
    && (forall i, j | 0 <= i < j < |channel| && channel[j] == x :: channel[i] == x)
  }

  predicate AllCopies(channel: seq<DdPacket>, x: DdPacket) {
    forall i | 0 <= i < |channel| :: channel[i] == x
  }

  /** Neither has negotiated. */
  predicate PhaseHello(c: Sys) {
    && Fresh(c.m) && Fresh(c.s) && AllCopies(c.toS, INIT_PACKET) && AllCopies(c.toM, INIT_PACKET)
    && (c.toS != [] ==> c.m.nbr.state == ExStart && c.m.nbr.lastDd.Some?)
  }

  /** The slave has, the master has not. */
  predicate PhaseHalf(c: Sys) {
    && Fresh(c.m) && c.m.nbr.state == ExStart && c.m.nbr.lastDd.Some?
    && SlaveAt(c.s, []) && c.s.rounds == 0
    && AllCopies(c.toS, INIT_PACKET) && TwoPhase(c.toM, INIT_PACKET, Reply(c.s.snapshot, 0))
  }

  predicate PhaseStuck(c: Sys) {
    && MasterStuck(c.m) && SlaveAt(c.s, c.m.snapshot) && c.s.rounds == 0
    && AllCopies(c.toS, INIT_PACKET) && AllCopies(c.toM, Reply(c.s.snapshot, 0))
  }

  predicate PhaseRounds(c: Sys) {
    var k, mList, sList := c.m.rounds, c.m.snapshot, c.s.snapshot;
    && MasterAt(c.m, sList) && SlaveAt(c.s, mList)
    && if c.s.rounds == k then
         !c.m.done && AllCopies(c.toS, Poll(mList, k)) && TwoPhase(c.toM, Reply(sList, k - 1), Reply(sList, k))
       else
         c.s.rounds == k - 1 && AllCopies(c.toM, Reply(sList, k - 1))
         && if c.m.done then AllCopies(c.toS, Poll(mList, k - 1))
            else TwoPhase(c.toS, Poll(mList, k - 1), Poll(mList, k))
  }

  predicate Inv(c: Sys) {
    && c.m.nbr.id == c.s.ownId < c.m.ownId == c.s.nbr.id
    && (PhaseHello(c) || PhaseHalf(c) || PhaseStuck(c) || PhaseRounds(c))
  }
}
