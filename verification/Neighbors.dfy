/**
 The neighbor state machine and the database description handlers as functions on values
 (src/neighbor.cpp, src/neighbor.hpp, src/packet.cpp, the timer block of src/transit.cpp; RFC 2328,
 sections 10.3, 10.6, 10.8 and 10.9).

 A C `assert` that does not hold ends the program; here it gives `Aborted`.
 */
module Neighbors {
  import opened Wrappers
  import opened Words
  import opened Lsas

  /** Headers per database description packet. */
  const DD_MAX_HEADERS := 10
  const DD_OPTIONS: uint8 := 2

  datatype State = Down | Attempt | Init | TwoWay | ExStart | Exchange | Loading | Full {
    /** The value of the C++ enumerator. */
    function Rank(): nat {
      match this
      case Down => 0 case Attempt => 1 case Init => 2 case TwoWay => 3
      case ExStart => 4 case Exchange => 5 case Loading => 6 case Full => 7
    }
  }

  /** A database description packet: the flags MS, I and M, the sequence number, the options and the headers. */
  datatype DdPacket = DdPacket(
    ms: bool, init: bool, more: bool, sequenceNumber: uint32, options: uint8, headers: seq<Header>)

  /**
   The fields of a `Neighbor`. `isMaster` says that the neighbor is the master, so that this router is the
   slave. `cursor` is `db_summary_send_iter` as an offset from the front of `summary`.
   */
  datatype Nbr = Nbr(
    state: State,
    id: uint32,
    isMaster: bool,
    ddSeqNum: uint32,
    recvDdSeqNum: uint32,
    lastDd: Option<DdPacket>,
    ddRecvNoMore: bool,
    ddOptions: uint8,
    ddInit: bool,
    summary: seq<Header>,
    cursor: nat,
    requests: seq<Key>)

  // ----- Events

  function ClearLists(n: Nbr): Nbr {
    n.(summary := [], requests := [])
  }

  function EventHelloReceived(n: Nbr): Nbr {
    if n.state.Rank() >= Init.Rank() then n else n.(state := Init)
  }

  /** `adjacent` is what `estab_adj` (or a point-to-point interface) answers. */
  function Event2WayReceived(n: Nbr, adjacent: bool): Result<Nbr> {
    if n.state.Rank() < Init.Rank() then Aborted
    else if n.state.Rank() >= TwoWay.Rank() then Ok(n)
    else if !adjacent then Ok(n.(state := TwoWay))
    else Ok(n.(state := ExStart, ddSeqNum := 0, isMaster := false))
  }

  /** `db` is the headers of the link state database in list order. */
  function EventNegotiationDone(n: Nbr, db: seq<Header>): Result<Nbr> {
    if n.state != ExStart then Aborted
    else Ok(n.(summary := n.summary + db, state := Exchange))
  }

  function EventExchangeDone(n: Nbr): Result<Nbr> {
    if n.state != Exchange then Aborted
    else Ok(n.(state := if n.requests == [] then Full else Loading))
  }

  function EventLoadingDone(n: Nbr): Result<Nbr> {
    if n.state != Loading then Aborted else Ok(n.(state := Full))
  }

  function EventAdjOk(n: Nbr, adjacent: bool): Result<Nbr> {
    if n.state.Rank() < TwoWay.Rank() then Aborted
    else if n.state == TwoWay then
      Ok(if adjacent then n.(state := ExStart, ddSeqNum := 0, isMaster := false) else n)
    else Ok(if adjacent then n else n.(state := TwoWay))
  }

  function EventSeqNumberMismatch(n: Nbr): Result<Nbr> {
    if n.state.Rank() < Exchange.Rank() then Aborted
    else Ok(ClearLists(n.(state := ExStart, ddSeqNum := 0, isMaster := false)))
  }

  function Event1WayReceived(n: Nbr): Result<Nbr> {
    if n.state.Rank() < Init.Rank() then Aborted
    else if n.state == Init then Ok(n)
    else Ok(ClearLists(n.(state := Init)))
  }

  /** `event_kill_nbr`, `event_inactivity_timer` and `event_ll_down` treat these fields alike. */
  function EventDown(n: Nbr): Nbr {
    ClearLists(n.(state := Down))
  }

  // ----- Handlers

  function Min(x: nat, y: nat): nat {
    if x < y then x else y
  }

  datatype Produced = Produced(nbr: Nbr, packet: DdPacket, done: bool)

  /** `produce_dd`; `done` tells whether it fired exchange_done. */
  function ProduceDd(n: Nbr): Result<Produced> {
    var packet := DdPacket(!n.isMaster, n.ddInit, false, n.ddSeqNum, DD_OPTIONS, []);
    if n.ddInit then Ok(Produced(n, packet, false))
    else if |n.summary| > DD_MAX_HEADERS then
      var next := Min(n.cursor + DD_MAX_HEADERS, |n.summary|);
      Ok(Produced(n.(cursor := next), packet.(more := true, headers := n.summary[..next]), false))
    else
      var sent := n.(cursor := |n.summary|);
      var full := packet.(headers := n.summary);
      if n.isMaster && n.ddRecvNoMore then
        var finished :- EventExchangeDone(sent);
        Ok(Produced(finished.(summary := [], cursor := 0), full, true))
      else Ok(Produced(sent, full, false))
  }

  /** What a handler did: the new state, the packet sent, the headers accepted, and the events fired. */
  datatype Outcome = Outcome(
    nbr: Nbr, sent: Option<DdPacket>, accepted: Option<seq<Header>>,
    negotiated: bool, mismatch: bool, done: bool)

  function Quiet(n: Nbr): Outcome {
    Outcome(n, None, None, false, false, false)
  }

  function Resend(n: Nbr): Outcome {
    Outcome(n, n.lastDd, None, false, false, false)
  }

  function Mismatch(n: Nbr): Result<Outcome> {
    var restarted :- EventSeqNumberMismatch(n);
    Ok(Outcome(restarted, None, None, false, true, false))
  }

  /** The keys of those headers that the database `db` holds no instance of. */
  function Missing(db: seq<Header>, headers: seq<Header>): seq<Key> {
    if headers == [] then []
    else
      var last := headers[|headers| - 1];
      Missing(db, headers[..|headers| - 1]) + (if Known(db, KeyOf(last)) then [] else [KeyOf(last)])
  }

  predicate Known(db: seq<Header>, key: Key) {
    exists i | 0 <= i < |db| :: KeyOf(db[i]) == key
  }

  /** `process_dd`; `ownId` is this router's id. */
  function ProcessDd(n: Nbr, dd: DdPacket, ownId: uint32, adjacent: bool, db: seq<Header>): Result<Outcome> {
    var dup := n.recvDdSeqNum == dd.sequenceNumber;
    var seen := n.(recvDdSeqNum := dd.sequenceNumber);
    match n.state
    case Down | Attempt | TwoWay => Ok(Quiet(seen))
    case Init =>
      var met :- Event2WayReceived(seen, adjacent);
      if met.state == TwoWay then Ok(Quiet(met)) else InExStart(met, dd, dup, ownId, db)
    case ExStart => InExStart(seen, dd, dup, ownId, db)
    case Exchange => InExchange(seen, dd, dup, db, false)
    case Loading | Full =>
      if dd.ms != seen.isMaster || dd.init then Mismatch(seen)
      else if seen.isMaster && dup then Ok(Resend(seen))
      else Ok(Quiet(seen))
  }

  function InExStart(n: Nbr, dd: DdPacket, dup: bool, ownId: uint32, db: seq<Header>): Result<Outcome> {
    var heard := n.(ddOptions := dd.options);
    // The C++ flag test `flags & DD_FLAG_ALL` expands to an expression that is always true.
    if n.id > ownId then AsSlave(heard, dd, db)
    else if !dd.ms && !dd.init && dd.sequenceNumber == n.ddSeqNum && n.id < ownId then AsMaster(heard, dd, dup, db)
    else Ok(Quiet(heard))
  }

  function AsSlave(n: Nbr, dd: DdPacket, db: seq<Header>): Result<Outcome> {
    var slave :- EventNegotiationDone(n.(isMaster := true, ddSeqNum := dd.sequenceNumber, ddInit := false), db);
    var p :- ProduceDd(slave);
    Ok(Outcome(p.nbr.(lastDd := Some(p.packet)), Some(p.packet), None, true, false, p.done))
  }

  function AsMaster(n: Nbr, dd: DdPacket, dup: bool, db: seq<Header>): Result<Outcome> {
    var master :- EventNegotiationDone(n.(isMaster := false, ddInit := false), db);
    InExchange(master, dd, dup, db, true)
  }

  function InExchange(n: Nbr, dd: DdPacket, dup: bool, db: seq<Header>, negotiated: bool): Result<Outcome> {
    if dup then Ok((if n.isMaster then Resend(n) else Quiet(n)).(negotiated := negotiated))
    else if dd.ms != n.isMaster || dd.init || n.ddOptions != dd.options then Mismatch(n)
    else if n.isMaster && dd.sequenceNumber == U32(n.ddSeqNum + 1) then
      Accept(n.(ddSeqNum := dd.sequenceNumber), dd, db, negotiated)
    else if !n.isMaster && dd.sequenceNumber == n.ddSeqNum then
      Accept(n.(ddSeqNum := U32(n.ddSeqNum + 1)), dd, db, negotiated)
    else Mismatch(n)
  }

  /** The tail of `process_dd`: the packet counts as a reply to the last one sent. */
  function Accept(n: Nbr, dd: DdPacket, db: seq<Header>, negotiated: bool): Result<Outcome> {
    var took := n.(summary := n.summary[Min(n.cursor, |n.summary|)..], cursor := 0,
                   ddRecvNoMore := !dd.more,
                   requests := n.requests + Missing(db, dd.headers));
    if !n.isMaster && took.summary == [] && took.ddRecvNoMore then
      var finished :- EventExchangeDone(took);
      Ok(Outcome(finished, None, Some(dd.headers), negotiated, false, true))
    else
      var p :- ProduceDd(took);
      Ok(Outcome(p.nbr.(lastDd := Some(p.packet)), Some(p.packet), Some(dd.headers), negotiated, false, p.done))
  }

  /** `process_hello` up to the interface events; `listed` says whether the hello names this router. */
  function ProcessHello(n: Nbr, id: uint32, listed: bool, adjacent: bool): Result<Nbr> {
    var heard := EventHelloReceived(n.(id := id));
    if listed then Event2WayReceived(heard, adjacent) else Event1WayReceived(heard)
  }

  /** Removal of the first request for a key, as `process_lsu` does for each LSA received. */
  function RemoveRequest(requests: seq<Key>, key: Key): seq<Key> {
    if requests == [] then []
    else if requests[0] == key then requests[1..]
    else [requests[0]] + RemoveRequest(requests[1..], key)
  }

  datatype TimerOutcome = TimerOutcome(nbr: Nbr, sent: Option<DdPacket>, requested: seq<Key>)

  /** One expiry of the retransmission timer: DD packet, retransmission, then link state request. */
  function RxmtTimer(n: Nbr): Result<TimerOutcome> {
    if n.state == Down then Ok(TimerOutcome(n, None, []))
    else if n.state == ExStart then
      var p :- ProduceDd(n);
      Ok(TimerOutcome(p.nbr.(lastDd := Some(p.packet)), Some(p.packet), []))
    else
      var sent := if !n.isMaster && n.state == Exchange then n.lastDd else None;
      if n.state == Loading && n.requests == [] then
        var loaded :- EventLoadingDone(n);
        Ok(TimerOutcome(loaded, sent, []))
      else Ok(TimerOutcome(n, sent, if n.state == Exchange || n.state == Loading then n.requests else []))
  }
}
