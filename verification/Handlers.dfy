/**
 The neighbor object and the handlers that update it in place (src/neighbor.cpp, src/packet.cpp, the timer block of
 src/transit.cpp). Every method is tied to the function on values of the same name; a C `assert` is a precondition
 of the event that holds it, so that the calls below show where the asserts hold.
 */
module Handlers {
  import opened Wrappers
  import opened Words
  import opened Lsas
  import opened Lsdbs
  import opened Neighbors
  import A = Adjacency

  class Neighbor {
    var state: State
    var id: uint32
    var isMaster: bool
    var ddSeqNum: uint32
    var recvDdSeqNum: uint32
    var lastDd: Option<DdPacket>
    var ddRecvNoMore: bool
    var ddOptions: uint8
    var ddInit: bool
    var summary: seq<Header>
    var cursor: nat
    var requests: seq<Key>

    constructor ()
      ensures View().state == Down && !View().isMaster && View().ddInit && !View().ddRecvNoMore
      ensures View().summary == [] && View().requests == [] && View().cursor == 0 && View().lastDd == None
    {
      state, isMaster, ddInit, ddRecvNoMore := Down, false, true, false;
      summary, requests, cursor, lastDd := [], [], 0, None;
    }

    ghost function View(): Nbr
      reads this
    {
      Nbr(state, id, isMaster, ddSeqNum, recvDdSeqNum, lastDd, ddRecvNoMore, ddOptions, ddInit, summary, cursor, requests)
    }

    method HelloReceived()
      modifies this
      ensures View() == EventHelloReceived(old(View()))
    {
      if state.Rank() < Init.Rank() {
        state := Init;
      }
    }

    method TwoWayReceived(adjacent: bool)
      requires state.Rank() >= Init.Rank()
      modifies this
      ensures Ok(View()) == Event2WayReceived(old(View()), adjacent)
    {
      if state == Init {
        if adjacent {
          state, ddSeqNum, isMaster := ExStart, 0, false;
        } else {
          state := TwoWay;
        }
      }
    }

    method NegotiationDone(lsdb: Lsdb)
      requires state == ExStart
      modifies this
      ensures Ok(View()) == EventNegotiationDone(old(View()), Headers(lsdb.View()))
    {
      ghost var before := summary;
      summary := summary + HeadersOf(lsdb.routerLsas) + HeadersOf(lsdb.networkLsas) + HeadersOf(lsdb.summaryLsas);
      assert summary == before + Headers(lsdb.View());
      state := Exchange;
    }

    method ExchangeDone()
      requires state == Exchange
      modifies this
      ensures Ok(View()) == EventExchangeDone(old(View()))
    {
      state := if requests == [] then Full else Loading;
    }

    method LoadingDone()
      requires state == Loading
      modifies this
      ensures Ok(View()) == EventLoadingDone(old(View()))
    {
      state := Full;
    }

    method AdjOk(adjacent: bool)
      requires state.Rank() >= TwoWay.Rank()
      modifies this
      ensures Ok(View()) == EventAdjOk(old(View()), adjacent)
    {
      if state == TwoWay {
        if adjacent {
          state, ddSeqNum, isMaster := ExStart, 0, false;
        }
      } else if !adjacent {
        state := TwoWay;
      }
    }

    method SeqNumberMismatch()
      requires state.Rank() >= Exchange.Rank()
      modifies this
      ensures Ok(View()) == EventSeqNumberMismatch(old(View()))
    {
      state, ddSeqNum, isMaster := ExStart, 0, false;
      summary, requests := [], [];
    }

    method OneWayReceived()
      requires state.Rank() >= Init.Rank()
      modifies this
      ensures Ok(View()) == Event1WayReceived(old(View()))
    {
      if state != Init {
        state, summary, requests := Init, [], [];
      }
    }

    method KillNbr()
      modifies this
      ensures View() == EventDown(old(View()))
    {
      state, summary, requests := Down, [], [];
    }
  }

  method HandleHello(nbr: Neighbor, id: uint32, listed: bool, adjacent: bool)
    modifies nbr
    ensures Ok(nbr.View()) == ProcessHello(old(nbr.View()), id, listed, adjacent)
  {
    nbr.id := id;
    nbr.HelloReceived();
    if listed {
      nbr.TwoWayReceived(adjacent);
    } else {
      nbr.OneWayReceived();
    }
  }

  /** `produce_dd`. */
  method MakeDd(nbr: Neighbor) returns (packet: DdPacket, ghost done: bool)
    requires ProduceDd(nbr.View()).Ok?
    modifies nbr
    ensures Ok(Produced(nbr.View(), packet, done)) == ProduceDd(old(nbr.View()))
  {
    done := false;
    packet := DdPacket(!nbr.isMaster, nbr.ddInit, false, nbr.ddSeqNum, DD_OPTIONS, []);
    if !nbr.ddInit {
      if |nbr.summary| > DD_MAX_HEADERS {
        nbr.cursor := Min(nbr.cursor + DD_MAX_HEADERS, |nbr.summary|);
        packet := packet.(more := true, headers := nbr.summary[..nbr.cursor]);
      } else {
        nbr.cursor := |nbr.summary|;
        packet := packet.(headers := nbr.summary);
        if nbr.isMaster && nbr.ddRecvNoMore {
          nbr.ExchangeDone();
          nbr.summary, nbr.cursor := [], 0;
          done := true;
        }
      }
    }
  }

  /** The loop of `process_dd` that requests the headers the database does not hold. */
  method RequestMissing(nbr: Neighbor, lsdb: Lsdb, headers: seq<Header>)
    requires ValidDb(lsdb.View())
    modifies nbr`requests
    ensures nbr.requests == old(nbr.requests) + Missing(Headers(lsdb.View()), headers)
  {
    ghost var db := Headers(lsdb.View());
    for i := 0 to |headers|
      invariant nbr.requests == old(nbr.requests) + Missing(db, headers[..i])
    {
      var key := KeyOf(headers[i]);
      var stored := lsdb.GetLsa(key);
      A.KnownIsHasKey(lsdb.View(), key);
      assert headers[..i + 1][..i] == headers[..i];
      if stored == None {
        nbr.requests := nbr.requests + [key];
      }
    }
    assert headers[..|headers|] == headers;
  }

  /** What `process_dd` promises: the outcome of the function, its state in `nbr` and its packet in `sent`. */
  ghost predicate Did(r: Result<Outcome>, after: Nbr, sent: Option<DdPacket>) {
    r.Ok? && r.value.nbr == after && r.value.sent == sent
  }

  method HandleAccept(nbr: Neighbor, lsdb: Lsdb, dd: DdPacket, ghost negotiated: bool) returns (sent: Option<DdPacket>)
    requires nbr.state == Exchange && ValidDb(lsdb.View())
    modifies nbr
    ensures Did(Accept(old(nbr.View()), dd, Headers(lsdb.View()), negotiated), nbr.View(), sent)
  {
    hide Missing, ValidDb, Headers;
    ghost var n := nbr.View();
    nbr.summary := nbr.summary[Min(nbr.cursor, |nbr.summary|)..];
    nbr.cursor := 0;
    nbr.ddRecvNoMore := !dd.more;
    RequestMissing(nbr, lsdb, dd.headers);
    ghost var took := n.(summary := n.summary[Min(n.cursor, |n.summary|)..], cursor := 0, ddRecvNoMore := !dd.more,
                         requests := n.requests + Missing(Headers(lsdb.View()), dd.headers));
    assert nbr.View() == took;
    if !nbr.isMaster && nbr.summary == [] && nbr.ddRecvNoMore {
      nbr.ExchangeDone();
      return None;
    }
    var packet, _ := MakeDd(nbr);
    nbr.lastDd := Some(packet);
    sent := Some(packet);
  }

  method HandleInExchange(nbr: Neighbor, lsdb: Lsdb, dd: DdPacket, dup: bool, ghost negotiated: bool)
    returns (sent: Option<DdPacket>)
    requires nbr.state == Exchange && ValidDb(lsdb.View())
    modifies nbr
    ensures Did(InExchange(old(nbr.View()), dd, dup, Headers(lsdb.View()), negotiated), nbr.View(), sent)
  {
    hide Accept;
    sent := None;
    if dup {
      if nbr.isMaster {
        sent := nbr.lastDd;
      }
    } else if dd.ms != nbr.isMaster || dd.init || nbr.ddOptions != dd.options {
      nbr.SeqNumberMismatch();
    } else if nbr.isMaster && dd.sequenceNumber == U32(nbr.ddSeqNum + 1) {
      nbr.ddSeqNum := dd.sequenceNumber;
      sent := HandleAccept(nbr, lsdb, dd, negotiated);
    } else if !nbr.isMaster && dd.sequenceNumber == nbr.ddSeqNum {
      nbr.ddSeqNum := U32(nbr.ddSeqNum + 1);
      sent := HandleAccept(nbr, lsdb, dd, negotiated);
    } else {
      nbr.SeqNumberMismatch();
    }
  }

  method HandleInExStart(nbr: Neighbor, lsdb: Lsdb, dd: DdPacket, dup: bool, ownId: uint32)
    returns (sent: Option<DdPacket>)
    requires nbr.state == ExStart && ValidDb(lsdb.View())
    modifies nbr
    ensures Did(InExStart(old(nbr.View()), dd, dup, ownId, Headers(lsdb.View())), nbr.View(), sent)
  {
    hide AsSlave, AsMaster, Headers, ValidDb, Did;
    sent := None;
    nbr.ddOptions := dd.options;
    if nbr.id > ownId {
      sent := BecomeSlave(nbr, lsdb, dd);
    } else if !dd.ms && !dd.init && dd.sequenceNumber == nbr.ddSeqNum && nbr.id < ownId {
      sent := BecomeMaster(nbr, lsdb, dd, dup);
    } else {
      QuietIsDone(nbr.View());
    }
  }

  lemma QuietIsDone(n: Nbr)
    ensures Did(Ok(Quiet(n)), n, None)
  {
  }

  method BecomeSlave(nbr: Neighbor, lsdb: Lsdb, dd: DdPacket) returns (sent: Option<DdPacket>)
    requires nbr.state == ExStart && ValidDb(lsdb.View())
    modifies nbr
    ensures Did(AsSlave(old(nbr.View()), dd, Headers(lsdb.View())), nbr.View(), sent)
  {
    hide Headers, ValidDb;
    nbr.isMaster, nbr.ddSeqNum, nbr.ddInit := true, dd.sequenceNumber, false;
    nbr.NegotiationDone(lsdb);
    var packet, _ := MakeDd(nbr);
    nbr.lastDd := Some(packet);
    sent := Some(packet);
  }

  method BecomeMaster(nbr: Neighbor, lsdb: Lsdb, dd: DdPacket, dup: bool) returns (sent: Option<DdPacket>)
    requires nbr.state == ExStart && ValidDb(lsdb.View())
    modifies nbr
    ensures Did(AsMaster(old(nbr.View()), dd, dup, Headers(lsdb.View())), nbr.View(), sent)
  {
    hide InExchange, Headers, ValidDb;
    nbr.isMaster, nbr.ddInit := false, false;
    nbr.NegotiationDone(lsdb);
    sent := HandleInExchange(nbr, lsdb, dd, dup, true);
  }

  /** `process_dd`. */
  method HandleDd(nbr: Neighbor, lsdb: Lsdb, dd: DdPacket, ownId: uint32, adjacent: bool)
    returns (sent: Option<DdPacket>)
    requires ValidDb(lsdb.View())
    modifies nbr
    ensures Did(ProcessDd(old(nbr.View()), dd, ownId, adjacent, Headers(lsdb.View())), nbr.View(), sent)
  {
    hide InExchange, InExStart, Headers, ValidDb;
    var dup := nbr.recvDdSeqNum == dd.sequenceNumber;
    nbr.recvDdSeqNum := dd.sequenceNumber;
    sent := None;
    match nbr.state {
      case Down | Attempt | TwoWay =>
      case Init =>
        nbr.TwoWayReceived(adjacent);
        if nbr.state == ExStart {
          sent := HandleInExStart(nbr, lsdb, dd, dup, ownId);
        }
      case ExStart =>
        sent := HandleInExStart(nbr, lsdb, dd, dup, ownId);
      case Exchange =>
        sent := HandleInExchange(nbr, lsdb, dd, dup, false);
      case Loading | Full =>
        if dd.ms != nbr.isMaster || dd.init {
          nbr.SeqNumberMismatch();
        } else if nbr.isMaster && dup {
          sent := nbr.lastDd;
        }
    }
  }

  /** `process_lsu`, after the packet has been parsed. */
  method HandleLsu(nbr: Neighbor, lsdb: Lsdb, lsas: seq<Lsa>)
    requires forall i | 0 <= i < |lsas| :: Typed(lsas[i])
    modifies nbr`requests, lsdb
    ensures (nbr.View(), lsdb.View()) == A.ProcessLsu(old(nbr.View()), old(lsdb.View()), lsas)
  {
    ghost var n, db := nbr.View(), lsdb.View();
    for i := 0 to |lsas|
      invariant (nbr.View(), lsdb.View()) == A.ProcessLsu(n, db, lsas[..i])
    {
      assert lsas[..i + 1][..i] == lsas[..i];
      lsdb.AddLsa(lsas[i]);
      nbr.requests := EraseFirst(nbr.requests, KeyOf(lsas[i].header));
    }
    assert lsas[..|lsas|] == lsas;
  }

  /** `std::find_if` and `erase` on the request list. */
  method EraseFirst(requests: seq<Key>, key: Key) returns (r: seq<Key>)
    ensures r == RemoveRequest(requests, key)
  {
    var i := 0;
    while i < |requests| && requests[i] != key
      invariant i <= |requests|
      invariant requests[..i] + RemoveRequest(requests[i..], key) == RemoveRequest(requests, key)
    {
      assert requests[i..][1..] == requests[i + 1..];
      i := i + 1;
    }
    if i < |requests| {
      assert requests[i..][1..] == requests[i + 1..];
      r := requests[..i] + requests[i + 1..];
    } else {
      r := requests;
    }
  }

  /**
   One expiry of a neighbor's retransmission timer. The precondition is the invariant of `Adjacency`; without it the
   expiry can fail an assert (`Adjacency.TimerAbortsExactly`).
   */
  method HandleTimer(nbr: Neighbor) returns (sent: Option<DdPacket>, requested: seq<Key>)
    requires nbr.state == ExStart ==> !nbr.isMaster
    modifies nbr
    ensures Ok(TimerOutcome(nbr.View(), sent, requested)) == RxmtTimer(old(nbr.View()))
  {
    sent, requested := None, [];
    if nbr.state == Down {
      return;
    }
    if nbr.state == ExStart {
      var packet, _ := MakeDd(nbr);
      nbr.lastDd := Some(packet);
      sent := Some(packet);
    }
    if !nbr.isMaster && nbr.state == Exchange {
      sent := nbr.lastDd;
    }
    if nbr.state == Exchange || nbr.state == Loading {
      if nbr.requests == [] {
        if nbr.state == Loading {
          nbr.LoadingDone();
        }
      } else {
        requested := nbr.requests;
      }
    }
  }
}
