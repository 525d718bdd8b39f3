/**
 When the handlers of a neighbor do what, for every state and every packet, in terms of the neighbor's fields and the packet
 (src/neighbor.cpp, src/packet.cpp, src/transit.cpp; RFC 2328, sections 10.3, 10.5, 10.6, 10.8 and 10.9).
 */
module NeighborRules {
  import opened Wrappers
  import opened Words
  import opened Lsas
  import opened Neighbors
  import Lsdbs
  import A = Adjacency

  // ----- Database description packets

  /** The number that the next packet of the exchange carries. */
  function NextNumber(n: Nbr): uint32 {
    if n.isMaster then (n.ddSeqNum + 1) % 0x1_0000_0000 else n.ddSeqNum
  }

  predicate Fits(n: Nbr, dd: DdPacket) {
    dd.ms == n.isMaster && !dd.init && dd.options == n.ddOptions && dd.sequenceNumber == NextNumber(n)
  }

  /** In EXCHANGE the packet is a new one and the next in order. */
  predicate InOrder(n: Nbr, dd: DdPacket) {
    dd.sequenceNumber != n.recvDdSeqNum && Fits(n, dd)
  }

  /** The state in which the negotiation takes place, if the packet finds or makes one. */
  predicate Negotiating(n: Nbr, adjacent: bool) {
    n.state == ExStart || (n.state == Init && adjacent)
  }

  /** The reply that makes this router master: its own number comes back. */
  predicate Confirms(n: Nbr, dd: DdPacket) {
    !dd.ms && !dd.init && dd.sequenceNumber == (if n.state == Init then 0 else n.ddSeqNum)
  }

  /** The restart: back to EXSTART as one who may become master, with number 0 and both lists empty. */
  function Restarted(n: Nbr, dd: DdPacket): Nbr {
    Nbr(ExStart, n.id, false, 0, dd.sequenceNumber, n.lastDd, n.ddRecvNoMore, n.ddOptions, n.ddInit, [], n.cursor, [])
  }

  /** The number after a packet has been accepted: the slave takes the master's, the master goes on to the next. */
  function Counted(n: Nbr, dd: DdPacket): uint32 {
    if n.isMaster then dd.sequenceNumber else (n.ddSeqNum + 1) % 0x1_0000_0000
  }

  // ----- Layer by layer

  /** The packet's headers were taken; roles and options stay, and the exchange may have ended. */
  predicate Took(n: Nbr, o: Outcome, dd: DdPacket, negotiated: bool) {
    && o.accepted == Some(dd.headers) && o.negotiated == negotiated && !o.mismatch && EndsRight(o)
    && o.nbr.isMaster == n.isMaster && o.nbr.ddInit == n.ddInit && o.nbr.ddOptions == n.ddOptions
    && o.nbr.ddRecvNoMore == !dd.more && (!o.done ==> o.nbr.state == Exchange && o.nbr.summary == Unsent(n))
    && (o.done ==> |Unsent(n)| <= 10 && !dd.more && (!n.isMaster ==> Unsent(n) == []))
  }

  /** What is left to describe once the last packet has been acknowledged. */
  function Unsent(n: Nbr): seq<Header> {
    if n.cursor < |n.summary| then n.summary[n.cursor..] else []
  }

  predicate EndsRight(o: Outcome) {
    o.done ==> o.nbr.state == if o.nbr.requests == [] then Full else Loading
  }

  lemma AcceptTakes(n: Nbr, dd: DdPacket, db: seq<Header>, negotiated: bool)
    requires n.state == Exchange
    ensures Accept(n, dd, db, negotiated).Ok? && Took(n, Accept(n, dd, db, negotiated).value, dd, negotiated)
    ensures Accept(n, dd, db, negotiated).value.nbr.ddSeqNum == n.ddSeqNum
  {
    hide Missing;
  }

  lemma ExchangeRules(n: Nbr, dd: DdPacket, dup: bool, db: seq<Header>, negotiated: bool)
    requires n.state == Exchange
    ensures InExchange(n, dd, dup, db, negotiated).Ok?
    ensures var o := InExchange(n, dd, dup, db, negotiated).value;
            if dup then o == Outcome(n, if n.isMaster then n.lastDd else None, None, negotiated, false, false)
            else if Fits(n, dd) then Took(n, o, dd, negotiated) && o.nbr.ddSeqNum == Counted(n, dd)
            else o == Outcome(n.(state := ExStart, ddSeqNum := 0, isMaster := false, summary := [], requests := []),
                              None, None, false, true, false)
  {
    hide Accept, Took;
    AcceptTakes(n.(ddSeqNum := dd.sequenceNumber), dd, db, negotiated);
    AcceptTakes(n.(ddSeqNum := U32(n.ddSeqNum + 1)), dd, db, negotiated);
    if Fits(n, dd) && !dup {
      assert n.isMaster ==> InExchange(n, dd, dup, db, negotiated) == Accept(n.(ddSeqNum := dd.sequenceNumber), dd, db, negotiated);
      TookAlike(n, dd, db, negotiated);
    }
  }

  lemma TookAlike(n: Nbr, dd: DdPacket, db: seq<Header>, negotiated: bool)
    ensures forall o, number :: Took(n.(ddSeqNum := number), o, dd, negotiated) ==> Took(n, o, dd, negotiated)
  {
  }

  lemma SlaveRules(n: Nbr, dd: DdPacket, db: seq<Header>)
    requires n.state == ExStart
    ensures AsSlave(n, dd, db).Ok?
    ensures var o := AsSlave(n, dd, db).value;
            && o.negotiated && !o.mismatch && o.accepted == None && EndsRight(o)
            && o.nbr.isMaster && !o.nbr.ddInit && o.nbr.ddOptions == n.ddOptions
  {
  }

  /** What negotiation does with a packet, once the neighbor is in EXSTART. */
  lemma StartRules(n: Nbr, dd: DdPacket, dup: bool, ownId: uint32, db: seq<Header>)
    requires n.state == ExStart
    ensures InExStart(n, dd, dup, ownId, db).Ok?
    ensures var o := InExStart(n, dd, dup, ownId, db).value;
            && !o.mismatch && EndsRight(o)
            && (o.negotiated <==> n.id > ownId || (n.id < ownId && Confirms(n, dd)))
            && (o.negotiated ==> o.nbr.isMaster == (n.id > ownId) && !o.nbr.ddInit && o.nbr.ddOptions == dd.options)
            && (o.accepted.Some? <==> n.id < ownId && Confirms(n, dd) && !dup)
            && (o.accepted.Some? ==> o.accepted.value == dd.headers)
            && (!o.negotiated ==> o == Outcome(n.(ddOptions := dd.options), None, None, false, false, false))
  {
    hide InExchange, AsSlave;
    var heard := n.(ddOptions := dd.options);
    if n.id > ownId {
      SlaveRules(heard, dd, db);
    } else if Confirms(n, dd) && n.id < ownId {
      var master := EventNegotiationDone(heard.(isMaster := false, ddInit := false), db).value;
      ExchangeRules(master, dd, dup, db, true);
    }
  }

  /** `process_dd` after the number has been noted. */
  function Noted(n: Nbr, dd: DdPacket): Nbr {
    n.(recvDdSeqNum := dd.sequenceNumber)
  }

  function Met(n: Nbr): Nbr {
    if n.state == Init then n.(state := ExStart, ddSeqNum := 0, isMaster := false) else n
  }

  lemma ByState(n: Nbr, dd: DdPacket, ownId: uint32, adjacent: bool, db: seq<Header>)
    ensures var dup := n.recvDdSeqNum == dd.sequenceNumber;
            && (n.state == Exchange ==> ProcessDd(n, dd, ownId, adjacent, db) == InExchange(Noted(n, dd), dd, dup, db, false))
            && (Negotiating(n, adjacent) ==>
                  ProcessDd(n, dd, ownId, adjacent, db) == InExStart(Met(Noted(n, dd)), dd, dup, ownId, db))
  {
    hide InExchange, InExStart;
  }

  /** The rules of the layer that the state leads to. */
  lemma Rules(n: Nbr, dd: DdPacket, ownId: uint32, adjacent: bool, db: seq<Header>)
    ensures var dup, r := n.recvDdSeqNum == dd.sequenceNumber, ProcessDd(n, dd, ownId, adjacent, db);
            && r.Ok?
            && var o := r.value;
               && EndsRight(o)
               && (n.state == Exchange ==>
                     if dup then o == Outcome(n, if n.isMaster then n.lastDd else None, None, false, false, false)
                     else if Fits(n, dd) then Took(n, o, dd, false) && o.nbr.ddSeqNum == Counted(n, dd)
                     else o == Outcome(Restarted(n, dd), None, None, false, true, false))
               && (Negotiating(n, adjacent) ==>
                     && !o.mismatch
                     && (o.negotiated <==> n.id > ownId || (n.id < ownId && Confirms(n, dd)))
                     && (o.negotiated ==> o.nbr.isMaster == (n.id > ownId) && !o.nbr.ddInit && o.nbr.ddOptions == dd.options)
                     && (o.accepted.Some? <==> n.id < ownId && Confirms(n, dd) && !dup)
                     && (o.accepted.Some? ==> o.accepted.value == dd.headers))
               && (n.state == ExStart && !o.negotiated ==>
                     o == Outcome(Noted(n, dd).(ddOptions := dd.options), None, None, false, false, false))
  {
    var dup := n.recvDdSeqNum == dd.sequenceNumber;
    ByState(n, dd, ownId, adjacent, db);
    if n.state == Exchange {
      ExchangeRules(Noted(n, dd), dd, dup, db, false);
    } else if Negotiating(n, adjacent) {
      StartRules(Met(Noted(n, dd)), dd, dup, ownId, db);
    }
    hide InExchange, InExStart;
  }

  // ----- What process_dd does, exactly

  /**
   Exactly when seq_number_mismatch fires, and the state that it leaves: in LOADING and FULL if the packet has the wrong
   role or the I flag, as after the neighbor has started anew; in EXCHANGE if it is neither a repeat nor the next in order.
   */
  lemma MismatchExactly(n: Nbr, dd: DdPacket, ownId: uint32, adjacent: bool, db: seq<Header>)
    ensures ProcessDd(n, dd, ownId, adjacent, db).Ok?
    ensures var o := ProcessDd(n, dd, ownId, adjacent, db).value;
            && (o.mismatch <==>
                  || ((n.state == Loading || n.state == Full) && (dd.ms != n.isMaster || dd.init))
                  || (n.state == Exchange && dd.sequenceNumber != n.recvDdSeqNum && !InOrder(n, dd)))
            && (o.mismatch ==> o == Outcome(Restarted(n, dd), None, None, false, true, false))
  {
    Rules(n, dd, ownId, adjacent, db);
    hide InExchange, InExStart;
  }

  /** Exactly when the headers of a packet are taken, and what becomes of the number, the list and the state. */
  lemma AcceptedExactly(n: Nbr, dd: DdPacket, ownId: uint32, adjacent: bool, db: seq<Header>)
    ensures ProcessDd(n, dd, ownId, adjacent, db).Ok?
    ensures var o := ProcessDd(n, dd, ownId, adjacent, db).value;
            && (o.accepted.Some? <==>
                  || (n.state == Exchange && InOrder(n, dd))
                  || (Negotiating(n, adjacent) && n.id < ownId && Confirms(n, dd) && dd.sequenceNumber != n.recvDdSeqNum))
            && (o.accepted.Some? ==> o.accepted.value == dd.headers)
            && (n.state == Exchange && InOrder(n, dd) ==> Took(n, o, dd, false) && o.nbr.ddSeqNum == Counted(n, dd))
  {
    Rules(n, dd, ownId, adjacent, db);
    hide InExchange, InExStart;
  }

  /** Exactly when the roles are settled, and who has which: the greater router id is the master. */
  lemma NegotiatedExactly(n: Nbr, dd: DdPacket, ownId: uint32, adjacent: bool, db: seq<Header>)
    ensures ProcessDd(n, dd, ownId, adjacent, db).Ok?
    ensures var o := ProcessDd(n, dd, ownId, adjacent, db).value;
            && (o.negotiated <==> Negotiating(n, adjacent) && (n.id > ownId || (n.id < ownId && Confirms(n, dd))))
            && (o.negotiated ==> o.nbr.isMaster == (n.id > ownId) && !o.nbr.ddInit && o.nbr.ddOptions == dd.options)
  {
    Rules(n, dd, ownId, adjacent, db);
    hide InExchange, InExStart;
  }

  /** A slave repeats its last packet for a repeated one, in LOADING and FULL too; otherwise a repeat changes nothing. */
  lemma RepeatIsAnswered(n: Nbr, dd: DdPacket, ownId: uint32, adjacent: bool, db: seq<Header>)
    requires dd.sequenceNumber == n.recvDdSeqNum
    requires n.state == Exchange || ((n.state == Loading || n.state == Full) && dd.ms == n.isMaster && !dd.init)
    ensures ProcessDd(n, dd, ownId, adjacent, db)
            == Ok(Outcome(n, if n.isMaster then n.lastDd else None, None, false, false, false))
  {
  }

  /** What is not negotiated, accepted, repeated or a mismatch is ignored, but for its number, its options and the 2-way. */
  lemma OtherwiseIgnored(n: Nbr, dd: DdPacket, ownId: uint32, adjacent: bool, db: seq<Header>)
    ensures ProcessDd(n, dd, ownId, adjacent, db).Ok?
    ensures var o := ProcessDd(n, dd, ownId, adjacent, db).value; var heard := n.(recvDdSeqNum := dd.sequenceNumber);
            && (n.state in {Down, Attempt, TwoWay} ==> o == Outcome(heard, None, None, false, false, false))
            && (n.state == Init && !adjacent ==> o == Outcome(heard.(state := TwoWay), None, None, false, false, false))
            && (n.state == ExStart && !o.negotiated ==>
                  o == Outcome(heard.(ddOptions := dd.options), None, None, false, false, false))
            && (n.state in {Loading, Full} && dd.ms == n.isMaster && !dd.init && dd.sequenceNumber != n.recvDdSeqNum ==>
                  o == Outcome(heard, None, None, false, false, false))
  {
    Rules(n, dd, ownId, adjacent, db);
    hide InExchange, InExStart;
  }

  /** The exchange ends in FULL if nothing is left to request, and in LOADING otherwise. */
  lemma DoneDecides(n: Nbr, dd: DdPacket, ownId: uint32, adjacent: bool, db: seq<Header>)
    ensures ProcessDd(n, dd, ownId, adjacent, db).Ok?
    ensures var o := ProcessDd(n, dd, ownId, adjacent, db).value;
            o.done ==> o.nbr.state == if o.nbr.requests == [] then Full else Loading
  {
    Rules(n, dd, ownId, adjacent, db);
    hide InExchange, InExStart;
  }

  /**
   The packet that describes the database: flags, number and options (the E-bit alone), the headers up to the cursor, which
   a fresh batch of ten moves forward; M is set exactly if more than ten are left.
   */
  lemma PacketIs(n: Nbr)
    requires n.state == Exchange || (n.state == ExStart && !n.isMaster)
    ensures ProduceDd(n).Ok?
    ensures var p := ProduceDd(n).value.packet; var left := |n.summary|;
            && p.ms == !n.isMaster && p.init == n.ddInit && p.sequenceNumber == n.ddSeqNum && p.options == 0x02
            && (p.more <==> !n.ddInit && left > 10)
            && p.headers == (if n.ddInit then []
                             else if left > 10 then n.summary[..if n.cursor + 10 < left then n.cursor + 10 else left]
                             else n.summary)
    ensures var m := ProduceDd(n).value.nbr;
            && (ProduceDd(n).value.done <==> !n.ddInit && |n.summary| <= 10 && n.isMaster && n.ddRecvNoMore)
            && m == if n.ddInit then n
                    else if ProduceDd(n).value.done
                         then n.(summary := [], cursor := 0, state := if n.requests == [] then Full else Loading)
                    else n.(cursor := |ProduceDd(n).value.packet.headers|)
  {
  }

  // ----- Hellos, and what changes an adjacency

  /** A hello that names this router takes a new neighbor to two-way or, where adjacent, to EXSTART, and no other anywhere. */
  lemma HelloNamingUs(n: Nbr, id: uint32, adjacent: bool)
    ensures ProcessHello(n, id, true, adjacent)
            == Ok(if n.state in {TwoWay, ExStart, Exchange, Loading, Full} then n.(id := id)
                  else if adjacent then n.(id := id, state := ExStart, ddSeqNum := 0, isMaster := false)
                  else n.(id := id, state := TwoWay))
  {
  }

  /** A hello that does not name it takes every neighbor to INIT, and clears the lists of one that was further. */
  lemma HelloNotNamingUs(n: Nbr, id: uint32, adjacent: bool)
    ensures ProcessHello(n, id, false, adjacent).Ok?
    ensures var m := ProcessHello(n, id, false, adjacent).value;
            && m.state == Init && m.id == id
            && m == (if n.state in {Down, Attempt, Init} then n else n.(summary := [], requests := [])).(id := id, state := Init)
  {
  }

  /** After adj_ok the neighbor is in EXSTART or beyond exactly if it is adjacent, and starts anew only from two-way. */
  lemma AdjOkDecides(n: Nbr, adjacent: bool)
    requires n.state in {TwoWay, ExStart, Exchange, Loading, Full}
    ensures EventAdjOk(n, adjacent).Ok?
    ensures var m := EventAdjOk(n, adjacent).value;
            && (m.state in {ExStart, Exchange, Loading, Full} <==> adjacent)
            && (!adjacent ==> m == n.(state := TwoWay))
            && (adjacent && n.state == TwoWay ==> m == n.(state := ExStart, ddSeqNum := 0, isMaster := false))
            && (adjacent && n.state != TwoWay ==> m == n)
  {
  }

  /** A neighbor that is lost is down, whatever it was, with empty lists. */
  lemma LostIsDown(n: Nbr)
    ensures EventDown(n) == n.(state := Down, summary := [], requests := [])
  {
  }

  // ----- The retransmission timer and the request list

  /**
   An expiry asks again for every outstanding LSA while the database is being filled, and takes LOADING to FULL once nothing
   is outstanding; in no other way does it change an established exchange.
   */
  lemma TimerRequests(n: Nbr)
    requires n.state != ExStart
    ensures RxmtTimer(n).Ok?
    ensures var o := RxmtTimer(n).value;
            && o.requested == (if n.state in {Exchange, Loading} then n.requests else [])
            && o.nbr == (if n.state == Loading && n.requests == [] then n.(state := Full) else n)
            && o.sent == (if n.state == Exchange && !n.isMaster then n.lastDd else None)
  {
  }

  /** Exactly the keys of described headers that the database holds no instance of are requested. */
  lemma {:induction false} MissingExactly(db: seq<Header>, headers: seq<Header>, key: Key)
    ensures key in Missing(db, headers) <==> !Known(db, key) && exists i | 0 <= i < |headers| :: KeyOf(headers[i]) == key
  {
    hide Known;
    if headers != [] {
      var n := |headers| - 1;
      MissingExactly(db, headers[..n], key);
      assert forall i | 0 <= i < n :: headers[..n][i] == headers[i];
      assert KeyOf(headers[n]) == key ==> exists i | 0 <= i < |headers| :: KeyOf(headers[i]) == key;
    }
  }

  /** Exactly one request for the key leaves the list, if there was one. */
  lemma {:induction false} RequestLeaves(requests: seq<Key>, key: Key)
    ensures multiset(RemoveRequest(requests, key)) == multiset(requests) - multiset{key}
  {
    if requests != [] {
      assert requests == [requests[0]] + requests[1..];
      if requests[0] != key {
        RequestLeaves(requests[1..], key);
      }
    }
  }

  /** An update that answers every request empties the list, when no key was requested twice. */
  lemma {:induction false} UpdateAnswers(n: Nbr, db: Lsdbs.Db, lsas: seq<Lsa>, key: Key)
    ensures var (m, d) := A.ProcessLsu(n, db, lsas);
            multiset(m.requests)[key] ==
              var left := multiset(n.requests)[key] as int - Count(lsas, key); if left < 0 then 0 else left
  {
    if lsas != [] {
      var k := |lsas| - 1;
      UpdateAnswers(n, db, lsas[..k], key);
      var (m, d) := A.ProcessLsu(n, db, lsas[..k]);
      RequestLeaves(m.requests, KeyOf(lsas[k].header));
    }
  }

  /** How many LSAs of the update have the key. */
  function Count(lsas: seq<Lsa>, key: Key): nat {
    if lsas == [] then 0
    else Count(lsas[..|lsas| - 1], key) + (if KeyOf(lsas[|lsas| - 1].header) == key then 1 else 0)
  }
}
