/**
 One router's view of one neighbor under arbitrary input: any interleaving of hellos, database description packets,
 link state updates, interface changes, timer expiries and losses of the neighbor, including restarts of the
 exchange. Each handler is one atomic step.
 */
module Adjacency {
  import opened Wrappers
  import opened Words
  import opened Lsas
  import opened Lsdbs
  import opened Neighbors
  import E = ExchangeTheorems

  /** `accepted` is history: the headers accepted since the lists were last cleared. */
  datatype Adj = Adj(ownId: uint32, nbr: Nbr, db: Db, accepted: seq<Header>)

  datatype Input =
    | Hello(id: uint32, listed: bool, adjacent: bool)
    | Dd(packet: DdPacket, adjacent: bool)
    | Lsu(lsas: seq<Lsa>)
    | Originate(lsa: Lsa)
    | DrChange(adjacent: bool)
    | Timer
    | Lost

  /** The loop of `process_lsu`: each LSA enters the database and leaves the request list. */
  function ProcessLsu(n: Nbr, db: Db, lsas: seq<Lsa>): (Nbr, Db) {
    if lsas == [] then (n, db)
    else
      var (m, d) := ProcessLsu(n, db, lsas[..|lsas| - 1]);
      var lsa := lsas[|lsas| - 1];
      (m.(requests := RemoveRequest(m.requests, KeyOf(lsa.header))), Add(d, lsa))
  }

  /** LSAs reach the database through the parser or the daemon's own constructors, which type them. */
  predicate ValidInput(input: Input) {
    match input
    case Lsu(lsas) => forall i | 0 <= i < |lsas| :: Typed(lsas[i])
    case Originate(lsa) => Typed(lsa)
    case _ => true
  }

  function Do(a: Adj, input: Input): Result<Adj> {
    match input
    case Hello(id, listed, adjacent) =>
      var n :- ProcessHello(a.nbr, id, listed, adjacent);
      Ok(a.(nbr := n, accepted := if !listed && a.nbr.state.Rank() >= TwoWay.Rank() then [] else a.accepted))
    case Dd(packet, adjacent) =>
      var o :- ProcessDd(a.nbr, packet, a.ownId, adjacent, Headers(a.db));
      Ok(a.(nbr := o.nbr,
            accepted := if o.mismatch then []
                        else a.accepted + (if o.accepted.Some? then o.accepted.value else [])))
    case Lsu(lsas) =>
      var (n, db) := ProcessLsu(a.nbr, a.db, lsas);
      Ok(a.(nbr := n, db := db))
    case Originate(lsa) => Ok(a.(db := Add(a.db, lsa)))
    case DrChange(adjacent) =>
      if a.nbr.state.Rank() < TwoWay.Rank() then Ok(a)
      else
        var n :- EventAdjOk(a.nbr, adjacent);
        Ok(a.(nbr := n))
    case Timer =>
      var o :- RxmtTimer(a.nbr);
      Ok(a.(nbr := o.nbr))
    case Lost => Ok(a.(nbr := EventDown(a.nbr), accepted := []))
  }

  /** A neighbor as its constructor leaves it; its sequence numbers, id and options are uninitialised. */
  predicate New(a: Adj) {
    && a.nbr.state == Down && !a.nbr.isMaster && a.nbr.ddInit && !a.nbr.ddRecvNoMore
    && a.nbr.summary == [] && a.nbr.requests == [] && a.accepted == [] && ValidDb(a.db)
  }

  function Run(a: Adj, inputs: seq<Input>): Result<Adj> {
    if inputs == [] then Ok(a)
    else
      var mid :- Run(a, inputs[..|inputs| - 1]);
      Do(mid, inputs[|inputs| - 1])
  }

  // ----- Which timer expiries fail an assert

  /** The one assert that depends on the state's history: `event_exchange_done` fired from EXSTART. */
  lemma TimerAbortsExactly(n: Nbr)
    ensures RxmtTimer(n).Aborted? <==>
              n.state == ExStart && n.isMaster && n.ddRecvNoMore && !n.ddInit && |n.summary| <= DD_MAX_HEADERS
  {
  }

  /** The handler ran to its end, a mismatch restarts the exchange, and only EXSTART as it was keeps `isMaster`. */
  predicate Sound(n: Nbr, r: Result<Outcome>) {
    && r.Ok?
    && (r.value.mismatch ==> r.value.nbr.state == ExStart)
    && (r.value.nbr.state == ExStart && r.value.nbr.isMaster ==> n.state == ExStart && n.isMaster)
  }

  lemma AcceptSound(n: Nbr, dd: DdPacket, db: seq<Header>, negotiated: bool)
    requires n.state == Exchange
    ensures Sound(n, Accept(n, dd, db, negotiated))
  {
    hide Missing;
  }

  lemma InExchangeSound(n: Nbr, dd: DdPacket, dup: bool, db: seq<Header>, negotiated: bool)
    requires n.state == Exchange
    ensures Sound(n, InExchange(n, dd, dup, db, negotiated))
  {
    hide Accept;
    AcceptSound(n.(ddSeqNum := dd.sequenceNumber), dd, db, negotiated);
    AcceptSound(n.(ddSeqNum := U32(n.ddSeqNum + 1)), dd, db, negotiated);
  }

  lemma InExStartSound(n: Nbr, dd: DdPacket, dup: bool, ownId: uint32, db: seq<Header>)
    requires n.state == ExStart
    ensures Sound(n, InExStart(n, dd, dup, ownId, db))
  {
    hide InExchange;
    var heard := n.(ddOptions := dd.options);
    var master := EventNegotiationDone(heard.(isMaster := false, ddInit := false), db).value;
    InExchangeSound(master, dd, dup, db, true);
  }

  /** No assert below `process_dd` can fail, whatever the packet and the state. */
  lemma ProcessDdSound(n: Nbr, dd: DdPacket, ownId: uint32, adjacent: bool, db: seq<Header>)
    ensures Sound(n, ProcessDd(n, dd, ownId, adjacent, db))
  {
    hide InExchange, InExStart;
    var dup := n.recvDdSeqNum == dd.sequenceNumber;
    var seen := n.(recvDdSeqNum := dd.sequenceNumber);
    match n.state
    case Init =>
      if adjacent {
        InExStartSound(Event2WayReceived(seen, adjacent).value, dd, dup, ownId, db);
      }
    case ExStart => InExStartSound(seen, dd, dup, ownId, db);
    case Exchange => InExchangeSound(seen, dd, dup, db, false);
    case _ =>
  }

  // ----- The invariant

  predicate Covered(a: Adj) {
    forall i | 0 <= i < |a.accepted| ::
      HasKey(a.db, KeyOf(a.accepted[i])) || KeyOf(a.accepted[i]) in a.nbr.requests
  }

  predicate Inv(a: Adj) {
    && ValidDb(a.db) && Covered(a)
    && (a.nbr.state == ExStart ==> !a.nbr.isMaster)
    && (a.nbr.state == Full ==> a.nbr.requests == [])
  }

  /** A key is known from the copied headers exactly when the database finds it. */
  lemma KnownIsHasKey(db: Db, key: Key)
    requires ValidDb(db)
    ensures Known(Headers(db), key) <==> HasKey(db, key)
  {
    var hs, r, n := Headers(db), |db.routers|, |db.networks|;
    var list := ListOf(db, key.lsType);
    if HasKey(db, key) {
      var i := Find(list, key.linkStateId, key.advertisingRouter);
      var at := if key.lsType == ROUTER then i else if key.lsType == NETWORK then r + i else r + n + i;
      assert hs[at] == list[i].header;
    }
    if Known(hs, key) {
      var at :| 0 <= at < |hs| && KeyOf(hs[at]) == key;
      var i := if at < r then at else if at < r + n then at - r else at - r - n;
      assert hs[at] == list[i].header && Matches(list[i], key.linkStateId, key.advertisingRouter);
      HasKeyIsHas(db, key);
    }
  }

  lemma ValidDbAdd(db: Db, lsa: Lsa)
    requires ValidDb(db) && Typed(lsa)
    ensures ValidDb(Add(db, lsa))
  {
  }

  lemma DdKeeps(a: Adj, packet: DdPacket, adjacent: bool)
    requires Inv(a)
    ensures Do(a, Dd(packet, adjacent)).Ok? && Inv(Do(a, Dd(packet, adjacent)).value)
  {
    hide ProcessDd, Missing, Headers, HasKey;
    var db := Headers(a.db);
    ProcessDdSound(a.nbr, packet, a.ownId, adjacent, db);
    var o := ProcessDd(a.nbr, packet, a.ownId, adjacent, db).value;
    if !o.mismatch {
      E.DdRequests(a.nbr, packet, a.ownId, adjacent, db);
      var b := Do(a, Dd(packet, adjacent)).value;
      forall i | |a.accepted| <= i < |b.accepted|
        ensures HasKey(b.db, KeyOf(b.accepted[i])) || KeyOf(b.accepted[i]) in b.nbr.requests
      {
        E.MissingComplete(db, o.accepted.value, i - |a.accepted|);
        KnownIsHasKey(a.db, KeyOf(b.accepted[i]));
      }
    }
  }

  /** An update keeps what is known known, and turns the requests it removes into known keys. */
  lemma {:induction false} LsuKeeps(n: Nbr, db: Db, lsas: seq<Lsa>, key: Key)
    requires ValidDb(db) && forall i | 0 <= i < |lsas| :: Typed(lsas[i])
    ensures var (m, d) := ProcessLsu(n, db, lsas);
            && ValidDb(d) && m == n.(requests := m.requests)
            && (HasKey(db, key) || key in n.requests ==> HasKey(d, key) || key in m.requests)
            && (HasKey(db, key) ==> HasKey(d, key))
            && (n.requests == [] ==> m.requests == [])
  {
    if lsas != [] {
      var init, lsa := lsas[..|lsas| - 1], lsas[|lsas| - 1];
      LsuKeeps(n, db, init, key);
      hide HasKey, ValidDb, Add;
      var (m, d) := ProcessLsu(n, db, init);
      ValidDbAdd(d, lsa);
      AddKeys(d, lsa, key);
      if key in m.requests && key != KeyOf(lsa.header) {
        E.RemoveRequestKeeps(m.requests, KeyOf(lsa.header), key);
      }
    }
  }

  lemma LsuStepKeeps(a: Adj, lsas: seq<Lsa>)
    requires Inv(a) && ValidInput(Lsu(lsas))
    ensures Inv(Do(a, Lsu(lsas)).value)
  {
    hide HasKey, ValidDb;
    var (n, db) := ProcessLsu(a.nbr, a.db, lsas);
    LsuKeeps(a.nbr, a.db, lsas, Key(0, 0, 0));
    forall i | 0 <= i < |a.accepted|
      ensures HasKey(db, KeyOf(a.accepted[i])) || KeyOf(a.accepted[i]) in n.requests
    {
      LsuKeeps(a.nbr, a.db, lsas, KeyOf(a.accepted[i]));
    }
  }

  lemma OriginateKeeps(a: Adj, lsa: Lsa)
    requires Inv(a) && Typed(lsa)
    ensures Inv(Do(a, Originate(lsa)).value)
  {
    hide HasKey, ValidDb, Add;
    ValidDbAdd(a.db, lsa);
    forall i | 0 <= i < |a.accepted|
      ensures HasKey(a.db, KeyOf(a.accepted[i])) ==> HasKey(Add(a.db, lsa), KeyOf(a.accepted[i]))
    {
      AddKeys(a.db, lsa, KeyOf(a.accepted[i]));
    }
  }

  lemma StepKeepsInv(a: Adj, input: Input)
    requires Inv(a) && ValidInput(input)
    ensures Do(a, input).Ok? && Inv(Do(a, input).value)
  {
    match input
    case Dd(packet, adjacent) => DdKeeps(a, packet, adjacent);
    case Lsu(lsas) => LsuStepKeeps(a, lsas);
    case Originate(lsa) => OriginateKeeps(a, lsa);
    case _ => hide HasKey, ValidDb, ProcessDd;
  }

  /** No assert of the neighbor state machine fails in any run, and every run keeps the invariant. */
  lemma {:induction false} RunNeverAborts(a: Adj, inputs: seq<Input>)
    requires New(a) && forall i | 0 <= i < |inputs| :: ValidInput(inputs[i])
    ensures Run(a, inputs).Ok? && Inv(Run(a, inputs).value)
  {
    if inputs != [] {
      var n := |inputs| - 1;
      RunNeverAborts(a, inputs[..n]);
      StepKeepsInv(Run(a, inputs[..n]).value, inputs[n]);
    }
  }

  /** In state FULL the database holds every LSA whose header was accepted since the lists were last cleared. */
  lemma FullMeansKnown(a: Adj, inputs: seq<Input>, i: nat)
    requires New(a) && forall i | 0 <= i < |inputs| :: ValidInput(inputs[i])
    ensures Run(a, inputs).Ok?
    ensures var b := Run(a, inputs).value;
            b.nbr.state == Full && i < |b.accepted| ==> HasKey(b.db, KeyOf(b.accepted[i]))
  {
    RunNeverAborts(a, inputs);
  }

  lemma DbKeepsKey(a: Adj, input: Input, key: Key)
    requires Inv(a) && ValidInput(input) && HasKey(a.db, key)
    ensures Do(a, input).Ok? && HasKey(Do(a, input).value.db, key)
  {
    StepKeepsInv(a, input);
    match input
    case Lsu(lsas) => LsuKeeps(a.nbr, a.db, lsas, key);
    case Originate(lsa) => AddKeys(a.db, lsa, key);
    case _ => hide HasKey, ValidDb, ProcessDd;
  }

  /** The database never loses a key. */
  lemma {:induction false} DbKeepsKeys(a: Adj, inputs: seq<Input>, key: Key)
    requires New(a) && HasKey(a.db, key) && forall i | 0 <= i < |inputs| :: ValidInput(inputs[i])
    ensures Run(a, inputs).Ok? && HasKey(Run(a, inputs).value.db, key)
  {
    if inputs != [] {
      var n := |inputs| - 1;
      DbKeepsKeys(a, inputs[..n], key);
      RunNeverAborts(a, inputs[..n]);
      DbKeepsKey(Run(a, inputs[..n]).value, inputs[n], key);
    }
  }
}
