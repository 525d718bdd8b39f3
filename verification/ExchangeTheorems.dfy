/** What the invariant of the database exchange means for every run. */
module ExchangeTheorems {
  import opened Wrappers
  import opened Words
  import opened Lsas
  import opened Neighbors
  import opened Exchange
  import opened ExchangeProof

  // ----- Accepted headers and the request list

  /** Every accepted header is known or still requested, and FULL leaves nothing to request. */
  ghost predicate Synced(p: Peer) {
    && (forall i | 0 <= i < |p.accepted| :: Known(p.db, KeyOf(p.accepted[i])) || KeyOf(p.accepted[i]) in p.nbr.requests)
    && (p.nbr.state == Full ==> p.nbr.requests == [])
  }

  lemma {:induction false} MissingComplete(db: seq<Header>, headers: seq<Header>, i: nat)
    requires i < |headers|
    ensures Known(db, KeyOf(headers[i])) || KeyOf(headers[i]) in Missing(db, headers)
  {
    var n := |headers| - 1;
    if i < n {
      MissingComplete(db, headers[..n], i);
    }
  }

  lemma {:induction false} RemoveRequestKeeps(requests: seq<Key>, key: Key, other: Key)
    requires other in requests && other != key
    ensures other in RemoveRequest(requests, key)
  {
    if requests[0] != key && requests[0] != other {
      RemoveRequestKeeps(requests[1..], key, other);
    }
  }

  /** The requests grow by the missing keys of what is accepted, and FULL is only entered without requests. */
  predicate RequestsAfter(n: Nbr, o: Outcome, db: seq<Header>) {
    && o.nbr.requests == n.requests + (if o.accepted.Some? then Missing(db, o.accepted.value) else [])
    && (o.nbr.state == Full ==> o.nbr.requests == [] || (n.state == Full && o.accepted == None))
  }

  lemma AcceptRequests(n: Nbr, dd: DdPacket, db: seq<Header>, negotiated: bool)
    requires n.state == Exchange && Accept(n, dd, db, negotiated).Ok?
    ensures RequestsAfter(n, Accept(n, dd, db, negotiated).value, db)
  {
    hide Missing;
  }

  lemma InExchangeRequests(n: Nbr, dd: DdPacket, dup: bool, db: seq<Header>, negotiated: bool)
    requires n.state == Exchange && InExchange(n, dd, dup, db, negotiated).Ok?
    requires !InExchange(n, dd, dup, db, negotiated).value.mismatch
    ensures RequestsAfter(n, InExchange(n, dd, dup, db, negotiated).value, db)
  {
    hide Missing, Accept;
    if !dup {
      if n.isMaster {
        var m := n.(ddSeqNum := dd.sequenceNumber);
        if Accept(m, dd, db, negotiated).Ok? {
          AcceptRequests(m, dd, db, negotiated);
        }
      } else {
        var m := n.(ddSeqNum := U32(n.ddSeqNum + 1));
        if Accept(m, dd, db, negotiated).Ok? {
          AcceptRequests(m, dd, db, negotiated);
        }
      }
    }
  }

  lemma InExStartRequests(n: Nbr, dd: DdPacket, dup: bool, ownId: uint32, db: seq<Header>)
    requires n.state == ExStart && InExStart(n, dd, dup, ownId, db).Ok?
    requires !InExStart(n, dd, dup, ownId, db).value.mismatch
    ensures RequestsAfter(n, InExStart(n, dd, dup, ownId, db).value, db)
  {
    hide Missing, InExchange;
    if !(n.id > ownId) && !dd.ms && !dd.init && dd.sequenceNumber == n.ddSeqNum && n.id < ownId {
      var heard := n.(ddOptions := dd.options);
      var master := EventNegotiationDone(heard.(isMaster := false, ddInit := false), db).value;
      InExchangeRequests(master, dd, dup, db, true);
    }
  }

  lemma DdRequests(n: Nbr, dd: DdPacket, ownId: uint32, adjacent: bool, db: seq<Header>)
    requires ProcessDd(n, dd, ownId, adjacent, db).Ok? && !ProcessDd(n, dd, ownId, adjacent, db).value.mismatch
    ensures RequestsAfter(n, ProcessDd(n, dd, ownId, adjacent, db).value, db)
  {
    hide Missing, InExStart, InExchange;
    var dup := n.recvDdSeqNum == dd.sequenceNumber;
    var seen := n.(recvDdSeqNum := dd.sequenceNumber);
    if n.state == ExStart {
      InExStartRequests(seen, dd, dup, ownId, db);
    } else if n.state == Init && adjacent {
      InExStartRequests(Event2WayReceived(seen, adjacent).value, dd, dup, ownId, db);
    } else if n.state == Exchange {
      InExchangeRequests(seen, dd, dup, db, false);
    }
  }

  lemma ReceiveSynced(p: Peer, dd: DdPacket, adjacent: bool)
    requires Synced(p) && Receive(p, dd, adjacent).Ok? && !Receive(p, dd, adjacent).value.mismatch
    ensures Synced(Record(p, Receive(p, dd, adjacent).value))
  {
    DdRequests(p.nbr, dd, p.ownId, adjacent, p.db);
    hide Receive, Missing, Known;
    var o := Receive(p, dd, adjacent).value;
    var q := Record(p, o);
    forall i | 0 <= i < |q.accepted|
      ensures Known(q.db, KeyOf(q.accepted[i])) || KeyOf(q.accepted[i]) in q.nbr.requests
    {
      if i >= |p.accepted| {
        MissingComplete(p.db, o.accepted.value, i - |p.accepted|);
      }
    }
  }

  lemma LocalSynced(p: Peer, l: Local)
    requires Synced(p) && LocalEnabled(p, l) && DoLocal(p, l).Ok?
    requires l.Hello? || l.AdjOk? ==> p.nbr.state.Rank() > ExStart.Rank() || (p.accepted == [] && p.nbr.requests == [])
    ensures Synced(DoLocal(p, l).value)
  {
    if l.Update? {
      forall i | 0 <= i < |p.accepted| && KeyOf(p.accepted[i]) in p.nbr.requests && KeyOf(p.accepted[i]) != l.key
        ensures KeyOf(p.accepted[i]) in RemoveRequest(p.nbr.requests, l.key)
      {
        RemoveRequestKeeps(p.nbr.requests, l.key, KeyOf(p.accepted[i]));
      }
    }
  }

  ghost predicate Good(c: Sys) {
    Inv(c) && Synced(c.m) && Synced(c.s)
  }

  lemma InvFacts(c: Sys)
    requires Inv(c)
    ensures !c.m.mismatched && !c.s.mismatched
    ensures c.m.nbr.state.Rank() <= ExStart.Rank() ==> c.m.accepted == [] && c.m.nbr.requests == []
    ensures c.s.nbr.state.Rank() <= ExStart.Rank() ==> c.s.accepted == [] && c.s.nbr.requests == []
  {
    hide Poll, Reply, TwoPhase, AllCopies;
  }

  lemma StepKeepsGood(c: Sys, step: Step)
    requires Good(c) && Enabled(c, step)
    ensures Do(c, step).Ok? && Good(Do(c, step).value) && StepKeeps(c, Do(c, step).value)
  {
    StepKeepsInv(c, step);
    InvFacts(c);
    InvFacts(Do(c, step).value);
    hide Inv, Receive, Synced, DoLocal;
    match step
    case DeliverToM(adjacent) => ReceiveSynced(c.m, c.toM[0], adjacent);
    case DeliverToS(adjacent) => ReceiveSynced(c.s, c.toS[0], adjacent);
    case TimerM => TimerSynced(c.m);
    case TimerS => TimerSynced(c.s);
    case LocalM(l) => LocalSynced(c.m, l);
    case LocalS(l) => LocalSynced(c.s, l);
    case _ =>
  }

  lemma TimerSynced(p: Peer)
    requires Synced(p) && RxmtTimer(p.nbr).Ok?
    ensures Synced(p.(nbr := RxmtTimer(p.nbr).value.nbr))
  {
  }

  // ----- Runs

  lemma StartGood(c: Sys)
    requires Start(c)
    ensures Good(c)
  {
  }

  lemma {:induction false} RunGood(c: Sys, steps: seq<Step>)
    requires Good(c) && Run(c, steps).Some?
    ensures Good(Run(c, steps).value)
  {
    hide Good, Do, Enabled, StepKeeps;
    if steps != [] {
      var n := |steps| - 1;
      RunGood(c, steps[..n]);
      StepKeepsGood(Run(c, steps[..n]).value, steps[n]);
    }
  }

  /** A state that some run reaches. */
  ghost predicate Reachable(c: Sys) {
    exists start, steps :: Start(start) && Run(start, steps) == Some(c)
  }

  lemma ReachableGood(c: Sys)
    requires Reachable(c)
    ensures Good(c)
  {
    var start, steps :| Start(start) && Run(start, steps) == Some(c);
    StartGood(start);
    RunGood(start, steps);
  }

  /** In no run does a C assert of the exchange fail. */
  lemma NoAssertFails(c: Sys, step: Step)
    requires Reachable(c) && Enabled(c, step)
    ensures Do(c, step).Ok?
  {
    ReachableGood(c);
    StepKeepsGood(c, step);
  }

  /** In no run does seq_number_mismatch fire. */
  lemma NoMismatch(c: Sys)
    requires Reachable(c)
    ensures !c.m.mismatched && !c.s.mismatched
  {
    ReachableGood(c);
    InvFacts(c);
  }

  /** Once negotiated, a peer's snapshot stays what it is. */
  lemma {:induction false} SnapshotsFixed(c: Sys, steps: seq<Step>)
    requires Good(c) && Run(c, steps).Some?
    ensures var d := Run(c, steps).value;
            && (c.m.negotiated ==> d.m.snapshot == c.m.snapshot && d.m.negotiated)
            && (c.s.negotiated ==> d.s.snapshot == c.s.snapshot && d.s.negotiated)
  {
    if steps != [] {
      var n := |steps| - 1;
      SnapshotsFixed(c, steps[..n]);
      RunGood(c, steps[..n]);
      StepKeepsGood(Run(c, steps[..n]).value, steps[n]);
      NegotiatedStays(Run(c, steps[..n]).value, steps[n]);
    }
  }

  lemma NegotiatedStays(c: Sys, step: Step)
    requires Enabled(c, step) && Do(c, step).Ok?
    ensures c.m.negotiated ==> Do(c, step).value.m.negotiated
    ensures c.s.negotiated ==> Do(c, step).value.s.negotiated
  {
    hide Receive;
  }

  /**
   The headers a peer has accepted are a prefix of the other's snapshot, in order and without gap or repetition,
   and they are the whole snapshot once the peer has fired exchange_done.
   */
  lemma AcceptedIsPrefix(c: Sys)
    requires Reachable(c)
    ensures c.m.accepted <= c.s.snapshot && (c.m.done ==> c.m.accepted == c.s.snapshot)
    ensures c.s.accepted <= c.m.snapshot && (c.s.done ==> c.s.accepted == c.m.snapshot)
  {
    ReachableGood(c);
    hide Poll, Reply, TwoPhase, AllCopies;
    if PhaseHalf(c) {
      assert c.s.accepted == Batches([], 0) == [];
    }
  }

  /** A neighbor in state FULL: every LSA of the other router's snapshot is in the local database. */
  lemma FullMeansSynchronised(c: Sys, i: nat)
    requires Reachable(c)
    ensures c.m.nbr.state == Full && i < |c.s.snapshot| ==> Known(c.m.db, KeyOf(c.s.snapshot[i]))
    ensures c.s.nbr.state == Full && i < |c.m.snapshot| ==> Known(c.s.db, KeyOf(c.m.snapshot[i]))
  {
    ReachableGood(c);
    AcceptedIsPrefix(c);
    FullMeansDone(c);
  }

  lemma FullMeansDone(c: Sys)
    requires Inv(c)
    ensures c.m.nbr.state == Full ==> c.m.done
    ensures c.s.nbr.state == Full ==> c.s.done
  {
    hide Poll, Reply, TwoPhase, AllCopies, Batches;
  }

  function CeilTenth(n: nat): nat {
    (n + 9) / 10
  }

  /**
   When the master has fired exchange_done, the slave has accepted exactly
   max(ceil(|M| / 10), ceil(|S| / 10) - 1) polls, whatever was lost or duplicated on the way; and the slave
   has fired before it, except when the master has nothing to describe and the slave at most ten headers:
   then the slave never fires.
   */
  lemma MasterDoneExactly(c: Sys)
    requires Reachable(c) && c.m.done
    ensures var a, b := CeilTenth(|c.m.snapshot|), CeilTenth(|c.s.snapshot|) - 1;
            c.s.rounds == c.m.rounds - 1 == (if a >= b then a else b)
    ensures c.s.done <==> !(c.m.snapshot == [] && |c.s.snapshot| <= 10)
  {
    ReachableGood(c);
    hide Poll, Reply, TwoPhase, AllCopies, Batches;
    assert PhaseRounds(c);
  }

  // ----- When the exchange can complete

  /**
   The master has seen, or happens to hold, sequence number 0 before the slave's first reply, or has already
   dropped that reply as a duplicate.
   */
  predicate Doomed(c: Sys) {
    c.m.rounds == 0 && (c.m.negotiated || c.m.nbr.recvDdSeqNum == 0)
  }

  lemma DoomedStep(c: Sys, step: Step)
    requires Good(c) && Doomed(c) && Enabled(c, step) && Do(c, step).Ok?
    ensures Doomed(Do(c, step).value)
  {
    hide Poll, Reply, SlaveAt;
    PacketsDiffer(c.m.snapshot, c.s.snapshot, 0);
    match step
    case DeliverToM(adjacent) =>
      if PhaseStuck(c) {
        MasterStuckHears(c.m, adjacent, c.s.snapshot);
      } else if c.toM[0] == INIT_PACKET {
        FreshMasterHears(c.m, adjacent);
      } else {
        MasterNegotiates(c.m, adjacent, c.s.snapshot);
      }
    case TimerM => TimerKeeps(c.m, c.s.snapshot);
    case LocalM(l) => LocalKeeps(c.m, l, c.s.snapshot);
    case _ =>
  }

  lemma {:induction false} DoomedForever(c: Sys, steps: seq<Step>)
    requires Good(c) && Doomed(c) && Run(c, steps).Some?
    ensures Doomed(Run(c, steps).value)
  {
    hide Good, Do, Enabled, Doomed;
    if steps != [] {
      var n := |steps| - 1;
      DoomedForever(c, steps[..n]);
      RunGood(c, steps[..n]);
      DoomedStep(Run(c, steps[..n]).value, steps[n]);
    }
  }

  lemma DoomedIsNotDone(c: Sys)
    requires Good(c) && Doomed(c)
    ensures !c.m.done && !c.s.done
  {
    hide Poll, Reply, TwoPhase, AllCopies;
  }

  lemma {:induction false} RunConcat(c: Sys, first: seq<Step>, second: seq<Step>)
    requires Run(c, first).Some?
    ensures Run(c, first + second) == Run(Run(c, first).value, second)
  {
    hide Do, Enabled;
    if second == [] {
      assert first + second == first;
    } else {
      var n := |second| - 1;
      RunConcat(c, first, second[..n]);
      assert (first + second)[..|first + second| - 1] == first + second[..n];
    }
  }

  lemma RunOne(c: Sys, step: Step, d: Sys)
    requires Enabled(c, step) && Do(c, step) == Ok(d)
    ensures Run(c, [step]) == Some(d)
  {
    assert [step][..0] == [];
  }

  /** All packets may be lost. */
  lemma {:induction false} LoseAll(c: Sys) returns (steps: seq<Step>)
    ensures Run(c, steps) == Some(c.(toM := [], toS := []))
    decreases |c.toM| + |c.toS|
  {
    if c.toM != [] {
      var d := c.(toM := Lose(c.toM, 0));
      RunOne(c, LoseToM(0), d);
      var rest := LoseAll(d);
      RunConcat(c, [LoseToM(0)], rest);
      steps := [LoseToM(0)] + rest;
    } else if c.toS != [] {
      var d := c.(toS := Lose(c.toS, 0));
      RunOne(c, LoseToS(0), d);
      var rest := LoseAll(d);
      RunConcat(c, [LoseToS(0)], rest);
      steps := [LoseToS(0)] + rest;
    } else {
      steps := [];
    }
  }

  /** One more step at the end of a run that keeps to good states. */
  lemma Extend(c: Sys, steps: seq<Step>, step: Step) returns (d: Sys, steps': seq<Step>)
    requires Good(c) && Run(c, steps).Some? && Enabled(Run(c, steps).value, step)
    ensures Run(c, steps') == Some(d) && Do(Run(c, steps).value, step) == Ok(d) && Good(d)
  {
    hide Do, Enabled, Good;
    var mid := Run(c, steps).value;
    RunGood(c, steps);
    StepKeepsGood(mid, step);
    d := Do(mid, step).value;
    steps' := steps + [step];
    assert steps'[..|steps' | - 1] == steps;
  }

  lemma MasterPolls(c: Sys)
    requires PhaseRounds(c) && !c.m.done && c.toS == []
    ensures Do(c, TimerM) == Ok(c.(toS := [Poll(c.m.snapshot, c.m.rounds)]))
  {
    hide SlaveAt, Poll, Reply, Rest, Batch, Batches;
    var poll := Poll(c.m.snapshot, c.m.rounds);
    assert c.toS + [poll] == [poll];
  }

  lemma OneReply(c: Sys, o: Outcome, reply: DdPacket)
    requires |c.toS| == 1 && c.toM == [] && Receive(c.s, c.toS[0], false) == Ok(o) && o.sent == Some(reply)
    ensures Do(c, DeliverToS(false)) == Ok(Sys(c.m, Record(c.s, o), [], [reply]))
  {
    assert c.toS[1..] == [] && c.toM + [reply] == [reply];
  }

  lemma SlaveAnswers(c: Sys)
    requires PhaseRounds(c) && c.toS == [Poll(c.m.snapshot, c.m.rounds)] && c.toM == [] && !c.m.done
    ensures Do(c, DeliverToS(false)).Ok?
    ensures var d := Do(c, DeliverToS(false)).value;
            d.m == c.m && d.toS == [] && d.toM == [Reply(c.s.snapshot, c.m.rounds)] && d.s.snapshot == c.s.snapshot
  {
    var k, mList, reply := c.m.rounds, c.m.snapshot, Reply(c.s.snapshot, c.m.rounds);
    assert c.s.rounds == k || c.s.rounds == k - 1;
    assert SlaveAt(c.s, mList) && (c.s.rounds == k ==> c.s.nbr.lastDd == Some(reply));
    PeerFacts(c.m, c.s.snapshot);
    PeerFacts(c.s, mList);
    hide Poll, Reply, Receive, PhaseRounds, SlaveAt, Do;
    if c.s.rounds == k {
      SlaveHearsOld(c.s, false, mList);
      OneReply(c, Resend(c.s.nbr), reply);
    } else {
      SlaveHearsNew(c.s, false, mList);
      OneReply(c, Receive(c.s, c.toS[0], false).value, reply);
    }
  }

  lemma MasterTakes(c: Sys)
    requires PhaseRounds(c) && !c.m.done && c.toM == [Reply(c.s.snapshot, c.m.rounds)]
    ensures Do(c, DeliverToM(false)).Ok?
    ensures var d := Do(c, DeliverToM(false)).value;
            d.m.rounds == c.m.rounds + 1 && d.m.snapshot == c.m.snapshot && d.s == c.s
  {
    MasterHearsNew(c.m, false, c.s.snapshot);
  }

  lemma RoundsFromGood(c: Sys)
    requires Good(c)
    ensures PhaseRounds(c) <==> c.m.rounds > 0
  {
    hide Poll, Reply, TwoPhase, AllCopies;
  }

  /** With the channels empty: the master's timer, the slave's answer, and the master's receipt. */
  lemma RoundCompletes(c: Sys) returns (steps: seq<Step>)
    requires Good(c) && PhaseRounds(c) && !c.m.done
    ensures Run(c, steps).Some?
    ensures var d := Run(c, steps).value;
            Good(d) && PhaseRounds(d) && d.m.rounds == c.m.rounds + 1
            && d.m.snapshot == c.m.snapshot && d.s.snapshot == c.s.snapshot
  {
    RoundsFromGood(c);
    hide Good, PhaseRounds, Poll, Reply, Do;
    steps := LoseAll(c);
    RunGood(c, steps);
    var c1, c2, c3, c4 := Run(c, steps).value, c, c, c;
    RoundsFromGood(c1);
    MasterPolls(c1);
    c2, steps := Extend(c, steps, TimerM);
    RoundsFromGood(c2);
    SlaveAnswers(c2);
    c3, steps := Extend(c, steps, DeliverToS(false));
    RoundsFromGood(c3);
    MasterTakes(c3);
    c4, steps := Extend(c, steps, DeliverToM(false));
    RoundsFromGood(c4);
  }

  lemma {:induction false} RoundsComplete(c: Sys) returns (steps: seq<Step>)
    requires Good(c) && PhaseRounds(c)
    ensures Run(c, steps).Some? && Run(c, steps).value.m.done
    decreases |c.m.snapshot| + |c.s.snapshot| + 2 - c.m.rounds
  {
    if c.m.done {
      steps := [];
    } else {
      var first := RoundCompletes(c);
      RunGood(c, first);
      var d := Run(c, first).value;
      var rest := RoundsComplete(d);
      RunConcat(c, first, rest);
      steps := first + rest;
    }
  }

  lemma MasterInvites(c: Sys)
    requires Fresh(c.m) && c.m.nbr.state == ExStart && c.toS == []
    ensures Do(c, TimerM) == Ok(c.(m := c.m.(nbr := c.m.nbr.(lastDd := Some(INIT_PACKET))), toS := [INIT_PACKET]))
  {
    assert c.toS + [INIT_PACKET] == [INIT_PACKET];
  }

  lemma SlaveAnswersInvitation(c: Sys)
    requires SlaveAt(c.s, []) && c.s.rounds == 0 && c.toS == [INIT_PACKET] && c.toM == []
    ensures Do(c, DeliverToS(false)) == Ok(c.(toS := [], toM := [Reply(c.s.snapshot, 0)]))
  {
    PollZero([]);
    SlaveHearsOld(c.s, false, []);
    SlaveRepeats(c, false);
    assert c.toS[1..] == [] && c.toM + [Reply(c.s.snapshot, 0)] == [Reply(c.s.snapshot, 0)];
  }

  lemma HalfCompletes(c: Sys) returns (steps: seq<Step>)
    requires Good(c) && PhaseHalf(c) && c.m.nbr.recvDdSeqNum != 0
    ensures Run(c, steps).Some? && PhaseRounds(Run(c, steps).value)
  {
    steps := LoseAll(c);
    var c1, c2, c3, c4 := c.(toM := [], toS := []), c, c, c;
    MasterInvites(c1);
    FreshAfterInvitation(c.m);
    hide Good, PhaseRounds, Poll, Reply, Do, TwoPhase, AllCopies, Fresh, SlaveAt;
    c2, steps := Extend(c, steps, TimerM);
    SlaveAnswersInvitation(c2);
    c3, steps := Extend(c, steps, DeliverToS(false));
    MasterNegotiates(c3.m, false, c.s.snapshot);
    c4, steps := Extend(c, steps, DeliverToM(false));
    MasterStarts(c3, c4);
  }

  lemma FreshAfterInvitation(p: Peer)
    requires Fresh(p)
    ensures Fresh(p.(nbr := p.nbr.(lastDd := Some(INIT_PACKET))))
  {
  }

  lemma MasterStarts(c: Sys, d: Sys)
    requires c.toM == [Reply(c.s.snapshot, 0)] && Do(c, DeliverToM(false)) == Ok(d) && Good(d)
    requires Receive(c.m, c.toM[0], false).Ok?
    requires MasterAt(Record(c.m, Receive(c.m, c.toM[0], false).value), c.s.snapshot)
    ensures PhaseRounds(d)
  {
    hide Receive;
    PeerFacts(d.m, d.s.snapshot);
    RoundsFromGood(d);
  }

  /** The step that takes a new neighbor on to EXSTART. */
  function Approach(p: Peer): Local {
    if p.nbr.state == TwoWay then AdjOk(true) else Hello(true, true)
  }

  lemma ApproachWorks(p: Peer)
    requires Fresh(p)
    ensures LocalEnabled(p, Approach(p)) && DoLocal(p, Approach(p)).Ok?
    ensures DoLocal(p, Approach(p)).value.nbr.state == ExStart
  {
  }

  lemma HelloCompletes(c: Sys) returns (steps: seq<Step>)
    requires Good(c) && PhaseHello(c) && c.m.nbr.recvDdSeqNum != 0
    ensures Run(c, steps).Some?
    ensures var d := Run(c, steps).value; PhaseHalf(d) && d.m.nbr.recvDdSeqNum != 0
  {
    steps := LoseAll(c);
    var c1, c2, c3, c4 := c.(toM := [], toS := []), c, c, c;
    ApproachWorks(c.m);
    LocalKeeps(c.m, Approach(c.m), []);
    ApproachWorks(c.s);
    LocalKeeps(c.s, Approach(c.s), []);
    hide Good, DoLocal, RxmtTimer, Receive, Fresh, SlaveAt, Approach, LocalEnabled;
    c1, steps := Extend(c, steps, LocalM(Approach(c.m)));
    c2, steps := Extend(c, steps, LocalS(Approach(c.s)));
    MasterInvites(c2);
    FreshAfterInvitation(c2.m);
    c3, steps := Extend(c, steps, TimerM);
    SlaveStarts(c3);
    c4, steps := Extend(c, steps, DeliverToS(true));
  }

  lemma SlaveStarts(c: Sys)
    requires Fresh(c.m) && c.m.nbr.state == ExStart && c.m.nbr.lastDd.Some?
    requires Fresh(c.s) && c.s.nbr.state == ExStart && c.s.nbr.id > c.s.ownId
    requires c.toS == [INIT_PACKET] && c.toM == []
    ensures Do(c, DeliverToS(true)).Ok?
    ensures var d := Do(c, DeliverToS(true)).value; PhaseHalf(d) && d.m == c.m
  {
    FreshSlaveHears(c.s, true);
    ExStartNegotiates(c.s);
    hide Receive, Fresh, SlaveAt, Poll, Reply;
  }

  lemma ExStartNegotiates(p: Peer)
    requires Fresh(p) && p.nbr.state == ExStart && p.nbr.id > p.ownId
    ensures Receive(p, INIT_PACKET, true).Ok? && Receive(p, INIT_PACKET, true).value.negotiated
  {
  }

  /**
   From a reachable state the master can still complete the exchange exactly when it is not doomed: the code
   has runs that end in agreement and states from which every run is stuck, and this condition separates them.
   */
  lemma CompletesExactly(c: Sys)
    requires Reachable(c)
    ensures (exists steps :: Run(c, steps).Some? && Run(c, steps).value.m.done) <==> !Doomed(c)
  {
    ReachableGood(c);
    if Doomed(c) {
      forall steps | Run(c, steps).Some?
        ensures !Run(c, steps).value.m.done
      {
        DoomedForever(c, steps);
        RunGood(c, steps);
        DoomedIsNotDone(Run(c, steps).value);
      }
    } else {
      var steps := Completion(c);
    }
  }

  lemma Completion(c: Sys) returns (steps: seq<Step>)
    requires Good(c) && !Doomed(c)
    ensures Run(c, steps).Some? && Run(c, steps).value.m.done
  {
    PhaseOf(c);
    hide Good, PhaseHello, PhaseHalf, PhaseRounds, Do, Enabled;
    var d, rest := c, [];
    steps := [];
    if PhaseHello(d) {
      steps := HelloCompletes(d);
      RunGood(c, steps);
      d := Run(c, steps).value;
    }
    if PhaseHalf(d) {
      rest := HalfCompletes(d);
      RunConcat(c, steps, rest);
      steps := steps + rest;
      RunGood(c, steps);
      d := Run(c, steps).value;
    }
    rest := RoundsComplete(d);
    RunConcat(c, steps, rest);
    steps := steps + rest;
  }

  lemma PhaseOf(c: Sys)
    requires Good(c) && !Doomed(c)
    ensures PhaseRounds(c) || ((PhaseHello(c) || PhaseHalf(c)) && c.m.nbr.recvDdSeqNum != 0)
  {
  }

  // ----- Both failures happen

  /** Both routers have heard of each other; nothing has been sent yet. */
  lemma BothInExStart(c: Sys) returns (d: Sys, steps: seq<Step>)
    requires Start(c)
    ensures Good(c) && Run(c, steps) == Some(d)
    ensures d == Sys(c.m.(nbr := c.m.nbr.(state := ExStart, ddSeqNum := 0)),
                     c.s.(nbr := c.s.nbr.(state := ExStart, ddSeqNum := 0)), [], [])
  {
    StartGood(c);
    var hello := Hello(true, true);
    var half := c.(m := c.m.(nbr := c.m.nbr.(state := ExStart, ddSeqNum := 0)));
    assert Do(c, LocalM(hello)) == Ok(half);
    d := half.(s := c.s.(nbr := c.s.nbr.(state := ExStart, ddSeqNum := 0)));
    assert Do(half, LocalS(hello)) == Ok(d);
    steps := [LocalM(hello)] + [LocalS(hello)];
    hide Do, Good, Start, DoLocal;
    RunOne(c, LocalM(hello), half);
    RunOne(half, LocalS(hello), d);
    RunConcat(c, [LocalM(hello)], [LocalS(hello)]);
  }

  /**
   A doomed state is reached from every start: it is enough that the slave's own invitation, which
   carries sequence number 0, gets to the master first.
   */
  lemma DoomedIsReached(c: Sys)
    requires Start(c)
    ensures exists steps :: Run(c, steps).Some? && Doomed(Run(c, steps).value)
  {
    var d, steps := BothInExStart(c);
    var c1, c2, s1, s2 := c, c, steps, steps;
    hide Good, Run;
    c1, s1 := Extend(c, steps, TimerS);
    assert c1.toM == [INIT_PACKET];
    c2, s2 := Extend(c, s1, DeliverToM(false));
    assert Run(c, s2).Some? && Doomed(Run(c, s2).value);
  }

  /** The slave is left waiting: a master with nothing to describe ends the exchange on the slave's first reply. */
  lemma SlaveLeftWaiting(c: Sys)
    requires Start(c) && c.m.db == [] && |c.s.db| <= 10 && c.m.nbr.recvDdSeqNum != 0
    ensures exists steps :: Run(c, steps).Some? && Run(c, steps).value.m.done && !Run(c, steps).value.s.done
  {
    var d, steps := BothInExStart(c);
    var c1, c2, c3, s1, s2, s3 := c, c, c, steps, steps, steps;
    hide Good, Run;
    c1, s1 := Extend(c, steps, TimerM);
    assert c1.toS == [INIT_PACKET];
    c2, s2 := Extend(c, s1, DeliverToS(false));
    c3, s3 := Extend(c, s2, DeliverToM(false));
    assert Run(c, s3).Some? && Run(c, s3).value.m.done && !Run(c, s3).value.s.done;
  }
}
