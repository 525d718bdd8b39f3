/** The invariant of the database exchange is kept by every step, and what it says about every run. */
module ExchangeProof {
  import opened Wrappers
  import opened Words
  import opened Lsas
  import opened Neighbors
  import opened Exchange

  // ----- Batches

  lemma BatchesStep(list: seq<Header>, j: nat)
    ensures Rest(list, j)[|Batch(list, j)|..] == Rest(list, j + 1)
    ensures Batches(list, j) + Batch(list, j) == Batches(list, j + 1)
    ensures |Rest(list, j)| > 10 <==> |list| > 10 * (j + 1)
    ensures |list| <= 10 * (j + 1) ==> Batch(list, j) == Rest(list, j) && Rest(list, j + 1) == []
    ensures Rest(list, j) == [] <==> |list| <= 10 * j
    ensures Batch(list, j) == Rest(list, j)[..Min(10, |Rest(list, j)|)]
  {
  }

  lemma BatchesZero(list: seq<Header>)
    ensures Rest(list, 0) == list && Batches(list, 0) == [] && [] + list == list
  {
  }

  lemma SequenceNumbersDiffer(k: nat)
    ensures U32(k) != U32(k + 1) && U32(U32(k) + 1) == U32(k + 1)
  {
  }

  // ----- What each peer does with each packet

  lemma FreshSlaveHears(p: Peer, adjacent: bool)
    requires Fresh(p) && p.nbr.id > p.ownId
    ensures Receive(p, INIT_PACKET, adjacent).Ok?
    ensures var o := Receive(p, INIT_PACKET, adjacent).value; var q := Record(p, o);
            if q.negotiated then SlaveAt(q, []) && q.rounds == 0 && o.sent == Some(Reply(q.snapshot, 0))
            else Fresh(q) && o.sent == None
    ensures Receive(p, INIT_PACKET, adjacent).value.nbr.id == p.nbr.id
  {
    hide Rest, Batch, Batches;
    BatchesZero([]);
    if p.nbr.state == ExStart || (p.nbr.state == Init && adjacent) {
      BatchesZero(p.db);
      BatchesStep(p.db, 0);
    }
  }

  lemma FreshMasterHears(p: Peer, adjacent: bool)
    requires Fresh(p) && p.nbr.id < p.ownId
    ensures Receive(p, INIT_PACKET, adjacent).Ok?
    ensures var o := Receive(p, INIT_PACKET, adjacent).value; var q := Record(p, o);
            Fresh(q) && o.sent == None && (p.nbr.state == ExStart ==> q.nbr.state == ExStart)
            && q.nbr.lastDd == p.nbr.lastDd && q.nbr.recvDdSeqNum == 0 && q.nbr.id == p.nbr.id
  {
  }

  /** The first reply: a duplicate if the master has last seen sequence number 0, else the start of round 1. */
  lemma MasterNegotiates(p: Peer, adjacent: bool, sList: seq<Header>)
    requires Fresh(p) && p.nbr.id < p.ownId && p.nbr.state == ExStart && p.nbr.lastDd.Some?
    ensures Receive(p, Reply(sList, 0), adjacent).Ok?
    ensures var o := Receive(p, Reply(sList, 0), adjacent).value; var q := Record(p, o);
            q.nbr.id == p.nbr.id && q.negotiated
            && if p.nbr.recvDdSeqNum == 0 then MasterStuck(q) && o.sent == None
            else MasterAt(q, sList) && q.rounds == 1 && o.sent == (if q.done then None else Some(Poll(q.snapshot, 1)))
  {
    hide Rest, Batch, Batches, Known;
    if p.nbr.recvDdSeqNum != 0 {
      BatchesStep(sList, 0);
      BatchesZero(sList);
      BatchesZero(p.db);
      BatchesStep(p.db, 0);
    }
  }

  lemma SlaveHearsOld(p: Peer, adjacent: bool, mList: seq<Header>)
    requires SlaveAt(p, mList)
    ensures Receive(p, Poll(mList, p.rounds), adjacent) == Ok(Resend(p.nbr))
  {
  }

  lemma SlaveHearsNew(p: Peer, adjacent: bool, mList: seq<Header>)
    requires SlaveAt(p, mList) && !p.done
    ensures Receive(p, Poll(mList, p.rounds + 1), adjacent).Ok?
    ensures var o := Receive(p, Poll(mList, p.rounds + 1), adjacent).value; var q := Record(p, o);
            SlaveAt(q, mList) && q.rounds == p.rounds + 1 && q.snapshot == p.snapshot && q.nbr.id == p.nbr.id
            && o.sent == Some(Reply(p.snapshot, q.rounds))
  {
    hide Rest, Batch, Batches, U32, Known;
    var k := p.rounds;
    SequenceNumbersDiffer(k);
    BatchesStep(mList, k);
    BatchesStep(p.snapshot, k);
    BatchesStep(p.snapshot, k + 1);
  }

  lemma MasterHearsOld(p: Peer, adjacent: bool, sList: seq<Header>)
    requires MasterAt(p, sList)
    ensures Receive(p, Reply(sList, p.rounds - 1), adjacent) == Ok(Quiet(p.nbr))
  {
  }

  lemma MasterHearsNew(p: Peer, adjacent: bool, sList: seq<Header>)
    requires MasterAt(p, sList) && !p.done
    ensures Receive(p, Reply(sList, p.rounds), adjacent).Ok?
    ensures var o := Receive(p, Reply(sList, p.rounds), adjacent).value; var q := Record(p, o);
            MasterAt(q, sList) && q.rounds == p.rounds + 1 && q.snapshot == p.snapshot && q.nbr.id == p.nbr.id
            && o.sent == (if q.done then None else Some(Poll(p.snapshot, q.rounds)))
  {
    hide Rest, Batch, Batches, U32, Known;
    var k := p.rounds;
    SequenceNumbersDiffer(k);
    SequenceNumbersDiffer(k - 1);
    BatchesStep(sList, k);
    BatchesStep(p.snapshot, k - 1);
    BatchesStep(p.snapshot, k);
  }

  lemma MasterStuckHears(p: Peer, adjacent: bool, sList: seq<Header>)
    requires MasterStuck(p)
    ensures Receive(p, Reply(sList, 0), adjacent) == Ok(Quiet(p.nbr))
  {
  }

  // ----- Timers and local steps

  lemma TimerKeeps(p: Peer, list: seq<Header>)
    requires Fresh(p) || SlaveAt(p, list) || MasterAt(p, list) || MasterStuck(p)
    ensures RxmtTimer(p.nbr).Ok?
    ensures var o := RxmtTimer(p.nbr).value; var q := p.(nbr := o.nbr);
            && q.nbr.id == p.nbr.id
            && (Fresh(p) ==> Fresh(q) && q.nbr.state == p.nbr.state && q.nbr.recvDdSeqNum == p.nbr.recvDdSeqNum
                             && (p.nbr.lastDd.Some? ==> q.nbr.lastDd.Some?)
                             && o.sent == if p.nbr.state == ExStart then Some(INIT_PACKET) else None)
            && (SlaveAt(p, list) ==> SlaveAt(q, list) && o.sent == None)
            && (MasterAt(p, list) ==> MasterAt(q, list)
                                      && o.sent == if p.done then None else Some(Poll(p.snapshot, p.rounds)))
            && (MasterStuck(p) ==> q == p && o.sent == Some(INIT_PACKET))
  {
  }

  lemma LocalKeeps(p: Peer, l: Local, list: seq<Header>)
    requires Fresh(p) || SlaveAt(p, list) || MasterAt(p, list) || MasterStuck(p)
    requires LocalEnabled(p, l)
    ensures DoLocal(p, l).Ok?
    ensures var q := DoLocal(p, l).value;
            && q.nbr.id == p.nbr.id && q.ownId == p.ownId && q.nbr.recvDdSeqNum == p.nbr.recvDdSeqNum
            && q.snapshot == p.snapshot && q.rounds == p.rounds && q.done == p.done && q.negotiated == p.negotiated
            && (Fresh(p) ==> Fresh(q) && q.nbr.lastDd == p.nbr.lastDd
                             && (p.nbr.state == ExStart ==> q.nbr.state == ExStart))
            && (SlaveAt(p, list) ==> SlaveAt(q, list))
            && (MasterAt(p, list) ==> MasterAt(q, list))
            && (MasterStuck(p) ==> MasterStuck(q))
  {
  }

  // ----- Channels

  lemma ChannelTakesFirst(channel: seq<DdPacket>, x: DdPacket, y: DdPacket)
    requires TwoPhase(channel, x, y) && channel != []
    ensures TwoPhase(channel[1..], x, y) && (channel[0] == x || channel[0] == y)
    ensures channel[0] == y && x != y ==> AllCopies(channel[1..], y)
  {
    if channel[0] == y && x != y {
      forall i | 0 <= i < |channel[1..]|
        ensures channel[1..][i] == y
      {
        assert channel[1..][i] == channel[i + 1];
      }
    }
  }

  lemma ChannelLoses(channel: seq<DdPacket>, i: nat, x: DdPacket, y: DdPacket)
    requires TwoPhase(channel, x, y) && i < |channel|
    ensures TwoPhase(Lose(channel, i), x, y)
  {
    var after := Lose(channel, i);
    forall a, b | 0 <= a < b < |after| && after[b] == x
      ensures after[a] == x
    {
      assert channel[if a < i then a else a + 1] == after[a] && channel[if b < i then b else b + 1] == after[b];
    }
  }

  lemma ChannelDuplicates(channel: seq<DdPacket>, i: nat, x: DdPacket, y: DdPacket)
    requires TwoPhase(channel, x, y) && i < |channel|
    ensures TwoPhase(Duplicate(channel, i), x, y)
  {
    var after := Duplicate(channel, i);
    forall a, b | 0 <= a < b < |after| && after[b] == x
      ensures after[a] == x
    {
      assert channel[if a <= i then a else a - 1] == after[a] && channel[if b <= i then b else b - 1] == after[b];
    }
  }

  lemma ChannelGrows(channel: seq<DdPacket>, x: DdPacket, y: DdPacket)
    requires TwoPhase(channel, x, y) || AllCopies(channel, x)
    ensures TwoPhase(channel + [y], x, y)
  {
  }

  lemma CopiesTakeFirst(channel: seq<DdPacket>, x: DdPacket)
    requires AllCopies(channel, x) && channel != []
    ensures AllCopies(channel[1..], x) && channel[0] == x
  {
  }

  lemma CopiesGrow(channel: seq<DdPacket>, x: DdPacket)
    requires AllCopies(channel, x)
    ensures AllCopies(channel + [x], x)
  {
  }

  // ----- Every step keeps the invariant

  predicate StepKeeps(c: Sys, d: Sys) {
    Inv(d) && (c.m.negotiated ==> d.m.snapshot == c.m.snapshot) && (c.s.negotiated ==> d.s.snapshot == c.s.snapshot)
  }

  /** The parts of the peer predicates that the step lemmas below use; there the predicates stay hidden. */
  lemma PeerFacts(p: Peer, list: seq<Header>)
    ensures Fresh(p) ==> !p.negotiated && p.rounds == 0 && p.snapshot == []
    ensures MasterStuck(p) ==> p.negotiated && p.rounds == 0
    ensures SlaveAt(p, list) ==> p.negotiated && p.done == (p.rounds > 0 && Finished(list, p.snapshot, p.rounds))
    ensures MasterAt(p, list) ==>
              p.negotiated && p.rounds > 0 && p.done == Finished(p.snapshot, list, p.rounds - 1)
  {
  }

  lemma DeliverToMKeeps(c: Sys, adjacent: bool)
    requires Inv(c) && c.toM != []
    ensures Do(c, DeliverToM(adjacent)).Ok? && StepKeeps(c, Do(c, DeliverToM(adjacent)).value)
  {
    if PhaseRounds(c) {
      RoundsDeliverToM(c, adjacent);
    } else {
      hide Poll, Reply, ProcessDd, U32, SlaveAt;
      var sList := c.s.snapshot;
      if PhaseHello(c) {
        FreshMasterHears(c.m, adjacent);
      } else if PhaseHalf(c) {
        HalfDeliverToM(c, adjacent);
      } else {
        MasterStuckHears(c.m, adjacent, sList);
      }
    }
  }

  lemma HalfDeliverToM(c: Sys, adjacent: bool)
    requires Inv(c) && PhaseHalf(c) && c.toM != []
    ensures Do(c, DeliverToM(adjacent)).Ok? && StepKeeps(c, Do(c, DeliverToM(adjacent)).value)
  {
    var sList := c.s.snapshot;
    assert Fresh(c.m) && c.m.nbr.state == ExStart && c.m.nbr.lastDd.Some?;
    FirstRoundSlave(c.s, c.m.db);
    hide Poll, Reply, ProcessDd, U32, Fresh, SlaveAt, MasterAt, MasterStuck;
    PeerFacts(c.m, sList);
    PeerFacts(c.s, []);
    ChannelTakesFirst(c.toM, INIT_PACKET, Reply(sList, 0));
    PacketsDiffer(c.m.db, sList, 0);
    if c.toM[0] == INIT_PACKET {
      FreshMasterHears(c.m, adjacent);
    } else {
      MasterNegotiates(c.m, adjacent, sList);
      var q := Record(c.m, Receive(c.m, c.toM[0], adjacent).value);
      PeerFacts(q, sList);
      ChannelGrows(c.toS, INIT_PACKET, Poll(q.snapshot, 1));
    }
  }

  /** Before the first poll the slave's state says nothing about the master's snapshot. */
  lemma FirstRoundSlave(p: Peer, list: seq<Header>)
    requires SlaveAt(p, []) && p.rounds == 0
    ensures SlaveAt(p, list)
  {
  }

  lemma RoundsDeliverToM(c: Sys, adjacent: bool)
    requires Inv(c) && PhaseRounds(c) && c.toM != []
    ensures Do(c, DeliverToM(adjacent)).Ok? && StepKeeps(c, Do(c, DeliverToM(adjacent)).value)
  {
    hide Poll, Reply, Receive, U32, Fresh, SlaveAt, MasterAt, MasterStuck, TwoPhase, AllCopies;
    hide PhaseHello, PhaseHalf, PhaseStuck;
    var k, mList, sList := c.m.rounds, c.m.snapshot, c.s.snapshot;
    PeerFacts(c.m, sList);
    PeerFacts(c.s, mList);
    PacketsDiffer(mList, sList, k - 1);
    if c.s.rounds == k {
      ChannelTakesFirst(c.toM, Reply(sList, k - 1), Reply(sList, k));
    } else {
      CopiesTakeFirst(c.toM, Reply(sList, k - 1));
    }
    if c.toM[0] == Reply(sList, k - 1) {
      MasterHearsOld(c.m, adjacent, sList);
      assert Record(c.m, Quiet(c.m.nbr)) == c.m;
    } else {
      MasterHearsNew(c.m, adjacent, sList);
      ChannelGrows(c.toS, Poll(mList, k), Poll(mList, k + 1));
    }
  }

  lemma DeliverToSKeeps(c: Sys, adjacent: bool)
    requires Inv(c) && c.toS != []
    ensures Do(c, DeliverToS(adjacent)).Ok? && StepKeeps(c, Do(c, DeliverToS(adjacent)).value)
  {
    if PhaseRounds(c) {
      RoundsDeliverToS(c, adjacent);
    } else if PhaseHello(c) {
      HelloDeliverToS(c, adjacent);
    } else {
      var mList := if PhaseHalf(c) then [] else c.m.snapshot;
      assert SlaveAt(c.s, mList) && c.s.rounds == 0;
      PollZero(mList);
      SlaveHearsOld(c.s, adjacent, mList);
      assert Resend(c.s.nbr).sent == Some(Reply(c.s.snapshot, 0));
      hide Poll, Reply, ProcessDd, U32, Fresh, SlaveAt, MasterAt, MasterStuck;
      ChannelGrows(c.toM, INIT_PACKET, Reply(c.s.snapshot, 0));
      assert Record(c.s, Resend(c.s.nbr)) == c.s;
    }
  }

  lemma HelloDeliverToS(c: Sys, adjacent: bool)
    requires Inv(c) && PhaseHello(c) && c.toS != []
    ensures Do(c, DeliverToS(adjacent)).Ok? && StepKeeps(c, Do(c, DeliverToS(adjacent)).value)
  {
    FreshSlaveHears(c.s, adjacent);
    var o := Receive(c.s, c.toS[0], adjacent).value;
    var q := Record(c.s, o);
    hide Poll, Reply, ProcessDd, U32, SlaveAt, MasterAt, MasterStuck;
    ChannelGrows(c.toM, INIT_PACKET, Reply(q.snapshot, 0));
  }

  /** The poll that the slave hears is its last one again, or the next. */
  lemma RoundsDeliverToS(c: Sys, adjacent: bool)
    requires Inv(c) && PhaseRounds(c) && c.toS != []
    ensures Do(c, DeliverToS(adjacent)).Ok? && StepKeeps(c, Do(c, DeliverToS(adjacent)).value)
  {
    hide Poll, Reply, Inv, Do, StepKeeps, SlaveAt, MasterAt, AllCopies;
    if c.toS[0] == Poll(c.m.snapshot, c.s.rounds) {
      RoundsDeliverOldPoll(c, adjacent);
    } else {
      RoundsDeliverNewPoll(c, adjacent);
    }
  }

  lemma RoundsDeliverOldPoll(c: Sys, adjacent: bool)
    requires Inv(c) && PhaseRounds(c) && c.toS != [] && c.toS[0] == Poll(c.m.snapshot, c.s.rounds)
    ensures Do(c, DeliverToS(adjacent)).Ok? && StepKeeps(c, Do(c, DeliverToS(adjacent)).value)
  {
    var k, mList, sList := c.m.rounds, c.m.snapshot, c.s.snapshot;
    assert c.s.nbr.lastDd == Some(Reply(sList, c.s.rounds));
    hide Poll, Reply, Receive, U32, Fresh, SlaveAt, MasterAt, MasterStuck, TwoPhase, AllCopies;
    hide PhaseHello, PhaseHalf, PhaseStuck, Do;
    PeerFacts(c.m, sList);
    PeerFacts(c.s, mList);
    PacketsDiffer(mList, sList, k - 1);
    if c.s.rounds < k && !c.m.done {
      ChannelTakesFirst(c.toS, Poll(mList, k - 1), Poll(mList, k));
    } else {
      CopiesTakeFirst(c.toS, Poll(mList, c.s.rounds));
    }
    SlaveHearsOld(c.s, adjacent, mList);
    SlaveRepeats(c, adjacent);
    if c.s.rounds == k {
      ChannelGrows(c.toM, Reply(sList, k - 1), Reply(sList, k));
    } else {
      CopiesGrow(c.toM, Reply(sList, k - 1));
    }
  }

  lemma RoundsDeliverNewPoll(c: Sys, adjacent: bool)
    requires Inv(c) && PhaseRounds(c) && c.toS != [] && c.toS[0] != Poll(c.m.snapshot, c.s.rounds)
    ensures Do(c, DeliverToS(adjacent)).Ok? && StepKeeps(c, Do(c, DeliverToS(adjacent)).value)
  {
    var k, mList, sList := c.m.rounds, c.m.snapshot, c.s.snapshot;
    hide Poll, Reply, Receive, U32, Fresh, SlaveAt, MasterAt, MasterStuck, TwoPhase;
    hide PhaseHello, PhaseHalf, PhaseStuck;
    PeerFacts(c.m, sList);
    PeerFacts(c.s, mList);
    PacketsDiffer(mList, sList, k - 1);
    assert c.s.rounds < k && !c.m.done;
    hide AllCopies;
    ChannelTakesFirst(c.toS, Poll(mList, k - 1), Poll(mList, k));
    SlaveHearsNew(c.s, adjacent, mList);
    ChannelGrows(c.toM, Reply(sList, k - 1), Reply(sList, k));
  }

  lemma SlaveRepeats(c: Sys, adjacent: bool)
    requires c.toS != [] && Receive(c.s, c.toS[0], adjacent) == Ok(Resend(c.s.nbr)) && c.s.nbr.lastDd.Some?
    ensures Do(c, DeliverToS(adjacent)) == Ok(c.(toS := c.toS[1..], toM := c.toM + [c.s.nbr.lastDd.value]))
  {
    assert Record(c.s, Resend(c.s.nbr)) == c.s;
  }

  lemma PollZero(list: seq<Header>)
    ensures Poll(list, 0) == INIT_PACKET
  {
  }

  /** Packets of neighbouring rounds differ, and no reply is the empty packet of the negotiation. */
  lemma PacketsDiffer(mList: seq<Header>, sList: seq<Header>, k: nat)
    ensures Poll(mList, k) != Poll(mList, k + 1) && Reply(sList, k) != Reply(sList, k + 1)
    ensures Reply(sList, k) != INIT_PACKET && Poll(mList, 0) == INIT_PACKET
  {
    SequenceNumbersDiffer(k);
  }

  lemma TimerMKeeps(c: Sys)
    requires Inv(c)
    ensures Do(c, TimerM).Ok? && StepKeeps(c, Do(c, TimerM).value)
  {
    var mList, sList, k := c.m.snapshot, c.s.snapshot, c.m.rounds;
    PollZero(c.m.snapshot);
    TimerKeeps(c.m, sList);
    hide Poll, Reply, RxmtTimer, U32, Fresh, SlaveAt, MasterAt, MasterStuck, TwoPhase, AllCopies;
    PeerFacts(c.m, sList);
    if !PhaseRounds(c) {
      CopiesGrow(c.toS, INIT_PACKET);
    } else if c.s.rounds == k {
      CopiesGrow(c.toS, Poll(mList, k));
    } else if !c.m.done {
      ChannelGrows(c.toS, Poll(mList, k - 1), Poll(mList, k));
    }
  }

  lemma TimerSKeeps(c: Sys)
    requires Inv(c)
    ensures Do(c, TimerS).Ok? && StepKeeps(c, Do(c, TimerS).value)
  {
    TimerKeeps(c.s, if PhaseHalf(c) then [] else c.m.snapshot);
    hide Poll, Reply, RxmtTimer, U32, TwoPhase, AllCopies, MasterAt, MasterStuck;
  }

  lemma LocalStepKeeps(c: Sys, step: Step)
    requires Inv(c) && Enabled(c, step) && (step.LocalM? || step.LocalS?)
    ensures Do(c, step).Ok? && StepKeeps(c, Do(c, step).value)
  {
    hide Poll, Reply, DoLocal, U32, TwoPhase, AllCopies;
    if step.LocalM? {
      LocalKeeps(c.m, step.l, c.s.snapshot);
    } else {
      LocalKeeps(c.s, step.l, if PhaseHalf(c) then [] else c.m.snapshot);
    }
  }

  /** Whatever two packets a channel holds copies of, one after the other, it still does. */
  ghost predicate Thins(channel: seq<DdPacket>, after: seq<DdPacket>) {
    && (forall x, y :: TwoPhase(channel, x, y) ==> TwoPhase(after, x, y))
    && (forall x :: AllCopies(channel, x) ==> AllCopies(after, x))
    && (channel == [] ==> after == [])
  }

  lemma LosingThins(channel: seq<DdPacket>, i: nat)
    requires i < |channel|
    ensures Thins(channel, Lose(channel, i))
  {
    hide TwoPhase;
    forall x, y | TwoPhase(channel, x, y)
      ensures TwoPhase(Lose(channel, i), x, y)
    {
      ChannelLoses(channel, i, x, y);
    }
  }

  lemma DuplicatingThins(channel: seq<DdPacket>, i: nat)
    requires i < |channel|
    ensures Thins(channel, Duplicate(channel, i))
  {
    hide TwoPhase;
    forall x, y | TwoPhase(channel, x, y)
      ensures TwoPhase(Duplicate(channel, i), x, y)
    {
      ChannelDuplicates(channel, i, x, y);
    }
  }

  lemma ThinningKeepsInv(c: Sys, d: Sys)
    requires Inv(c) && d.m == c.m && d.s == c.s && Thins(c.toM, d.toM) && Thins(c.toS, d.toS)
    ensures StepKeeps(c, d)
  {
    hide Poll, Reply, U32, Fresh, SlaveAt, MasterAt, MasterStuck, TwoPhase, AllCopies;
  }

  lemma ChannelStepKeeps(c: Sys, step: Step)
    requires Inv(c) && Enabled(c, step)
    requires step.LoseToM? || step.LoseToS? || step.DuplicateToM? || step.DuplicateToS?
    ensures Do(c, step).Ok? && StepKeeps(c, Do(c, step).value)
  {
    hide Inv, StepKeeps, Lose, Duplicate;
    match step {
      case LoseToM(i) => LosingThins(c.toM, i);
      case LoseToS(i) => LosingThins(c.toS, i);
      case DuplicateToM(i) => DuplicatingThins(c.toM, i);
      case DuplicateToS(i) => DuplicatingThins(c.toS, i);
    }
    hide TwoPhase, AllCopies;
    ThinningKeepsInv(c, Do(c, step).value);
  }

  /** No step is stopped by a C assert, and every step keeps the invariant. */
  lemma StepKeepsInv(c: Sys, step: Step)
    requires Inv(c) && Enabled(c, step)
    ensures Do(c, step).Ok? && StepKeeps(c, Do(c, step).value)
  {
    match step
    case DeliverToM(adjacent) => DeliverToMKeeps(c, adjacent);
    case DeliverToS(adjacent) => DeliverToSKeeps(c, adjacent);
    case TimerM => TimerMKeeps(c);
    case TimerS => TimerSKeeps(c);
    case LocalM(_) => LocalStepKeeps(c, step);
    case LocalS(_) => LocalStepKeeps(c, step);
    case _ => ChannelStepKeeps(c, step);
  }
}
