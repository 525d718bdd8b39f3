/**
 The link state database (src/lsdb.cpp, src/lsdb.hpp).

 Each LSA type has a list of its own. The first part describes what `add` does to one list and what a
 whole history of additions leaves there; the class at the end is the database with its three lists in use
 and the counter for local sequence numbers.
 */
module Lsdbs {
  import opened Wrappers
  import opened Words
  import opened Lsas
  import PacketBuffers

  // ----- One list

  predicate SameId(a: Lsa, b: Lsa) {
    a.header.linkStateId == b.header.linkStateId && a.header.advertisingRouter == b.header.advertisingRouter
  }

  predicate Matches(lsa: Lsa, lsId: uint32, advRtr: uint32) {
    lsa.header.linkStateId == lsId && lsa.header.advertisingRouter == advRtr
  }

  /** The position of the first match, or the length of the list. */
  function Find(list: seq<Lsa>, lsId: uint32, advRtr: uint32): (i: nat)
    ensures i <= |list|
    ensures i < |list| ==> Matches(list[i], lsId, advRtr)
    ensures forall j | 0 <= j < i :: !Matches(list[j], lsId, advRtr)
  {
    if list == [] then 0
    else if Matches(list[0], lsId, advRtr) then 0
    else 1 + Find(list[1..], lsId, advRtr)
  }

  function Lookup(list: seq<Lsa>, lsId: uint32, advRtr: uint32): Option<Lsa> {
    var i := Find(list, lsId, advRtr);
    if i < |list| then Some(list[i]) else None
  }

  function Without(list: seq<Lsa>, i: nat): seq<Lsa> {
    if i < |list| then list[..i] + list[i + 1..] else list
  }

  /** `add`: the first stored match goes if the new instance is newer; the new instance always comes. */
  function AddTo(list: seq<Lsa>, lsa: Lsa): seq<Lsa> {
    var i := Find(list, lsa.header.linkStateId, lsa.header.advertisingRouter);
    (if i < |list| && Newer(lsa.header, list[i].header) then Without(list, i) else list) + [lsa]
  }

  /** The list after a history of additions, oldest first. */
  function AddAll(history: seq<Lsa>): seq<Lsa> {
    if history == [] then [] else AddTo(AddAll(history[..|history| - 1]), history[|history| - 1])
  }

  predicate Has(list: seq<Lsa>, lsId: uint32, advRtr: uint32) {
    exists i | 0 <= i < |list| :: Matches(list[i], lsId, advRtr)
  }

  /** No two entries describe the same advertisement. */
  predicate Distinct(list: seq<Lsa>) {
    forall i, j | 0 <= i < j < |list| :: !SameId(list[i], list[j])
  }

  /** Every arrival is newer than all earlier arrivals of the same advertisement. */
  predicate Increasing(history: seq<Lsa>) {
    forall i, j | 0 <= i < j < |history| && SameId(history[i], history[j]) ::
      Newer(history[j].header, history[i].header)
  }

  /** Some stored instance of the same advertisement is at least as recent as `lsa`. */
  ghost predicate Covered(list: seq<Lsa>, lsa: Lsa) {
    exists j :: 0 <= j < |list| && SameId(list[j], lsa) && !Newer(lsa.header, list[j].header)
  }

  ghost predicate Covers(list: seq<Lsa>, history: seq<Lsa>) {
    forall i | 0 <= i < |history| :: Covered(list, history[i])
  }

  ghost predicate Within(list: seq<Lsa>, history: seq<Lsa>) {
    forall j | 0 <= j < |list| :: list[j] in history
  }

  /** Entries other than the replaced one stay, whatever is added. */
  lemma AddToKeeps(list: seq<Lsa>, lsa: Lsa, j: nat) returns (k: nat)
    requires j < |list|
    ensures k < |AddTo(list, lsa)| && SameId(AddTo(list, lsa)[k], list[j])
    ensures (k < |AddTo(list, lsa)| - 1 && AddTo(list, lsa)[k] == list[j])
            || (Newer(lsa.header, list[j].header) && AddTo(list, lsa)[k] == lsa)
  {
    var i := Find(list, lsa.header.linkStateId, lsa.header.advertisingRouter);
    var replaced := i < |list| && Newer(lsa.header, list[i].header);
    if !replaced || j < i {
      k := j;
    } else if j == i {
      k := |AddTo(list, lsa)| - 1;
    } else {
      k := j - 1;
    }
  }

  /** An advertisement once stored is stored for ever. */
  lemma AddToKeepsId(list: seq<Lsa>, lsa: Lsa, lsId: uint32, advRtr: uint32)
    ensures Has(AddTo(list, lsa), lsId, advRtr) <==> Has(list, lsId, advRtr) || Matches(lsa, lsId, advRtr)
  {
    var after := AddTo(list, lsa);
    if Matches(lsa, lsId, advRtr) {
      assert after[|after| - 1] == lsa;
    }
    if Has(list, lsId, advRtr) {
      var j :| 0 <= j < |list| && Matches(list[j], lsId, advRtr);
      var k := AddToKeeps(list, lsa, j);
      assert Matches(after[k], lsId, advRtr);
    }
    if Has(after, lsId, advRtr) && !Matches(lsa, lsId, advRtr) {
      var k :| 0 <= k < |after| && Matches(after[k], lsId, advRtr);
      assert after[k] in list;
    }
  }

  lemma {:induction false} AddAllWithin(history: seq<Lsa>)
    ensures Within(AddAll(history), history)
  {
    if history != [] {
      AddAllWithin(history[..|history| - 1]);
    }
  }

  lemma AddToCovers(list: seq<Lsa>, lsa: Lsa, h: Lsa)
    requires Covered(list, h) || h == lsa
    ensures Covered(AddTo(list, lsa), h)
  {
    var after := AddTo(list, lsa);
    if h == lsa {
      assert after[|after| - 1] == lsa;
    } else {
      var j :| 0 <= j < |list| && SameId(list[j], h) && !Newer(h.header, list[j].header);
      var k := AddToKeeps(list, lsa, j);
    }
  }

  /** The most recent instance ever added is always stored, in whatever order instances arrive. */
  lemma {:induction false} MostRecentStored(history: seq<Lsa>)
    ensures Covers(AddAll(history), history) && Within(AddAll(history), history)
  {
    hide AddTo, Covered;
    AddAllWithin(history);
    if history != [] {
      var n := |history| - 1;
      MostRecentStored(history[..n]);
      forall i | 0 <= i < |history|
        ensures Covered(AddAll(history), history[i])
      {
        assert i < n ==> history[..n][i] == history[i];
        AddToCovers(AddAll(history[..n]), history[n], history[i]);
      }
    }
  }

  /** One addition keeps a list free of repetitions exactly when it replaces what it meets. */
  lemma AddToDistinct(list: seq<Lsa>, lsa: Lsa)
    ensures Distinct(AddTo(list, lsa)) <==>
              Distinct(list) && forall j | 0 <= j < |list| && SameId(list[j], lsa) :: Newer(lsa.header, list[j].header)
  {
    var i := Find(list, lsa.header.linkStateId, lsa.header.advertisingRouter);
    var after := AddTo(list, lsa);
    var last := |after| - 1;
    if Distinct(after) {
      forall j | 0 <= j < |list| && SameId(list[j], lsa)
        ensures Newer(lsa.header, list[j].header)
      {
        var k := AddToKeeps(list, lsa, j);
        assert k < last ==> !SameId(after[k], after[last]);
      }
      forall j, k | 0 <= j < k < |list|
        ensures !SameId(list[j], list[k])
      {
        if SameId(list[j], list[k]) {
          RepetitionStays(list, lsa, j, k);
        }
      }
    } else if Distinct(list) {
      var j, k :| 0 <= j < k < |after| && SameId(after[j], after[k]);
      assert k == last;
    }
  }

  lemma RepetitionStays(list: seq<Lsa>, lsa: Lsa, j: nat, k: nat)
    requires j < k < |list| && SameId(list[j], list[k])
    ensures !Distinct(AddTo(list, lsa))
  {
    var i := Find(list, lsa.header.linkStateId, lsa.header.advertisingRouter);
    var after := AddTo(list, lsa);
    if i < |list| && Newer(lsa.header, list[i].header) {
      if j == i {
        assert after[k - 1] == list[k] && SameId(after[k - 1], after[|after| - 1]);
      } else {
        assert k != i;
        assert after[if j < i then j else j - 1] == list[j] && after[if k < i then k else k - 1] == list[k];
      }
    } else {
      assert after[j] == list[j] && after[k] == list[k];
    }
  }

  /**
   The list holds one entry per advertisement exactly when every arrival is newer than all earlier ones
   of its advertisement.
   */
  lemma {:induction false} DistinctExactly(history: seq<Lsa>)
    ensures Distinct(AddAll(history)) <==> Increasing(history)
  {
    hide AddTo, Covers, Within, Newer, SameId;
    if history != [] {
      var n := |history| - 1;
      var init, lsa := history[..n], history[n];
      DistinctExactly(init);
      MostRecentStored(init);
      AddToDistinct(AddAll(init), lsa);
      IncreasingSnoc(init, lsa);
      NewerThanStored(AddAll(init), init, lsa);
      assert history == init + [lsa];
    }
  }

  /** Being newer than what is stored is being newer than everything that ever arrived. */
  lemma NewerThanStored(list: seq<Lsa>, history: seq<Lsa>, lsa: Lsa)
    requires Covers(list, history) && Within(list, history)
    ensures (forall j | 0 <= j < |list| && SameId(list[j], lsa) :: Newer(lsa.header, list[j].header))
            <==> (forall i | 0 <= i < |history| && SameId(history[i], lsa) :: Newer(lsa.header, history[i].header))
  {
    hide Newer, SameId;
    if forall j | 0 <= j < |list| && SameId(list[j], lsa) :: Newer(lsa.header, list[j].header) {
      forall i | 0 <= i < |history| && SameId(history[i], lsa)
        ensures Newer(lsa.header, history[i].header)
      {
        assert Covered(list, history[i]);
        var j :| 0 <= j < |list| && SameId(list[j], history[i]) && !Newer(history[i].header, list[j].header);
        NewerThanBoth(lsa, list[j], history[i]);
      }
    }
  }

  lemma NewerThanBoth(lsa: Lsa, stored: Lsa, h: Lsa)
    requires SameId(stored, h) && SameId(h, lsa) && !Newer(h.header, stored.header)
    ensures SameId(stored, lsa)
    ensures Newer(lsa.header, stored.header) ==> Newer(lsa.header, h.header)
  {
  }

  lemma IncreasingSnoc(init: seq<Lsa>, lsa: Lsa)
    ensures Increasing(init + [lsa]) <==>
              Increasing(init) && forall i | 0 <= i < |init| && SameId(init[i], lsa) :: Newer(lsa.header, init[i].header)
  {
    var history := init + [lsa];
    if Increasing(history) {
      forall i, j | 0 <= i < j < |init| && SameId(init[i], init[j])
        ensures Newer(init[j].header, init[i].header)
      {
        assert history[i] == init[i] && history[j] == init[j];
      }
      forall i | 0 <= i < |init| && SameId(init[i], lsa)
        ensures Newer(lsa.header, init[i].header)
      {
        assert history[i] == init[i] && history[|init|] == lsa;
      }
    }
  }

  /**
   With strictly increasing arrivals the list is a map: the one entry of an advertisement is its newest
   instance, and that is what a lookup finds.
   */
  lemma IncreasingIsMap(history: seq<Lsa>, i: nat)
    requires Increasing(history) && i < |history|
    requires forall j | i < j < |history| :: !SameId(history[i], history[j])
    ensures var h := history[i].header;
            Lookup(AddAll(history), h.linkStateId, h.advertisingRouter) == Some(history[i])
  {
    hide AddAll, Lookup, Newer, Distinct, Increasing, Within;
    DistinctExactly(history);
    MostRecentStored(history);
    var list := AddAll(history);
    assert Covered(list, history[i]);
    var j :| 0 <= j < |list| && SameId(list[j], history[i]) && !Newer(history[i].header, list[j].header);
    StoredIsLast(list, history, i, j);
    DistinctLookup(list, j);
  }

  lemma DistinctLookup(list: seq<Lsa>, j: nat)
    requires j < |list| && Distinct(list)
    ensures Lookup(list, list[j].header.linkStateId, list[j].header.advertisingRouter) == Some(list[j])
  {
    var k := Find(list, list[j].header.linkStateId, list[j].header.advertisingRouter);
    assert SameId(list[k], list[j]);
  }

  lemma StoredIsLast(list: seq<Lsa>, history: seq<Lsa>, i: nat, j: nat)
    requires i < |history| && j < |list| && Within(list, history) && Increasing(history)
    requires forall m | i < m < |history| :: !SameId(history[i], history[m])
    requires SameId(list[j], history[i]) && !Newer(history[i].header, list[j].header)
    ensures list[j] == history[i]
  {
    assert list[j] in history;
    var m :| 0 <= m < |history| && history[m] == list[j];
    assert SameId(history[m], history[i]);
  }

  /** Out of order arrivals break the lookup: after sequence numbers 5, 3, 7 it answers with the stale 3. */
  lemma StaleLookupExample(five: Lsa, three: Lsa, seven: Lsa)
    requires SameId(five, three) && SameId(five, seven)
    requires five.header.sequenceNumber == 5 && three.header.sequenceNumber == 3 && seven.header.sequenceNumber == 7
    ensures Lookup(AddAll([five, three, seven]), five.header.linkStateId, five.header.advertisingRouter) == Some(three)
  {
    assert [five, three, seven][..2] == [five, three] && [five, three][..1] == [five] && [five][..0] == [];
    assert AddAll([five]) == [five];
    assert AddAll([five, three]) == [five, three];
    assert AddAll([five, three, seven]) == [three, seven];
  }

  // ----- When lookups are never stale

  predicate OneAdvertisement(history: seq<Lsa>) {
    forall i, j | 0 <= i < |history| && 0 <= j < |history| :: SameId(history[i], history[j])
  }

  /** What a lookup finds after the history is as recent as everything that arrived. */
  predicate Current(history: seq<Lsa>) {
    && history != []
    && var found := Lookup(AddAll(history), history[0].header.linkStateId, history[0].header.advertisingRouter);
       found.Some? && forall i | 0 <= i < |history| :: !Newer(history[i].header, found.value.header)
  }

  predicate NeverStale(history: seq<Lsa>) {
    forall n | 0 < n <= |history| :: Current(history[..n])
  }

  /** Arrivals get newer up to the `k`-th, and none after it is newer than that. */
  predicate Peak(history: seq<Lsa>, k: nat) {
    && k < |history|
    && (forall i, j | 0 <= i < j <= k :: Newer(history[j].header, history[i].header))
    && (forall i | k < i < |history| :: !Newer(history[i].header, history[k].header))
  }

  lemma AddBehind(list: seq<Lsa>, lsa: Lsa)
    requires list != [] && SameId(list[0], lsa)
    ensures AddTo(list, lsa) == (if Newer(lsa.header, list[0].header) then list[1..] else list) + [lsa]
  {
    assert Find(list, lsa.header.linkStateId, lsa.header.advertisingRouter) == 0;
  }

  lemma FindsFirst(list: seq<Lsa>, lsa: Lsa)
    requires list != [] && SameId(list[0], lsa)
    ensures Lookup(list, lsa.header.linkStateId, lsa.header.advertisingRouter) == Some(list[0])
  {
    assert Find(list, lsa.header.linkStateId, lsa.header.advertisingRouter) == 0;
  }

  /** The list is a queue: arrivals up to the peak replace each other, and everything after it piles up behind it. */
  lemma {:induction false} PeakHeadsQueue(history: seq<Lsa>, k: nat)
    requires OneAdvertisement(history) && Peak(history, k)
    ensures AddAll(history) == history[k..]
  {
    hide AddTo, Newer, SameId;
    var n := |history| - 1;
    var init, lsa := history[..n], history[n];
    if n == 0 {
      assert AddAll(init) == [];
      AddToNothing(lsa);
    } else {
      var peak := if k < n then k else n - 1;
      PeakHeadsQueue(init, peak);
      assert init[peak..][0] == history[peak];
      AddBehind(init[peak..], lsa);
      assert k < n ==> !Newer(lsa.header, history[k].header) && init[k..] + [lsa] == history[k..];
      assert k == n ==> Newer(lsa.header, history[n - 1].header) && init[n - 1..][1..] + [lsa] == history[n..];
    }
  }

  lemma AddToNothing(lsa: Lsa)
    ensures AddTo([], lsa) == [lsa]
  {
  }

  lemma PeakIsCurrent(history: seq<Lsa>, k: nat)
    requires OneAdvertisement(history) && Peak(history, k)
    ensures Current(history)
  {
    PeakHeadsQueue(history, k);
    hide Lookup, AddAll;
    FindsFirst(history[k..], history[0]);
    forall i | 0 <= i < k
      ensures !Newer(history[i].header, history[k].header)
    {
      assert Newer(history[k].header, history[i].header);
    }
  }

  lemma {:induction false} NeverStaleHasPeak(history: seq<Lsa>) returns (k: nat)
    requires OneAdvertisement(history) && NeverStale(history) && history != []
    ensures Peak(history, k)
  {
    hide Current, AddAll, SameId;
    var n := |history| - 1;
    assert history[..n + 1] == history;
    if n == 0 {
      k := 0;
    } else {
      var init, lsa := history[..n], history[n];
      assert NeverStale(init) by {
        assert forall m | 0 < m <= n :: init[..m] == history[..m];
      }
      k := NeverStaleHasPeak(init);
      PeakGoesOn(history, k);
      if Newer(lsa.header, history[k].header) {
        k := n;
      }
    }
  }

  lemma PeakGoesOn(history: seq<Lsa>, k: nat)
    requires OneAdvertisement(history) && |history| >= 2 && Peak(history[..|history| - 1], k) && Current(history)
    ensures var n := |history| - 1;
            if Newer(history[n].header, history[k].header) then k == n - 1 && Peak(history, n) else Peak(history, k)
  {
    hide Current, AddAll, SameId, OneAdvertisement;
    var n := |history| - 1;
    if Newer(history[n].header, history[k].header) && k < n - 1 {
      OvertakenIsStale(history, k);
    }
  }

  lemma NextInQueue(queue: seq<Lsa>, lsa: Lsa)
    requires |queue| >= 2 && SameId(queue[0], lsa) && Newer(lsa.header, queue[0].header)
    ensures AddTo(queue, lsa) != [] && AddTo(queue, lsa)[0] == queue[1]
  {
    AddBehind(queue, lsa);
    hide AddTo, SameId, Newer;
  }

  lemma OvertakenQueue(history: seq<Lsa>, k: nat)
    requires OneAdvertisement(history) && k < |history| - 2 && Peak(history[..|history| - 1], k)
    requires Newer(history[|history| - 1].header, history[k].header)
    ensures AddAll(history) != [] && AddAll(history)[0] == history[k + 1]
  {
    hide AddTo, Newer, SameId, Peak;
    var n := |history| - 1;
    var init := history[..n];
    PeakHeadsQueue(init, k);
    var queue := init[k..];
    assert queue[0] == history[k] && queue[1] == history[k + 1] && SameId(history[k], history[n]);
    hide OneAdvertisement;
    NextInQueue(queue, history[n]);
  }

  /** Something newer than the peak, after something that was not: the peak goes and the older one is found. */
  lemma OvertakenIsStale(history: seq<Lsa>, k: nat)
    requires OneAdvertisement(history) && k < |history| - 2 && Peak(history[..|history| - 1], k)
    requires Newer(history[|history| - 1].header, history[k].header)
    ensures !Current(history)
  {
    var n := |history| - 1;
    OvertakenQueue(history, k);
    hide AddTo, AddAll, Lookup;
    FindsFirst(AddAll(history), history[0]);
    assert !Newer(history[..n][k + 1].header, history[..n][k].header);
    assert Newer(history[n].header, history[k + 1].header);
  }

  /**
   Lookups of an advertisement are never stale if and only if its instances arrive in order up to some instance, and
   nothing newer than that one follows.
   */
  lemma NeverStaleExactly(history: seq<Lsa>)
    requires OneAdvertisement(history) && history != []
    ensures NeverStale(history) <==> exists k: nat :: Peak(history, k)
  {
    if k: nat :| Peak(history, k) {
      forall n | 0 < n <= |history|
        ensures Current(history[..n])
      {
        PeakIsCurrent(history[..n], if k < n then k else n - 1);
      }
    }
    if NeverStale(history) {
      var k := NeverStaleHasPeak(history);
    }
  }

  // ----- Other advertisements in the same list do not matter

  function Only(list: seq<Lsa>, lsId: uint32, advRtr: uint32): seq<Lsa> {
    if list == [] then []
    else
      var last := list[|list| - 1];
      Only(list[..|list| - 1], lsId, advRtr) + (if Matches(last, lsId, advRtr) then [last] else [])
  }

  lemma {:induction false} OnlyAppend(a: seq<Lsa>, b: seq<Lsa>, lsId: uint32, advRtr: uint32)
    ensures Only(a + b, lsId, advRtr) == Only(a, lsId, advRtr) + Only(b, lsId, advRtr)
  {
    hide Matches;
    if b == [] {
      assert a + b == a;
    } else {
      assert (a + b)[..|a + b| - 1] == a + b[..|b| - 1];
      OnlyAppend(a, b[..|b| - 1], lsId, advRtr);
    }
  }

  lemma {:induction false} OnlyNone(list: seq<Lsa>, lsId: uint32, advRtr: uint32)
    requires forall i | 0 <= i < |list| :: !Matches(list[i], lsId, advRtr)
    ensures Only(list, lsId, advRtr) == []
  {
    if list != [] {
      OnlyNone(list[..|list| - 1], lsId, advRtr);
    }
  }

  lemma OnlyOne(lsa: Lsa, lsId: uint32, advRtr: uint32)
    ensures Only([lsa], lsId, advRtr) == if Matches(lsa, lsId, advRtr) then [lsa] else []
  {
    assert [lsa][..0] == [];
  }

  /** The list around position `i`. */
  lemma OnlyAround(list: seq<Lsa>, i: nat, lsId: uint32, advRtr: uint32)
    requires i < |list|
    ensures var o := (l: seq<Lsa>) => Only(l, lsId, advRtr);
            && o(list) == o(list[..i]) + (if Matches(list[i], lsId, advRtr) then [list[i]] else []) + o(list[i + 1..])
            && o(Without(list, i)) == o(list[..i]) + o(list[i + 1..])
  {
    hide Only, Matches;
    assert list == (list[..i] + [list[i]]) + list[i + 1..];
    OnlyAppend(list[..i] + [list[i]], list[i + 1..], lsId, advRtr);
    OnlyAppend(list[..i], [list[i]], lsId, advRtr);
    OnlyOne(list[i], lsId, advRtr);
    OnlyAppend(list[..i], list[i + 1..], lsId, advRtr);
  }

  lemma LookupIsFirst(list: seq<Lsa>, lsId: uint32, advRtr: uint32)
    ensures var only := Only(list, lsId, advRtr);
            Lookup(list, lsId, advRtr) == if only == [] then None else Some(only[0])
  {
    var i := Find(list, lsId, advRtr);
    if i < |list| {
      OnlyAround(list, i, lsId, advRtr);
      OnlyNone(list[..i], lsId, advRtr);
    } else {
      OnlyNone(list, lsId, advRtr);
    }
  }

  lemma OnlyAfterAdd(list: seq<Lsa>, lsa: Lsa, lsId: uint32, advRtr: uint32)
    ensures Only(AddTo(list, lsa), lsId, advRtr)
            == if Matches(lsa, lsId, advRtr) then AddTo(Only(list, lsId, advRtr), lsa) else Only(list, lsId, advRtr)
  {
    hide Only, AddTo;
    if Matches(lsa, lsId, advRtr) {
      OnlyAfterOwn(list, lsa, lsId, advRtr);
    } else {
      OnlyAfterOther(list, lsa, lsId, advRtr);
    }
  }

  lemma OnlyAfterOther(list: seq<Lsa>, lsa: Lsa, lsId: uint32, advRtr: uint32)
    requires !Matches(lsa, lsId, advRtr)
    ensures Only(AddTo(list, lsa), lsId, advRtr) == Only(list, lsId, advRtr)
  {
    hide Only, Without;
    var i := Find(list, lsa.header.linkStateId, lsa.header.advertisingRouter);
    OnlyOne(lsa, lsId, advRtr);
    OnlyAppend(list, [lsa], lsId, advRtr);
    if i < |list| {
      OnlyAround(list, i, lsId, advRtr);
      OnlyAppend(Without(list, i), [lsa], lsId, advRtr);
    }
  }

  lemma OnlyAfterOwn(list: seq<Lsa>, lsa: Lsa, lsId: uint32, advRtr: uint32)
    requires Matches(lsa, lsId, advRtr)
    ensures Only(AddTo(list, lsa), lsId, advRtr) == AddTo(Only(list, lsId, advRtr), lsa)
  {
    hide Only, Without, Newer;
    var i := Find(list, lsId, advRtr);
    var only := Only(list, lsId, advRtr);
    OnlyOne(lsa, lsId, advRtr);
    OnlyAppend(list, [lsa], lsId, advRtr);
    OnlyNone(list[..i], lsId, advRtr);
    if i < |list| {
      OnlyAround(list, i, lsId, advRtr);
      OnlyAppend(Without(list, i), [lsa], lsId, advRtr);
      assert only == [list[i]] + Only(list[i + 1..], lsId, advRtr);
      AddBehind(only, lsa);
    } else {
      assert list[..i] == list;
      AddToNothing(lsa);
    }
  }

  /** What the list holds of an advertisement, and what a lookup finds, depends on the arrivals of that one alone. */
  lemma {:induction false} OthersDoNotMatter(history: seq<Lsa>, lsId: uint32, advRtr: uint32)
    ensures Only(AddAll(history), lsId, advRtr) == AddAll(Only(history, lsId, advRtr))
    ensures Lookup(AddAll(history), lsId, advRtr) == Lookup(AddAll(Only(history, lsId, advRtr)), lsId, advRtr)
    ensures OneAdvertisement(Only(history, lsId, advRtr))
  {
    hide AddTo, Lookup, Matches;
    var only := Only(history, lsId, advRtr);
    if history != [] {
      var n := |history| - 1;
      var init, lsa := history[..n], history[n];
      var before := Only(init, lsId, advRtr);
      OthersDoNotMatter(init, lsId, advRtr);
      OnlyAfterAdd(AddAll(init), lsa, lsId, advRtr);
      assert Matches(lsa, lsId, advRtr) ==> only == before + [lsa] && only[..|only| - 1] == before;
      assert !Matches(lsa, lsId, advRtr) ==> only == before;
    }
    OneIsOnly(history, lsId, advRtr);
    OnlyTwice(AddAll(history), lsId, advRtr);
    LookupIsFirst(AddAll(history), lsId, advRtr);
    LookupIsFirst(AddAll(only), lsId, advRtr);
  }

  lemma OneIsOnly(list: seq<Lsa>, lsId: uint32, advRtr: uint32)
    ensures OneAdvertisement(Only(list, lsId, advRtr))
  {
    OnlyMatches(list, lsId, advRtr);
    hide Only;
  }

  lemma {:induction false} OnlyMatches(list: seq<Lsa>, lsId: uint32, advRtr: uint32)
    ensures forall i | 0 <= i < |Only(list, lsId, advRtr)| :: Matches(Only(list, lsId, advRtr)[i], lsId, advRtr)
  {
    if list != [] {
      OnlyMatches(list[..|list| - 1], lsId, advRtr);
    }
  }

  lemma {:induction false} OnlyTwice(list: seq<Lsa>, lsId: uint32, advRtr: uint32)
    ensures Only(Only(list, lsId, advRtr), lsId, advRtr) == Only(list, lsId, advRtr)
  {
    if list != [] {
      var last := list[|list| - 1];
      OnlyTwice(list[..|list| - 1], lsId, advRtr);
      OnlyOne(last, lsId, advRtr);
      var before := Only(list[..|list| - 1], lsId, advRtr);
      OnlyAppend(before, [last], lsId, advRtr);
      assert before + [] == before;
    }
  }

  // ----- Local sequence numbers

  const FIRST_SEQUENCE_NUMBER := 0x8000_0001

  /** The sequence number of the `i`-th local origination: a 64-bit counter cut to 32 bits. */
  function LocalSequenceNumber(i: nat): uint32 {
    U32((FIRST_SEQUENCE_NUMBER + i) % TWO_64)
  }

  /** Advertisements that only this router originates; the counter serves them all, so that numbers may be skipped. */
  ghost predicate LocalHistory(history: seq<Lsa>, numbers: seq<nat>) {
    && |numbers| == |history|
    && (forall i, j | 0 <= i < j < |numbers| :: numbers[i] < numbers[j])
    && forall i | 0 <= i < |history| :: history[i].header.sequenceNumber == LocalSequenceNumber(numbers[i])
  }

  /** The origination that brings the 32-bit sequence number back to 0. */
  const FIRST_WRAPPED := 0x7FFF_FFFF

  /**
   Local originations are in increasing order exactly when no advertisement is originated both before and after the
   sequence number wraps, up to the second time it does.
   */
  lemma LocalHistoryIncreasingExactly(history: seq<Lsa>, numbers: seq<nat>)
    requires LocalHistory(history, numbers) && forall i | 0 <= i < |numbers| :: numbers[i] < TWO_32
    ensures Increasing(history) <==>
              forall i, j | 0 <= i < j < |history| && SameId(history[i], history[j]) ::
                FIRST_WRAPPED <= numbers[i] || numbers[j] < FIRST_WRAPPED
  {
    forall i, j | 0 <= i < j < |history|
      ensures Newer(history[j].header, history[i].header) <==> FIRST_WRAPPED <= numbers[i] || numbers[j] < FIRST_WRAPPED
    {
      LocalOrder(numbers[i], numbers[j]);
    }
  }

  lemma LocalOrder(i: nat, j: nat)
    requires i < j < TWO_32
    ensures LocalSequenceNumber(i) < LocalSequenceNumber(j) <==> FIRST_WRAPPED <= i || j < FIRST_WRAPPED
    ensures LocalSequenceNumber(i) != LocalSequenceNumber(j)
  {
    var a, b := FIRST_SEQUENCE_NUMBER + i, FIRST_SEQUENCE_NUMBER + j;
    assert LocalSequenceNumber(i) == if a < TWO_32 then a else a - TWO_32;
    assert LocalSequenceNumber(j) == if b < TWO_32 then b else b - TWO_32;
  }

  /** The `i`-th number written out: it starts at 0x80000001 and goes up by one, over 32 bits. */
  lemma LocalNumbers(i: nat)
    ensures LocalSequenceNumber(0) == 0x8000_0001
    ensures LocalSequenceNumber(i + 1) == (LocalSequenceNumber(i) + 1) % 0x1_0000_0000
  {
  }

  // ----- The database

  /** The three lists that the daemon fills; `SUMMARY` is the last type any of its code constructs. */
  datatype Db = Db(routers: seq<Lsa>, networks: seq<Lsa>, summaries: seq<Lsa>)

  const EMPTY := Db([], [], [])

  predicate Typed(lsa: Lsa) {
    match lsa
    case RouterLsa(h, _, _, _) => h.lsType == ROUTER
    case NetworkLsa(h, _, _) => h.lsType == NETWORK
    case SummaryLsa(h, _, _, _) => h.lsType == SUMMARY
  }

  predicate ValidDb(db: Db) {
    && (forall i | 0 <= i < |db.routers| :: db.routers[i].RouterLsa? && Typed(db.routers[i]))
    && (forall i | 0 <= i < |db.networks| :: db.networks[i].NetworkLsa? && Typed(db.networks[i]))
    && (forall i | 0 <= i < |db.summaries| :: db.summaries[i].SummaryLsa? && Typed(db.summaries[i]))
  }

  /** The list for a type; the daemon's lists for other types stay empty. */
  function ListOf(db: Db, lsType: uint8): seq<Lsa> {
    if lsType == ROUTER then db.routers
    else if lsType == NETWORK then db.networks
    else if lsType == SUMMARY then db.summaries
    else []
  }

  function Get(db: Db, key: Key): Option<Lsa> {
    Lookup(ListOf(db, key.lsType), key.linkStateId, key.advertisingRouter)
  }

  function Add(db: Db, lsa: Lsa): Db {
    match lsa
    case RouterLsa(_, _, _, _) => db.(routers := AddTo(db.routers, lsa))
    case NetworkLsa(_, _, _) => db.(networks := AddTo(db.networks, lsa))
    case SummaryLsa(_, _, _, _) => db.(summaries := AddTo(db.summaries, lsa))
  }

  predicate HasKey(db: Db, key: Key) {
    Get(db, key).Some?
  }

  lemma HasKeyIsHas(db: Db, key: Key)
    ensures HasKey(db, key) <==> Has(ListOf(db, key.lsType), key.linkStateId, key.advertisingRouter)
  {
  }

  /** The database gains exactly the new key and loses none, whether or not the instance is newer. */
  lemma AddKeys(db: Db, lsa: Lsa, key: Key)
    requires Typed(lsa)
    ensures HasKey(Add(db, lsa), key) <==> HasKey(db, key) || KeyOf(lsa.header) == key
  {
    HasKeyIsHas(db, key);
    HasKeyIsHas(Add(db, lsa), key);
    AddToKeepsId(ListOf(db, lsa.header.lsType), lsa, key.linkStateId, key.advertisingRouter);
  }

  /** The only instance of its advertisement in the database. */
  predicate Sole(db: Db, lsa: Lsa) {
    Only(ListOf(db, lsa.header.lsType), lsa.header.linkStateId, lsa.header.advertisingRouter) == [lsa]
  }

  lemma SoleIsFound(db: Db, lsa: Lsa)
    requires Sole(db, lsa)
    ensures Get(db, KeyOf(lsa.header)) == Some(lsa)
  {
    LookupIsFirst(ListOf(db, lsa.header.lsType), lsa.header.linkStateId, lsa.header.advertisingRouter);
  }

  /** The first origination of an advertisement is its only instance. */
  lemma FirstOriginationStored(db: Db, made: Lsa)
    requires Typed(made) && !HasKey(db, KeyOf(made.header))
    ensures Sole(Add(db, made), made)
  {
    var list := ListOf(db, made.header.lsType);
    var h := made.header;
    LookupIsFirst(list, h.linkStateId, h.advertisingRouter);
    OnlyAfterAdd(list, made, h.linkStateId, h.advertisingRouter);
    AddToNothing(made);
    hide Only, AddTo;
  }

  /**
   Before the sequence number wraps, every further origination replaces the one before: it is the only instance, a lookup
   finds it, and the list does not grow.
   */
  lemma OriginationReplaces(db: Db, before: Lsa, made: Lsa, i: nat, j: nat)
    requires Sole(db, before) && Typed(made) && KeyOf(made.header) == KeyOf(before.header)
    requires before.header.sequenceNumber == LocalSequenceNumber(i) && made.header.sequenceNumber == LocalSequenceNumber(j)
    requires i < j < FIRST_WRAPPED
    ensures Sole(Add(db, made), made) && Get(Add(db, made), KeyOf(made.header)) == Some(made)
    ensures |ListOf(Add(db, made), made.header.lsType)| == |ListOf(db, made.header.lsType)|
  {
    var list := ListOf(db, made.header.lsType);
    LocalOrder(i, j);
    assert Newer(made.header, before.header);
    hide Only, LocalSequenceNumber, Sole, Newer;
    SoleIsFound(db, before);
    NewerReplaces(db, before, made);
    SoleIsFound(Add(db, made), made);
  }

  lemma NewerReplaces(db: Db, before: Lsa, made: Lsa)
    requires Sole(db, before) && Typed(made) && KeyOf(made.header) == KeyOf(before.header)
    requires Newer(made.header, before.header)
    ensures Sole(Add(db, made), made)
    ensures |ListOf(Add(db, made), made.header.lsType)| == |ListOf(db, made.header.lsType)|
  {
    hide Newer, Only, AddTo, Lookup;
    var list := ListOf(db, made.header.lsType);
    var h := made.header;
    OnlyAfterAdd(list, made, h.linkStateId, h.advertisingRouter);
    AddBehind([before], made);
    LookupIsFirst(list, h.linkStateId, h.advertisingRouter);
    NewerKeepsLength(list, before, made);
    assert ListOf(Add(db, made), h.lsType) == AddTo(list, made);
  }

  lemma NewerKeepsLength(list: seq<Lsa>, before: Lsa, made: Lsa)
    requires Lookup(list, made.header.linkStateId, made.header.advertisingRouter) == Some(before)
    requires Newer(made.header, before.header)
    ensures |AddTo(list, made)| == |list|
  {
  }

  /** The headers of a list, and of the whole database in the order `event_negotiation_done` copies them. */
  function HeadersOf(list: seq<Lsa>): (r: seq<Header>)
    ensures |r| == |list|
  {
    seq(|list|, i requires 0 <= i < |list| => list[i].header)
  }

  function Headers(db: Db): seq<Header> {
    HeadersOf(db.routers) + HeadersOf(db.networks) + HeadersOf(db.summaries)
  }

  /** The LSA with the 64-bit counter's value cut to 32 bits, and its size. */
  function Numbered(content: Lsa, counter: nat): (r: Lsa)
    requires Size(content) < TWO_16
    ensures KeyOf(r.header) == KeyOf(content.header) && r.header.length == Size(r) == Size(content)
    ensures r.header.sequenceNumber == counter % 0x1_0000_0000
  {
    WithHeader(content, content.header.(sequenceNumber := U32(counter), length := Size(content)))
  }

  lemma NumberIsLocal(counter: nat)
    ensures forall i: nat :: counter == (FIRST_SEQUENCE_NUMBER + i) % TWO_64 ==>
              LocalSequenceNumber(i) == counter % 0x1_0000_0000
  {
  }

  /** Stamping the checksum leaves everything else of the LSA alone. */
  lemma MadeIs(content: Lsa, counter: nat)
    requires Size(content) < TWO_16
    ensures var made, numbered := PacketBuffers.Checksummed(Numbered(content, counter)), Numbered(content, counter);
            && made.header == numbered.header.(checksum := made.header.checksum)
            && WithHeader(made, numbered.header) == numbered
            && (Typed(made) <==> Typed(content)) && made.RouterLsa? == content.RouterLsa?
            && made.NetworkLsa? == content.NetworkLsa?
  {
  }

  lemma NewIsAppended(db: Db, made: Lsa)
    requires Typed(made) && !made.SummaryLsa?
    ensures !HasKey(db, KeyOf(made.header)) ==>
              Add(db, made) == if made.RouterLsa? then db.(routers := db.routers + [made])
                               else db.(networks := db.networks + [made])
  {
  }

  class Lsdb {
    var routerLsas: seq<Lsa>
    var networkLsas: seq<Lsa>
    var summaryLsas: seq<Lsa>
    var lsaSeqNum: nat

    constructor ()
      ensures View() == EMPTY && lsaSeqNum == FIRST_SEQUENCE_NUMBER
    {
      routerLsas, networkLsas, summaryLsas := [], [], [];
      lsaSeqNum := FIRST_SEQUENCE_NUMBER;
    }

    ghost function View(): Db
      reads this
    {
      Db(routerLsas, networkLsas, summaryLsas)
    }

    /** `std::find_if` on one list. */
    static method FindIf(list: seq<Lsa>, lsId: uint32, advRtr: uint32) returns (i: nat)
      ensures i == Find(list, lsId, advRtr)
    {
      i := 0;
      while i < |list| && !Matches(list[i], lsId, advRtr)
        invariant i <= |list|
        invariant forall j | 0 <= j < i :: !Matches(list[j], lsId, advRtr)
      {
        i := i + 1;
      }
    }

    method GetLsa(key: Key) returns (r: Option<Lsa>)
      ensures r == Get(View(), key)
    {
      var list := if key.lsType == ROUTER then routerLsas
                  else if key.lsType == NETWORK then networkLsas
                  else if key.lsType == SUMMARY then summaryLsas
                  else [];
      var i := FindIf(list, key.linkStateId, key.advertisingRouter);
      r := if i < |list| then Some(list[i]) else None;
    }

    method Del(key: Key)
      requires key.lsType == ROUTER || key.lsType == NETWORK || key.lsType == SUMMARY
      modifies `routerLsas, `networkLsas, `summaryLsas
      ensures forall t: uint8 | t != key.lsType :: ListOf(View(), t) == ListOf(old(View()), t)
      ensures var list := ListOf(old(View()), key.lsType);
              ListOf(View(), key.lsType) == Without(list, Find(list, key.linkStateId, key.advertisingRouter))
    {
      if key.lsType == ROUTER {
        var i := FindIf(routerLsas, key.linkStateId, key.advertisingRouter);
        routerLsas := Without(routerLsas, i);
      } else if key.lsType == NETWORK {
        var i := FindIf(networkLsas, key.linkStateId, key.advertisingRouter);
        networkLsas := Without(networkLsas, i);
      } else {
        var i := FindIf(summaryLsas, key.linkStateId, key.advertisingRouter);
        summaryLsas := Without(summaryLsas, i);
      }
    }

    method AddLsa(lsa: Lsa)
      requires Typed(lsa)
      modifies `routerLsas, `networkLsas, `summaryLsas
      ensures View() == Add(old(View()), lsa)
    {
      var key := KeyOf(lsa.header);
      var stored := GetLsa(key);
      if stored.Some? && Newer(lsa.header, stored.value.header) {
        Del(key);
        assert routerLsas == ListOf(View(), ROUTER) && networkLsas == ListOf(View(), NETWORK)
               && summaryLsas == ListOf(View(), SUMMARY);
      }
      match lsa {
        case RouterLsa(_, _, _, _) => routerLsas := routerLsas + [lsa];
        case NetworkLsa(_, _, _) => networkLsas := networkLsas + [lsa];
        case SummaryLsa(_, _, _, _) => summaryLsas := summaryLsas + [lsa];
      }
    }

    /**
     `make_lsa`, given what `make_router_lsa` or `make_network_lsa` reads from the interfaces. The length field holds the
     size, and the checksum is that of the finished LSA.
     */
    method MakeLsa(content: Lsa) returns (made: Lsa, flooded: bool)
      requires Typed(content) && !content.SummaryLsa? && Size(content) < TWO_16
      modifies this
      ensures lsaSeqNum == (old(lsaSeqNum) + 1) % TWO_64
      ensures KeyOf(made.header) == KeyOf(content.header) && Typed(made)
      ensures forall i: nat :: old(lsaSeqNum) == (FIRST_SEQUENCE_NUMBER + i) % TWO_64 ==>
                made.header.sequenceNumber == LocalSequenceNumber(i)
      ensures made == PacketBuffers.Checksummed(Numbered(content, old(lsaSeqNum)))
      ensures View() == Add(old(View()), made)
      ensures flooded <==> HasKey(old(View()), KeyOf(content.header))
    {
      hide LocalSequenceNumber, PacketBuffers.Checksummed, AddTo, Lookup;
      NumberIsLocal(lsaSeqNum);
      made := PacketBuffers.MakeChecksum(Numbered(content, lsaSeqNum));
      MadeIs(content, lsaSeqNum);
      lsaSeqNum := (lsaSeqNum + 1) % TWO_64;
      var stored := GetLsa(KeyOf(content.header));
      flooded := stored.Some?;
      NewIsAppended(View(), made);
      if flooded {
        AddLsa(made);
      } else if made.RouterLsa? {
        routerLsas := routerLsas + [made];
      } else {
        networkLsas := networkLsas + [made];
      }
    }
  }
}
