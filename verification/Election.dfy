/**
 The election of the designated router and its backup (`elect_designated_router` in src/interface.cpp; RFC 2328,
 section 9.4), and what happens when it is repeated: its result is what the router itself claims in the next round.

 `std::max_element` is given a descending comparator, so that the code picks the least priority and then the least id. The
 priority of the router's own candidate is never assigned in the C++ code; here it is a field like any other.
 */
module Election {
  import opened Wrappers
  import opened Words
  import opened Neighbors

  datatype Candidate = Candidate(
    ipAddr: uint32, id: uint32, priority: uint32, designatedRouter: uint32, backupDesignatedRouter: uint32)
  {
    predicate ClaimsDr() {
      designatedRouter == ipAddr
    }

    predicate ClaimsBdr() {
      backupDesignatedRouter == ipAddr
    }
  }

  /** What the election reads of a neighbor. */
  datatype Rival = Rival(state: State, candidate: Candidate)

  predicate Eligible(r: Rival) {
    r.state.Rank() >= TwoWay.Rank() && r.candidate.priority != 0
  }

  /** `neighbor_cmp(b, a)`: `a` is preferred to `b`. */
  predicate Preferred(a: Candidate, b: Candidate) {
    if a.priority != b.priority then a.priority < b.priority else a.id < b.id
  }

  // ----- The election as a function

  function Select(list: seq<Candidate>, which: Candidate -> bool): (r: seq<Candidate>)
    ensures forall c :: c in r <==> c in list && which(c)
  {
    if list == [] then []
    else
      var last := list[|list| - 1];
      assert list == list[..|list| - 1] + [last];
      Select(list[..|list| - 1], which) + (if which(last) then [last] else [])
  }

  lemma SelectNext(list: seq<Candidate>, i: nat, which: Candidate -> bool)
    requires i < |list|
    ensures Select(list[..i + 1], which) == Select(list[..i], which) + (if which(list[i]) then [list[i]] else [])
  {
    assert list[..i + 1][..i] == list[..i];
  }

  /** `std::max_element`: the first of the most preferred, if any. */
  function Best(list: seq<Candidate>): (r: Option<Candidate>)
    ensures r == None <==> list == []
    ensures r.Some? ==> r.value in list && forall c | c in list :: !Preferred(c, r.value)
  {
    if list == [] then None
    else
      var last := list[|list| - 1];
      assert list == list[..|list| - 1] + [last];
      match Best(list[..|list| - 1])
      case Some(best) => Some(if Preferred(last, best) then last else best)
      case None => Some(last)
  }

  function OrElse(first: Option<Candidate>, second: Option<Candidate>): Option<Candidate> {
    if first.Some? then first else second
  }

  lemma BestOfNone(first: seq<Candidate>, second: seq<Candidate>)
    ensures OrElse(Best(first), Best(second)) == Best(if first != [] then first else second)
    ensures second != [] ==> OrElse(Best(first), Best(second)).Some?
  {
  }

  const CLAIMING_DR := (c: Candidate) => c.ClaimsDr()
  const NOT_DR := (c: Candidate) => !c.ClaimsDr()
  const BDR_NOT_DR := (c: Candidate) => !c.ClaimsDr() && c.ClaimsBdr()

  function ElectedBdr(list: seq<Candidate>): Option<Candidate> {
    OrElse(Best(Select(list, BDR_NOT_DR)), Best(Select(list, NOT_DR)))
  }

  function ElectedDr(list: seq<Candidate>): Option<Candidate> {
    OrElse(Best(Select(list, CLAIMING_DR)), ElectedBdr(list))
  }

  /** There is nobody to be the backup exactly when all candidates claim to be the designated router. */
  lemma NobodyLeft(list: seq<Candidate>)
    ensures ElectedBdr(list) == None <==> forall c | c in list :: c.ClaimsDr()
    ensures Select(list, NOT_DR) == [] ==> Select(list, BDR_NOT_DR) == []
  {
    var all, bdrs := Select(list, NOT_DR), Select(list, BDR_NOT_DR);
    assert bdrs != [] ==> bdrs[0] in list && !bdrs[0].ClaimsDr();
    assert all != [] ==> all[0] in list && !all[0].ClaimsDr();
    if c :| c in list && !c.ClaimsDr() {
      assert c in all;
    }
  }

  function Rivals(neighbors: seq<Rival>): (r: seq<Candidate>)
    ensures forall c :: c in r <==> exists n :: n in neighbors && Eligible(n) && n.candidate == c
  {
    if neighbors == [] then []
    else
      var last := neighbors[|neighbors| - 1];
      assert neighbors == neighbors[..|neighbors| - 1] + [last];
      Rivals(neighbors[..|neighbors| - 1]) + (if Eligible(last) then [last.candidate] else [])
  }

  // ----- The interface

  class Interface {
    const ipAddr: uint32
    const ownId: uint32
    const ownPriority: uint32
    var neighbors: seq<Rival>
    var designatedRouter: uint32
    var backupDesignatedRouter: uint32

    constructor (ip: uint32, id: uint32, priority: uint32)
      ensures ipAddr == ip && ownId == id && ownPriority == priority
      ensures neighbors == [] && designatedRouter == 0 && backupDesignatedRouter == 0
    {
      ipAddr, ownId, ownPriority := ip, id, priority;
      neighbors, designatedRouter, backupDesignatedRouter := [], 0, 0;
    }

    function Self(): Candidate
      reads this
    {
      Candidate(ipAddr, ownId, ownPriority, designatedRouter, backupDesignatedRouter)
    }

    function Candidates(): seq<Candidate>
      reads this
    {
      [Self()] + Rivals(neighbors)
    }

    static method MaxElement(list: seq<Candidate>) returns (best: Option<Candidate>)
      ensures best == Best(list)
    {
      best := None;
      for i := 0 to |list|
        invariant best == Best(list[..i])
      {
        assert list[..i + 1][..i] == list[..i];
        if best == None || Preferred(list[i], best.value) {
          best := Some(list[i]);
        }
      }
      assert list[..|list|] == list;
    }

    /** The candidates of the election: the router itself and its eligible neighbors. */
    method TakeCandidates() returns (candidates: seq<Candidate>)
      ensures candidates == Candidates()
    {
      candidates := [Self()];
      for i := 0 to |neighbors|
        invariant candidates == [Self()] + Rivals(neighbors[..i])
      {
        assert neighbors[..i + 1][..i] == neighbors[..i];
        if Eligible(neighbors[i]) {
          candidates := candidates + [neighbors[i].candidate];
        }
      }
      assert neighbors[..|neighbors|] == neighbors;
    }

    /** The candidates in the three lists from which backup and designated router are taken. */
    static method Divide(candidates: seq<Candidate>)
      returns (lv1: seq<Candidate>, lv2: seq<Candidate>, drs: seq<Candidate>)
      ensures lv1 == Select(candidates, BDR_NOT_DR) && lv2 == Select(candidates, NOT_DR)
      ensures drs == Select(candidates, CLAIMING_DR)
    {
      lv1, lv2, drs := [], [], [];
      for i := 0 to |candidates|
        invariant lv1 == Select(candidates[..i], BDR_NOT_DR) && lv2 == Select(candidates[..i], NOT_DR)
        invariant drs == Select(candidates[..i], CLAIMING_DR)
      {
        var c := candidates[i];
        SelectNext(candidates, i, BDR_NOT_DR);
        SelectNext(candidates, i, NOT_DR);
        SelectNext(candidates, i, CLAIMING_DR);
        hide Select;
        if c.designatedRouter != c.ipAddr {
          lv2 := lv2 + [c];
          if c.backupDesignatedRouter == c.ipAddr {
            lv1 := lv1 + [c];
          }
        } else {
          drs := drs + [c];
        }
      }
      assert candidates[..|candidates|] == candidates;
    }

    /**
     `elect_designated_router` up to the adj_ok events. Without a candidate that does not claim to be the designated
     router the C++ code follows a null pointer; `crashed` tells that.
     */
    method ElectDesignatedRouter() returns (crashed: bool)
      modifies `designatedRouter, `backupDesignatedRouter
      ensures crashed <==> forall c :: c in old(Candidates()) ==> c.ClaimsDr()
      ensures Round(old(Self()), Rivals(neighbors)) == if crashed then Aborted else Ok(Self())
    {
      hide Best, Rivals, Preferred, Eligible;
      var candidates := TakeCandidates();
      var lv1, lv2, drs := Divide(candidates);
      NobodyLeft(candidates);
      hide Select;
      var bdr := MaxElement(if lv1 != [] then lv1 else lv2);
      BestOfNone(lv1, lv2);
      assert bdr == ElectedBdr(candidates);
      if bdr == None {
        return true;
      }
      var dr := MaxElement(drs);
      if dr == None {
        dr := bdr;
      }
      assert dr == ElectedDr(candidates) && dr.Some?;
      designatedRouter, backupDesignatedRouter := dr.value.ipAddr, bdr.value.ipAddr;
      crashed := false;
    }
  }

  // ----- The order of the neighbors does not matter

  predicate DistinctIds(list: seq<Candidate>) {
    forall a, b | a in list && b in list && a.id == b.id :: a == b
  }

  lemma BestOfSameSet(list: seq<Candidate>, other: seq<Candidate>)
    requires DistinctIds(list) && forall c :: c in list <==> c in other
    ensures Best(list) == Best(other)
  {
    assert list != [] ==> list[0] in other;
    assert other != [] ==> other[0] in list;
    if list != [] {
      var a, b := Best(list).value, Best(other).value;
      assert !Preferred(a, b) && !Preferred(b, a);
    }
  }

  lemma OrderIrrelevant(list: seq<Candidate>, other: seq<Candidate>)
    requires DistinctIds(list) && forall c :: c in list <==> c in other
    ensures ElectedDr(list) == ElectedDr(other) && ElectedBdr(list) == ElectedBdr(other)
  {
    BestOfSameSet(Select(list, CLAIMING_DR), Select(other, CLAIMING_DR));
    BestOfSameSet(Select(list, NOT_DR), Select(other, NOT_DR));
    BestOfSameSet(Select(list, BDR_NOT_DR), Select(other, BDR_NOT_DR));
  }

  // ----- Repeated rounds

  /** One round with fixed rivals, from what the router claims to what it claims next. */
  function Round(self: Candidate, rivals: seq<Candidate>): Result<Candidate> {
    var list := [self] + rivals;
    match (ElectedDr(list), ElectedBdr(list))
    case (Some(dr), Some(bdr)) => Ok(self.(designatedRouter := dr.ipAddr, backupDesignatedRouter := bdr.ipAddr))
    case _ => Aborted
  }

  function Rounds(self: Candidate, rivals: seq<Candidate>, n: nat): Result<Candidate> {
    if n == 0 then Ok(self)
    else
      var claims :- Rounds(self, rivals, n - 1);
      Round(claims, rivals)
  }

  /** The rivals have ids and addresses of their own. */
  predicate Separate(self: Candidate, rivals: seq<Candidate>) {
    && DistinctIds([self] + rivals)
    && forall c | c in rivals :: c.id != self.id && c.ipAddr != self.ipAddr
  }

  /** Somebody else is not the designated router, or somebody else is and the router itself is not. */
  predicate Viable(self: Candidate, rivals: seq<Candidate>) {
    || (exists c | c in rivals :: !c.ClaimsDr())
    || (rivals != [] && !self.ClaimsDr())
  }

  /** A round does not depend on the order in which the interface lists its neighbors. */
  lemma RoundIgnoresOrder(self: Candidate, neighbors: seq<Rival>, others: seq<Rival>)
    requires forall r :: r in neighbors <==> r in others
    requires DistinctIds([self] + Rivals(neighbors))
    ensures Round(self, Rivals(neighbors)) == Round(self, Rivals(others))
  {
    var list, other := [self] + Rivals(neighbors), [self] + Rivals(others);
    assert forall c :: c in list <==> c == self || c in Rivals(neighbors);
    assert forall c :: c in other <==> c == self || c in Rivals(others);
    OrderIrrelevant(list, other);
  }

  /** The best of a class of candidates, given the best of its rivals and whether the router itself is in it. */
  function Join(self: Candidate, member: bool, best: Option<Candidate>): Option<Candidate> {
    if !member then best
    else if best.Some? && Preferred(best.value, self) then best
    else Some(self)
  }

  lemma BestWithSelf(self: Candidate, rivals: seq<Candidate>, which: Candidate -> bool)
    requires DistinctIds([self] + rivals) && forall c | c in rivals :: c.id != self.id
    ensures Best(Select([self] + rivals, which)) == Join(self, which(self), Best(Select(rivals, which)))
  {
    var whole, part := Select([self] + rivals, which), Select(rivals, which);
    assert forall c :: c in [self] + rivals <==> c == self || c in rivals;
    if which(self) {
      assert self in whole;
      var best := Best(whole).value;
      if part != [] {
        var b := Best(part).value;
        assert b in whole && (best == self || best in part);
        assert best != self ==> !Preferred(b, best) && !Preferred(best, b);
      }
    } else {
      BestOfSameSet(part, whole);
    }
  }

  /** What the rivals contribute to a round: the best of each class. */
  datatype Field = Field(dr: Option<Candidate>, notDr: Option<Candidate>, bdr: Option<Candidate>)

  function FieldOf(rivals: seq<Candidate>): Field {
    Field(Best(Select(rivals, CLAIMING_DR)), Best(Select(rivals, NOT_DR)), Best(Select(rivals, BDR_NOT_DR)))
  }

  function RoundIn(self: Candidate, f: Field): Result<Candidate> {
    var bdr := OrElse(Join(self, !self.ClaimsDr() && self.ClaimsBdr(), f.bdr), Join(self, !self.ClaimsDr(), f.notDr));
    var dr := OrElse(Join(self, self.ClaimsDr(), f.dr), bdr);
    match (dr, bdr)
    case (Some(d), Some(b)) => Ok(self.(designatedRouter := d.ipAddr, backupDesignatedRouter := b.ipAddr))
    case _ => Aborted
  }

  /** A round depends on the rivals only through the best of each class. */
  lemma RoundByField(self: Candidate, rivals: seq<Candidate>)
    requires Separate(self, rivals)
    ensures Round(self, rivals) == RoundIn(self, FieldOf(rivals))
  {
    hide Best, Select, Join;
    BestWithSelf(self, rivals, CLAIMING_DR);
    BestWithSelf(self, rivals, NOT_DR);
    BestWithSelf(self, rivals, BDR_NOT_DR);
  }

  lemma RoundKeepsSeparate(self: Candidate, rivals: seq<Candidate>)
    requires Separate(self, rivals) && Round(self, rivals).Ok?
    ensures Separate(Round(self, rivals).value, rivals)
  {
    hide ElectedDr, ElectedBdr;
    var next := Round(self, rivals).value;
    assert next.id == self.id && next.ipAddr == self.ipAddr;
    assert forall c :: c in [self] + rivals <==> c == self || c in rivals;
    forall a, b | a in [next] + rivals && b in [next] + rivals && a.id == b.id
      ensures a == b
    {
      assert a == next || a in rivals;
      assert b == next || b in rivals;
      assert a in rivals ==> a in [self] + rivals;
      assert b in rivals ==> b in [self] + rivals;
    }
  }

  /** What is known of the rivals' field: addresses, and who is missing. */
  predicate FieldOk(self: Candidate, f: Field) {
    && (f.notDr.Some? ==> f.notDr.value.ipAddr != self.ipAddr)
    && (f.dr.Some? ==> f.dr.value.ipAddr != self.ipAddr)
    && (f.bdr.Some? ==> f.bdr.value.ipAddr != self.ipAddr && f.notDr.Some?)
  }

  predicate ViableIn(self: Candidate, f: Field) {
    f.notDr.Some? || (f.dr.Some? && !self.ClaimsDr())
  }

  lemma FieldFacts(self: Candidate, rivals: seq<Candidate>)
    requires Separate(self, rivals)
    ensures FieldOk(self, FieldOf(rivals))
    ensures ViableIn(self, FieldOf(rivals)) <==> Viable(self, rivals)
  {
    var all, drs := Select(rivals, NOT_DR), Select(rivals, CLAIMING_DR);
    NobodyLeft(rivals);
    hide Preferred;
    if c :| c in rivals && !c.ClaimsDr() {
      assert c in all;
    } else if rivals != [] {
      assert rivals[0] in drs;
    }
    assert all != [] ==> all[0] in rivals && !all[0].ClaimsDr();
    assert drs != [] ==> drs[0] in rivals;
  }

  // ----- The rounds in a field

  lemma RoundsIn(self: Candidate, f: Field)
    requires FieldOk(self, f) && ViableIn(self, f)
    ensures RoundIn(self, f).Ok?
    ensures var one := RoundIn(self, f).value;
            && FieldOk(one, f) && ViableIn(one, f) && RoundIn(one, f).Ok?
            && var two := RoundIn(one, f).value;
               FieldOk(two, f) && ViableIn(two, f) && RoundIn(two, f) == Ok(two) && !(two.ClaimsDr() && two.ClaimsBdr())
  {
  }

  /** Without that, the first round or the second follows the null pointer. */
  lemma DoomedIn(self: Candidate, f: Field)
    requires FieldOk(self, f) && !ViableIn(self, f)
    ensures RoundIn(self, f).Ok? ==> var one := RoundIn(self, f).value; FieldOk(one, f) && RoundIn(one, f) == Aborted
  {
  }

  // ----- Who is elected, in numbers

  /** The least priority wins, and among equals the least id. */
  predicate NoWorse(a: Candidate, b: Candidate) {
    a.priority < b.priority || (a.priority == b.priority && a.id <= b.id)
  }

  /** `bdr` does not claim to be designated router, and wins among those that claim to be backup, or failing these all. */
  predicate LeadsBackups(list: seq<Candidate>, bdr: Candidate) {
    && bdr in list && bdr.designatedRouter != bdr.ipAddr
    && forall c | c in list && c.designatedRouter != c.ipAddr ::
         if c.backupDesignatedRouter == c.ipAddr then bdr.backupDesignatedRouter == bdr.ipAddr && NoWorse(bdr, c)
         else bdr.backupDesignatedRouter == bdr.ipAddr || NoWorse(bdr, c)
  }

  /** `dr` wins among those that claim to be designated router; if there is none it is the backup. */
  predicate LeadsRouters(list: seq<Candidate>, dr: Candidate, bdr: Candidate) {
    if exists c | c in list :: c.designatedRouter == c.ipAddr then
      && dr in list && dr.designatedRouter == dr.ipAddr
      && forall c | c in list && c.designatedRouter == c.ipAddr :: NoWorse(dr, c)
    else dr == bdr
  }

  lemma BestIsNoWorse(list: seq<Candidate>)
    requires list != []
    ensures Best(list).Some? && Best(list).value in list && forall c | c in list :: NoWorse(Best(list).value, c)
  {
  }

  lemma BackupLeads(list: seq<Candidate>)
    requires ElectedBdr(list).Some?
    ensures LeadsBackups(list, ElectedBdr(list).value)
  {
    var bdrs, all := Select(list, BDR_NOT_DR), Select(list, NOT_DR);
    hide Best, Select, NoWorse;
    if bdrs != [] {
      BestIsNoWorse(bdrs);
    } else {
      BestIsNoWorse(all);
    }
    assert forall c | c in list && c.designatedRouter != c.ipAddr && c.backupDesignatedRouter == c.ipAddr :: c in bdrs;
    assert forall c | c in list && c.designatedRouter != c.ipAddr :: c in all;
  }

  /**
   A round that runs to its end: the router's next claims are the addresses of a backup and a designated router that win
   among the candidates, and nothing else about it changes.
   */
  lemma WinnersLead(self: Candidate, rivals: seq<Candidate>) returns (dr: Candidate, bdr: Candidate)
    requires Round(self, rivals).Ok?
    ensures Round(self, rivals).value == self.(designatedRouter := dr.ipAddr, backupDesignatedRouter := bdr.ipAddr)
    ensures LeadsBackups([self] + rivals, bdr) && LeadsRouters([self] + rivals, dr, bdr)
  {
    var list := [self] + rivals;
    bdr, dr := ElectedBdr(list).value, ElectedDr(list).value;
    BackupLeads(list);
    var drs := Select(list, CLAIMING_DR);
    hide Best, Select, NoWorse, ElectedBdr;
    if drs != [] {
      BestIsNoWorse(drs);
    }
    assert forall c | c in list && c.designatedRouter == c.ipAddr :: c in drs;
  }

  /** Neighbors that are at least two-way and have a priority are candidates, and no others. */
  lemma RivalsExactly(neighbors: seq<Rival>, c: Candidate)
    ensures c in Rivals(neighbors) <==>
              exists n | n in neighbors :: n.candidate == c && c.priority > 0
                && n.state in {TwoWay, ExStart, Exchange, Loading, Full}
  {
    forall n: Rival
      ensures Eligible(n) <==> n.candidate.priority > 0 && n.state in {TwoWay, ExStart, Exchange, Loading, Full}
    {
    }
    hide Rivals;
  }

  // ----- When the election can be repeated, and where it ends

  lemma SecondRound(self: Candidate, rivals: seq<Candidate>)
    requires Separate(self, rivals)
    ensures Rounds(self, rivals, 1) == RoundIn(self, FieldOf(rivals))
    ensures Rounds(self, rivals, 1).Ok? ==>
              var one := Rounds(self, rivals, 1).value;
              Separate(one, rivals) && Rounds(self, rivals, 2) == Round(one, rivals) == RoundIn(one, FieldOf(rivals))
  {
    hide FieldOf, RoundIn, Round, Separate;
    RoundByField(self, rivals);
    assert Rounds(self, rivals, 0) == Ok(self);
    assert Rounds(self, rivals, 1) == Round(self, rivals);
    if Round(self, rivals).Ok? {
      var one := Round(self, rivals).value;
      RoundKeepsSeparate(self, rivals);
      RoundByField(one, rivals);
    }
  }

  /**
   Whatever the router claims at first: if the election is viable, two rounds reach claims that a third does not change,
   and there it is not both designated router and backup.
   */
  lemma TwoRoundsSettle(self: Candidate, rivals: seq<Candidate>)
    requires Separate(self, rivals) && Viable(self, rivals)
    ensures Rounds(self, rivals, 2).Ok?
    ensures var fixed := Rounds(self, rivals, 2).value;
            Round(fixed, rivals) == Ok(fixed) && !(fixed.ClaimsDr() && fixed.ClaimsBdr())
  {
    hide FieldOf, RoundIn, Round, Separate, Viable, Rounds;
    FieldFacts(self, rivals);
    RoundsIn(self, FieldOf(rivals));
    SecondRound(self, rivals);
    var one := Rounds(self, rivals, 1).value;
    RoundKeepsSeparate(one, rivals);
    RoundByField(Round(one, rivals).value, rivals);
  }

  lemma {:induction false} SettledStays(self: Candidate, rivals: seq<Candidate>, n: nat)
    requires Separate(self, rivals) && Viable(self, rivals) && n >= 2
    ensures Rounds(self, rivals, n) == Rounds(self, rivals, 2) && Rounds(self, rivals, 2).Ok?
  {
    TwoRoundsSettle(self, rivals);
    hide Round, Separate, Viable;
    if n > 2 {
      SettledStays(self, rivals, n - 1);
    }
  }

  lemma ViableRepeats(self: Candidate, rivals: seq<Candidate>, n: nat)
    requires Separate(self, rivals) && Viable(self, rivals)
    ensures Rounds(self, rivals, n).Ok?
  {
    hide Round, Separate, Viable;
    TwoRoundsSettle(self, rivals);
    if n >= 2 {
      SettledStays(self, rivals, n);
    } else {
      EarlierRounds(self, rivals, n);
    }
  }

  lemma EarlierRounds(self: Candidate, rivals: seq<Candidate>, n: nat)
    requires n < 2 && Rounds(self, rivals, 2).Ok?
    ensures Rounds(self, rivals, n).Ok?
  {
    hide Round;
    assert Rounds(self, rivals, 1).Ok?;
    assert Rounds(self, rivals, 0).Ok?;
  }

  lemma UnviableAborts(self: Candidate, rivals: seq<Candidate>)
    requires Separate(self, rivals) && !Viable(self, rivals)
    ensures !(Rounds(self, rivals, 1).Ok? && Rounds(self, rivals, 2).Ok?)
  {
    hide FieldOf, Separate, Viable, RoundIn, Round, Rounds, FieldOk, ViableIn;
    FieldFacts(self, rivals);
    SecondRound(self, rivals);
    DoomedIn(self, FieldOf(rivals));
  }

  /** The election can be repeated for ever without following the null pointer if and only if it is viable. */
  lemma RepeatsExactly(self: Candidate, rivals: seq<Candidate>)
    requires Separate(self, rivals)
    ensures (forall n: nat :: Rounds(self, rivals, n).Ok?) <==> Viable(self, rivals)
  {
    hide Round, Separate, Viable, Rounds;
    if Viable(self, rivals) {
      forall n: nat
        ensures Rounds(self, rivals, n).Ok?
      {
        ViableRepeats(self, rivals, n);
      }
    } else {
      UnviableAborts(self, rivals);
    }
  }

  /** A router alone on its network that claims nothing becomes both in the first round; the second aborts. */
  lemma LoneRouterAborts(self: Candidate)
    requires !self.ClaimsDr()
    ensures Rounds(self, [], 1).Ok? && Rounds(self, [], 2) == Aborted
    ensures var one := Rounds(self, [], 1).value; one.ClaimsDr() && one.ClaimsBdr()
  {
    SecondRound(self, []);
    assert FieldOf([]) == Field(None, None, None);
    hide FieldOf, Round, Separate, Rounds;
  }

  lemma FieldOfOne(c: Candidate)
    requires !c.ClaimsDr() && !c.ClaimsBdr()
    ensures FieldOf([c]) == Field(None, Some(c), None)
  {
    assert [c][..0] == [];
    assert Best([c]) == Some(c);
  }

  /** Two rounds can be needed: alone against one router that claims nothing, the first round makes it both. */
  lemma OneRoundMayNotSettle(self: Candidate, rival: Candidate)
    requires !self.ClaimsDr() && !self.ClaimsBdr() && !rival.ClaimsDr() && !rival.ClaimsBdr()
    requires self.id != rival.id && self.ipAddr != rival.ipAddr && Preferred(self, rival)
    ensures Rounds(self, [rival], 1).Ok?
    ensures var one := Rounds(self, [rival], 1).value;
            one.ClaimsDr() && one.ClaimsBdr() && Round(one, [rival]) != Ok(one)
  {
    assert Separate(self, [rival]);
    hide FieldOf, Separate, Round, Rounds, RoundIn, Preferred;
    SecondRound(self, [rival]);
    FieldOfOne(rival);
    SilentRival(self, rival);
  }

  lemma SilentRival(self: Candidate, rival: Candidate)
    requires !self.ClaimsDr() && !self.ClaimsBdr() && self.ipAddr != rival.ipAddr && Preferred(self, rival)
    ensures var f := Field(None, Some(rival), None);
            && RoundIn(self, f).Ok?
            && var one := RoundIn(self, f).value;
               one.ClaimsDr() && one.ClaimsBdr() && RoundIn(one, f).Ok? && RoundIn(one, f) != Ok(one)
  {
  }

  /** The adj_ok events after an election leave the set of candidates as it is. */
  lemma AdjOkKeepsEligible(n: Nbr, adjacent: bool)
    requires n.state.Rank() >= TwoWay.Rank()
    ensures EventAdjOk(n, adjacent).Ok? && EventAdjOk(n, adjacent).value.state.Rank() >= TwoWay.Rank()
  {
  }
}
