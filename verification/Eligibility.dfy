/** Who may serve and who is drawn, told from the records alone (node/src/jury.js, node/src/reviewer-selection.js). */
module Eligibility {
  import opened Common
  import opened Score
  import opened Texts
  import opened Panel
  import opened Shuffle
  import opened PickOrder
  import opened Reviews
  import opened Selection
  import Reviewer

  /** A person, by type or for want of one; organizations have another type. */
  predicate IsPerson(id: Identity) {
    id.tipIdType == "" || id.tipIdType == "personal"
  }

  /** Consent to one role says nothing about another. */
  predicate Consents(id: Identity, role: Role) {
    (role.Juror? && id.jurorConsent) || (role.Expert? && id.expertConsent)
  }

  /** The tip ids that a panel can be drawn from. */
  ghost function Eligible(net: Network, role: Role, barred: set<Text>): set<Text> {
    set id | id in net.identities && IsPerson(id) && Consents(id, role) && id.tipId !in net.revoked && id.tipId !in barred :: id.tipId
  }

  ghost function Reaching(net: Network, ids: set<Text>, floor: int): set<Text> {
    set t | t in ids && net.score(t) >= floor
  }

  // ---------------------------------------------------------------- candidates

  /** The candidates are the eligible, each once with the score and region on record, in the order of their
      ids' code units. */
  lemma CandidatesSpelled(net: Network, role: Role, barred: set<Text>)
    requires Registry(net)
    ensures var cands := Candidates(net, role, barred);
      && (forall i, j | 0 <= i < j < |cands| :: Precedes(cands[i].tipId, cands[j].tipId))
      && (forall t :: t in Eligible(net, role, barred) <==> exists c :: c in cands && c.tipId == t)
      && (forall c | c in cands :: c.score == Some(net.score(c.tipId))
                                   && exists id :: id in net.identities && id.tipId == c.tipId && id.region == c.region)
  {
    CandidatesAre(net, role, barred);
    var cands := Candidates(net, role, barred);
    hide Candidates;
    forall i, j | 0 <= i < j < |cands| ensures Precedes(cands[i].tipId, cands[j].tipId) {
      assert Less(IdOf()(cands[i]), IdOf()(cands[j]));
      LessIsPrecedes(cands[i].tipId, cands[j].tipId);
    }
    hide Less, Precedes;
    forall t ensures t in Eligible(net, role, barred) <==> exists c :: c in cands && c.tipId == t {
      if t in Eligible(net, role, barred) {
        var id :| id in net.identities && IsPerson(id) && Consents(id, role) && id.tipId !in net.revoked && id.tipId !in barred && id.tipId == t;
        assert MaySit(net, id, role, barred);
        assert CandOf(net, id) in cands;
      }
      if c :| c in cands && c.tipId == t {
        var id :| id in net.identities && MaySit(net, id, role, barred) && c == CandOf(net, id);
      }
    }
  }

  lemma {:induction false} ImageSize(cands: set<Cand>)
    requires forall c, d | c in cands && d in cands && c.tipId == d.tipId :: c == d
    ensures |set c | c in cands :: c.tipId| == |cands|
  {
    if cands != {} {
      var c :| c in cands;
      ImageSize(cands - {c});
      assert (set d | d in cands :: d.tipId) == (set d | d in cands - {c} :: d.tipId) + {c.tipId};
    }
  }

  /** As many candidates reach a floor as eligible people do. */
  lemma ReachingSize(net: Network, role: Role, barred: set<Text>, floor: int)
    requires Registry(net)
    ensures var cands := Elements(Candidates(net, role, barred));
      && |cands| == |Eligible(net, role, barred)|
      && |set c | c in cands && Reaches(c, floor)| == |Reaching(net, Eligible(net, role, barred), floor)|
  {
    CandidatesSpelled(net, role, barred);
    CandidatesAre(net, role, barred);
    hide Candidates, Precedes, Eligible, Reaching, MaySit, StrictlySorted, Distinct, Reaches;
    SizesOf(net, role, barred, Candidates(net, role, barred), floor);
  }

  lemma SizesOf(net: Network, role: Role, barred: set<Text>, list: seq<Cand>, floor: int)
    requires Distinct(list) && forall t :: t in Eligible(net, role, barred) <==> exists c :: c in list && c.tipId == t
    requires forall c | c in list :: c.score == Some(net.score(c.tipId))
    ensures |Elements(list)| == |Eligible(net, role, barred)|
    ensures |set c | c in Elements(list) && Reaches(c, floor)| == |Reaching(net, Eligible(net, role, barred), floor)|
  {
    hide Eligible, Reaches;
    var cands := Elements(list);
    var some := set c | c in cands && Reaches(c, floor);
    forall c, d | c in cands && d in cands && c.tipId == d.tipId ensures c == d {
      SameIdSameCand(list, c, d);
    }
    ImageSize(cands);
    ImageSize(some);
    hide Distinct;
    SameIds(net, role, barred, cands, some, floor);
  }

  lemma SameIds(net: Network, role: Role, barred: set<Text>, cands: set<Cand>, some: set<Cand>, floor: int)
    requires some == set c | c in cands && Reaches(c, floor)
    requires forall t :: t in Eligible(net, role, barred) <==> exists c :: c in cands && c.tipId == t
    requires forall c | c in cands :: c.score == Some(net.score(c.tipId))
    ensures (set c | c in cands :: c.tipId) == Eligible(net, role, barred)
    ensures (set c | c in some :: c.tipId) == Reaching(net, Eligible(net, role, barred), floor)
  {
    hide Eligible;
    assert (set c | c in cands :: c.tipId) == Eligible(net, role, barred);
    assert (set c | c in some :: c.tipId) == Reaching(net, Eligible(net, role, barred), floor);
  }

  // ---------------------------------------------------------------- panels

  /** The seats that get filled: all the eligible if they are too few, and otherwise as many of those who
      reach the lowest floor as there are seats. */
  ghost function Filled(net: Network, eligible: set<Text>, seats: nat, lowest: int): nat {
    if |eligible| < seats then |eligible| else Min(|Reaching(net, eligible, lowest)|, seats)
  }

  lemma PanelSpelled(net: Network, shake: (Text, nat) -> Seed, k: Protocol, role: Role, txId: Text, barred: set<Text>)
    requires Registry(net)
    ensures var s, l := Select(net, shake, k, role, txId, barred), LimitsOf(k, role);
      var eligible := Eligible(net, role, barred);
      && |s.members| == Filled(net, eligible, l.seats, LowestFloor(l.floor, l.fallbacks))
      && (s.insufficient <==> |s.members| < l.seats) && s.identityCount == |net.identities| && s.seed == shake(txId, |net.identities|)
      && (forall t | t in s.members :: t in eligible)
  {
    var l := LimitsOf(k, role);
    PanelSizeIgnoresSeed(net, shake, k, role, txId, txId, barred);
    ReachingSize(net, role, barred, LowestFloor(l.floor, l.fallbacks));
    OnlyEligibleSit(net, shake, k, role, txId, barred);
    var s := Select(net, shake, k, role, txId, barred);
    forall t | t in s.members ensures t in Eligible(net, role, barred) {
      var id :| id in net.identities && id.tipId == t && MaySit(net, id, role, barred);
    }
  }

  /** A jury: people who consented to it, neither party among them. */
  lemma JurySpelled(net: Network, shake: (Text, nat) -> Seed, k: Protocol, txId: Text, author: Text, disputer: Text)
    requires Registry(net)
    ensures var s, eligible := SelectJury(net, shake, k, txId, author, disputer), Eligible(net, Juror, {author, disputer});
      && |s.members| == Filled(net, eligible, k.jurySize, Min(k.juryMin, k.juryFallback))
      && (s.insufficient <==> |s.members| < k.jurySize)
      && (forall t | t in s.members :: t in eligible)
  {
    PanelSpelled(net, shake, k, Juror, txId, {author, disputer});
    LowestIsLeast(k.juryMin, [k.juryFallback]);
  }

  /** Experts: people who consented to that, no party and nobody the jury had summoned. */
  lemma ExpertsSpelled(net: Network, shake: (Text, nat) -> Seed, k: Protocol, txId: Text, author: Text, disputer: Text, summoned: set<Text>)
    requires Registry(net)
    ensures var s := SelectExperts(net, shake, k, txId, author, disputer, summoned);
      var eligible := Eligible(net, Expert, {author, disputer} + summoned);
      && |s.members| == Filled(net, eligible, k.expertCount, Min(k.expertMin, Min(k.expertFallback, k.juryFallback)))
      && (s.insufficient <==> |s.members| < k.expertCount)
      && (forall t | t in s.members :: t in eligible)
  {
    PanelSpelled(net, shake, k, Expert, txId, {author, disputer} + summoned);
    TwoFloors(k.expertMin, k.expertFallback, k.juryFallback);
  }

  lemma TwoFloors(current: int, a: int, b: int)
    ensures LowestFloor(current, [a, b]) == Min(current, Min(a, b))
  {
    LowestIsLeast(current, [a, b]);
    assert a in [a, b] && b in [a, b];
  }

  /** Where there are enough candidates, all of them reach the main floor and no region can reach the cap, the
      panel is the first of the draw. */
  lemma PanelIsDrawn(net: Network, shake: (Text, nat) -> Seed, k: Protocol, role: Role, txId: Text, barred: set<Text>)
    requires Registry(net) && LimitsOf(k, role).seats <= |Candidates(net, role, barred)| && LimitsOf(k, role).cap >= LimitsOf(k, role).seats
    requires forall c | c in Candidates(net, role, barred) :: Reaches(c, LimitsOf(k, role).floor)
    ensures Select(net, shake, k, role, txId, barred).members ==
      Ids(Drawn(Candidates(net, role, barred), shake(txId, |net.identities|))[..LimitsOf(k, role).seats])
  {
    var cands, seed, l := Candidates(net, role, barred), shake(txId, |net.identities|), LimitsOf(k, role);
    ShuffleDraws(cands, seed);
    ShufflePermutes(cands, seed);
    hide Pick, Shuffled, Candidates, Drawn, Ids;
    PickTakesFirst(Shuffled(cands, seed), l.seats, l.cap, l.floor, l.fallbacks);
  }

  // ---------------------------------------------------------------- regions and higher floors

  ghost predicate LivesIn(net: Network, t: Text, region: string) {
    exists id :: id in net.identities && id.tipId == t && OnRecord(id.region) == region
  }

  /** Those of some people who are from where this one is. */
  ghost function Neighbours(net: Network, people: set<Text>, t: Text): set<Text> {
    set u | u in people && exists region :: LivesIn(net, t, region) && LivesIn(net, u, region)
  }

  /** Everybody reaches the floor, and no region has more than the cap. */
  ghost predicate Diverse(net: Network, people: set<Text>, cap: int, floor: int) {
    forall t | t in people :: net.score(t) >= floor && |Neighbours(net, people, t)| <= cap
  }

  ghost predicate Records(net: Network, cands: set<Cand>) {
    && (forall c, d | c in cands && d in cands && c.tipId == d.tipId :: c == d)
    && forall c | c in cands :: c.score == Some(net.score(c.tipId)) && forall r :: LivesIn(net, c.tipId, r) <==> r == RegionOf(c)
  }

  lemma CandidatesRecord(net: Network, role: Role, barred: set<Text>)
    requires Registry(net)
    ensures Records(net, Elements(Candidates(net, role, barred)))
  {
    CandidatesAre(net, role, barred);
    var list := Candidates(net, role, barred);
    hide Candidates, MaySit, StrictlySorted;
    forall c, d | c in Elements(list) && d in Elements(list) && c.tipId == d.tipId ensures c == d {
      SameIdSameCand(list, c, d);
    }
    forall c | c in Elements(list) ensures c.score == Some(net.score(c.tipId)) && forall r :: LivesIn(net, c.tipId, r) <==> r == RegionOf(c) {
      var id :| id in net.identities && c == CandOf(net, id);
      OnlyRecord(net, id);
    }
  }

  lemma OnlyRecord(net: Network, id: Identity)
    requires Registry(net) && id in net.identities
    ensures forall r :: LivesIn(net, id.tipId, r) <==> r == OnRecord(id.region)
  {
    forall other | other in net.identities && other.tipId == id.tipId ensures other == id {
      var i :| 0 <= i < |net.identities| && net.identities[i] == id;
      var j :| 0 <= j < |net.identities| && net.identities[j] == other;
      assert IdentityKey()(net.identities[i]) == IdentityKey()(net.identities[j]);
    }
  }

  ghost function IdsOfSet(panel: set<Cand>): set<Text> {
    set c | c in panel :: c.tipId
  }

  /** A panel of records is balanced exactly if its people are. */
  lemma BalancedIsDiverse(net: Network, panel: set<Cand>, cap: int, floor: int)
    requires Records(net, panel)
    ensures Balanced(panel, cap, floor) <==> Diverse(net, IdsOfSet(panel), cap, floor)
    ensures |IdsOfSet(panel)| == |panel|
  {
    ImageSize(panel);
    hide Records, InRegion, Neighbours, Reaches, RegionOf;
    forall c | c in panel
      ensures Reaches(c, floor) && |InRegion(panel, RegionOf(c))| <= cap
        <==> net.score(c.tipId) >= floor && |Neighbours(net, IdsOfSet(panel), c.tipId)| <= cap
    {
      OneAlike(net, panel, c, cap, floor);
    }
    if Balanced(panel, cap, floor) {
      forall t | t in IdsOfSet(panel) ensures net.score(t) >= floor && |Neighbours(net, IdsOfSet(panel), t)| <= cap {
        var c :| c in panel && c.tipId == t;
      }
    }
    if Diverse(net, IdsOfSet(panel), cap, floor) {
      forall c | c in panel ensures Reaches(c, floor) && |InRegion(panel, RegionOf(c))| <= cap {
        assert c.tipId in IdsOfSet(panel);
      }
    }
  }

  lemma OneAlike(net: Network, panel: set<Cand>, c: Cand, cap: int, floor: int)
    requires Records(net, panel) && c in panel
    ensures Reaches(c, floor) && |InRegion(panel, RegionOf(c))| <= cap
      <==> net.score(c.tipId) >= floor && |Neighbours(net, IdsOfSet(panel), c.tipId)| <= cap
  {
    RegionIsNeighbours(net, panel, c);
    hide InRegion, Neighbours, LivesIn, RegionOf;
  }

  lemma RegionIsNeighbours(net: Network, panel: set<Cand>, c: Cand)
    requires Records(net, panel) && c in panel
    ensures |InRegion(panel, RegionOf(c))| == |Neighbours(net, IdsOfSet(panel), c.tipId)|
  {
    hide LivesIn, RegionOf;
    ImageSize(InRegion(panel, RegionOf(c)));
    assert LivesIn(net, c.tipId, RegionOf(c));
    forall d | d in panel ensures d.tipId in Neighbours(net, IdsOfSet(panel), c.tipId) <==> RegionOf(d) == RegionOf(c) {
      assert LivesIn(net, d.tipId, RegionOf(d));
    }
    assert IdsOfSet(InRegion(panel, RegionOf(c))) == Neighbours(net, IdsOfSet(panel), c.tipId);
  }

  /** The people of some candidates and the candidates of some people. */
  lemma PeopleOf(net: Network, cands: set<Cand>, people: set<Text>)
    requires Records(net, cands) && people <= IdsOfSet(cands)
    ensures var panel := set c | c in cands && c.tipId in people;
      panel <= cands && IdsOfSet(panel) == people && Records(net, panel)
  {
    hide LivesIn, RegionOf;
    forall t | t in people ensures exists c :: c in cands && c.tipId == t {}
  }

  /** The panel is full, at the main floor and within the cap exactly if some such panel can be formed at all. */
  lemma PanelDiverseIff(net: Network, shake: (Text, nat) -> Seed, k: Protocol, role: Role, txId: Text, barred: set<Text>)
    requires Registry(net)
    ensures var m, l := Select(net, shake, k, role, txId, barred).members, LimitsOf(k, role);
      (|m| == l.seats && Diverse(net, (set t | t in m), l.cap, l.floor))
      <==> exists people: set<Text> :: people <= Eligible(net, role, barred) && |people| == l.seats && Diverse(net, people, l.cap, l.floor)
  {
    var list, seed, l := Candidates(net, role, barred), shake(txId, |net.identities|), LimitsOf(k, role);
    var cands := Elements(list);
    CandidatesSpelled(net, role, barred);
    CandidatesAre(net, role, barred);
    CandidatesRecord(net, role, barred);
    DistinctSize(list);
    ShuffledCandidates(list, seed);
    var shuffled := Shuffled(list, seed);
    hide Candidates, Shuffled, Eligible, Records, Precedes, StrictlySorted, MaySit, LivesIn, Diverse, Balanced, Pick, CandOf, Registry;
    assert IdsOfSet(cands) == Eligible(net, role, barred);
    if |list| < l.seats {
      TooFew(net, cands, l.seats);
      IdsAt(list);
    } else {
      CapRelaxedOnlyWhenInfeasible(shuffled, l.seats, l.cap, l.floor, l.fallbacks);
      PickHonoursFloors(shuffled, l.seats, l.cap, l.floor, l.fallbacks);
      var sel := Pick(shuffled, l.seats, l.cap, l.floor, l.fallbacks);
      assert forall c :: c in shuffled <==> c in Elements(shuffled);
      SeatedAre(net, cands, sel);
      BalancedIsDiverse(net, Elements(sel), l.cap, l.floor);
      PanelsAlike(net, cands, l.seats, l.cap, l.floor);
    }
  }

  lemma TooFew(net: Network, cands: set<Cand>, seats: nat)
    requires Records(net, cands) && |cands| < seats
    ensures forall people: set<Text> | people <= IdsOfSet(cands) :: |people| < seats
  {
    ImageSize(cands);
    forall people: set<Text> | people <= IdsOfSet(cands) ensures |people| < seats {
      SubsetSize(people, IdsOfSet(cands));
    }
  }

  lemma SeatedAre(net: Network, cands: set<Cand>, sel: seq<Cand>)
    requires Records(net, cands) && forall c | c in sel :: c in cands
    ensures |Ids(sel)| == |sel| && (set t | t in Ids(sel)) == IdsOfSet(Elements(sel)) && Records(net, Elements(sel))
  {
    IdsAt(sel);
    hide LivesIn, RegionOf;
    forall t ensures t in Ids(sel) <==> t in IdsOfSet(Elements(sel)) {
      if t in Ids(sel) {
        var i :| 0 <= i < |Ids(sel)| && Ids(sel)[i] == t;
        assert sel[i] in sel;
      }
      if t in IdsOfSet(Elements(sel)) {
        var c :| c in sel && c.tipId == t;
        var i :| 0 <= i < |sel| && sel[i] == c;
        assert Ids(sel)[i] == t;
      }
    }
  }

  lemma PanelsAlike(net: Network, cands: set<Cand>, seats: nat, cap: int, floor: int)
    requires Records(net, cands)
    ensures (exists panel: set<Cand> :: |panel| == seats && panel <= cands && Balanced(panel, cap, floor))
      <==> exists people: set<Text> :: people <= IdsOfSet(cands) && |people| == seats && Diverse(net, people, cap, floor)
  {
    hide Balanced, Diverse, LivesIn, RegionOf;
    if exists panel: set<Cand> :: |panel| == seats && panel <= cands && Balanced(panel, cap, floor) {
      var panel: set<Cand> :| |panel| == seats && panel <= cands && Balanced(panel, cap, floor);
      BalancedIsDiverse(net, panel, cap, floor);
      assert IdsOfSet(panel) <= IdsOfSet(cands);
    }
    if exists people: set<Text> :: people <= IdsOfSet(cands) && |people| == seats && Diverse(net, people, cap, floor) {
      var people: set<Text> :| people <= IdsOfSet(cands) && |people| == seats && Diverse(net, people, cap, floor);
      PeopleOf(net, cands, people);
      var panel := set c | c in cands && c.tipId in people;
      BalancedIsDiverse(net, panel, cap, floor);
      assert panel <= cands;
    }
  }

  /** A jury is full, at the jury's main score and within the jury's regional cap exactly if one can be. */
  lemma JuryDiverseIff(net: Network, shake: (Text, nat) -> Seed, k: Protocol, txId: Text, author: Text, disputer: Text)
    requires Registry(net)
    ensures var m := SelectJury(net, shake, k, txId, author, disputer).members;
      (|m| == k.jurySize && Diverse(net, (set t | t in m), k.juryCap, k.juryMin))
      <==> exists people: set<Text> ::
             people <= Eligible(net, Juror, {author, disputer}) && |people| == k.jurySize && Diverse(net, people, k.juryCap, k.juryMin)
  {
    PanelDiverseIff(net, shake, k, Juror, txId, {author, disputer});
    hide Select, Diverse, Eligible, Registry;
  }

  lemma ExpertsDiverseIff(net: Network, shake: (Text, nat) -> Seed, k: Protocol, txId: Text, author: Text, disputer: Text, summoned: set<Text>)
    requires Registry(net)
    ensures var m := SelectExperts(net, shake, k, txId, author, disputer, summoned).members;
      (|m| == k.expertCount && Diverse(net, (set t | t in m), k.expertCap, k.expertMin))
      <==> exists people: set<Text> ::
             people <= Eligible(net, Expert, {author, disputer} + summoned) && |people| == k.expertCount
             && Diverse(net, people, k.expertCap, k.expertMin)
  {
    PanelDiverseIff(net, shake, k, Expert, txId, {author, disputer} + summoned);
    hide Select, Diverse, Eligible, Registry;
  }

  /** Once somebody below a floor in use sits, everybody eligible who reaches it does. */
  lemma PanelSeniorsFirst(net: Network, shake: (Text, nat) -> Seed, k: Protocol, role: Role, txId: Text, barred: set<Text>, floor: int)
    requires Registry(net) && |Eligible(net, role, barred)| >= LimitsOf(k, role).seats
    requires floor == LimitsOf(k, role).floor || floor in ActiveFloors(LimitsOf(k, role).floor, LimitsOf(k, role).fallbacks)
    ensures var m := Select(net, shake, k, role, txId, barred).members;
      (exists t :: t in m && net.score(t) < floor) ==> forall t | t in Reaching(net, Eligible(net, role, barred), floor) :: t in m
  {
    var list, seed, l := Candidates(net, role, barred), shake(txId, |net.identities|), LimitsOf(k, role);
    CandidatesSpelled(net, role, barred);
    CandidatesAre(net, role, barred);
    ReachingSize(net, role, barred, floor);
    DistinctSize(list);
    ShuffledCandidates(list, seed);
    var shuffled := Shuffled(list, seed);
    PickHonoursFloors(shuffled, l.seats, l.cap, l.floor, l.fallbacks);
    var sel := Pick(shuffled, l.seats, l.cap, l.floor, l.fallbacks);
    IdsAt(sel);
    hide Candidates, Shuffled, Eligible, Precedes, StrictlySorted, MaySit, Pick, CandOf, Registry, ActiveFloors, Distinct;
    assert forall c :: c in shuffled <==> c in Elements(shuffled);
    SeniorsSit(net, list, shuffled, sel, floor);
  }

  lemma SeniorsSit(net: Network, list: seq<Cand>, shuffled: seq<Cand>, sel: seq<Cand>, floor: int)
    requires (forall c :: c in shuffled <==> c in list) && Precedence(sel, shuffled, floor)
    requires (forall c | c in list :: c.score == Some(net.score(c.tipId))) && forall c | c in sel :: c in shuffled
    ensures (exists t :: t in Ids(sel) && net.score(t) < floor) ==> forall c | c in list && net.score(c.tipId) >= floor :: c.tipId in Ids(sel)
  {
    IdsAt(sel);
    hide Ids;
    if exists t :: t in Ids(sel) && net.score(t) < floor {
      var t :| t in Ids(sel) && net.score(t) < floor;
      var i :| 0 <= i < |Ids(sel)| && Ids(sel)[i] == t;
      assert sel[i] in sel && !Reaches(sel[i], floor);
      forall c | c in list && net.score(c.tipId) >= floor ensures c.tipId in Ids(sel) {
        assert c in sel;
        var j :| 0 <= j < |sel| && sel[j] == c;
        assert Ids(sel)[j] == c.tipId;
      }
    }
  }

  /** Of enough candidates nobody below the jury's main score sits while somebody who has it is left out. */
  lemma JurySeniorsFirst(net: Network, shake: (Text, nat) -> Seed, k: Protocol, txId: Text, author: Text, disputer: Text)
    requires Registry(net) && |Eligible(net, Juror, {author, disputer})| >= k.jurySize
    ensures var m := SelectJury(net, shake, k, txId, author, disputer).members;
      (exists t :: t in m && net.score(t) < k.juryMin) ==>
        forall t | t in Reaching(net, Eligible(net, Juror, {author, disputer}), k.juryMin) :: t in m
  {
    PanelSeniorsFirst(net, shake, k, Juror, txId, {author, disputer}, k.juryMin);
    hide Select, Reaching, Eligible, Registry;
  }

  /** Nor of experts, at their main score and, if it is lower, at their second one. */
  lemma ExpertSeniorsFirst(net: Network, shake: (Text, nat) -> Seed, k: Protocol, txId: Text, author: Text, disputer: Text,
                           summoned: set<Text>, floor: int)
    requires Registry(net) && |Eligible(net, Expert, {author, disputer} + summoned)| >= k.expertCount
    requires floor == k.expertMin || (floor == k.expertFallback < k.expertMin)
    ensures var m := SelectExperts(net, shake, k, txId, author, disputer, summoned).members;
      (exists t :: t in m && net.score(t) < floor) ==>
        forall t | t in Reaching(net, Eligible(net, Expert, {author, disputer} + summoned), floor) :: t in m
  {
    assert ActiveFloors(k.expertMin, [k.expertFallback, k.juryFallback]) ==
      if k.expertFallback >= k.expertMin then ActiveFloors(k.expertMin, [k.expertFallback, k.juryFallback][1..])
      else [k.expertFallback] + ActiveFloors(k.expertFallback, [k.expertFallback, k.juryFallback][1..]);
    PanelSeniorsFirst(net, shake, k, Expert, txId, {author, disputer} + summoned, floor);
    hide Select, Reaching, Eligible, Registry;
  }

  // ---------------------------------------------------------------- a reviewer's record

  /** The places in a record, latest first, of the first n entries that count. */
  ghost function Sampled(rs: seq<Review>, counts: Review -> bool, n: nat): set<nat> {
    set i: nat | i < |rs| && counts(rs[i]) && |Counting(rs, counts, i)| < n
  }

  ghost function Counting(rs: seq<Review>, counts: Review -> bool, end: nat): set<nat>
    requires end <= |rs|
  {
    set i: nat | i < end && counts(rs[i])
  }

  lemma {:induction false} SampleSize(rs: seq<Review>, counts: Review -> bool, n: nat, which: Review -> bool)
    ensures |Reviewer.Filter(rs, counts)| == |Counting(rs, counts, |rs|)|
    ensures |Reviewer.Filter(Reviewer.First(Reviewer.Filter(rs, counts), n), which)| ==
      |set i | i in Sampled(rs, counts, n) && which(rs[i])|
  {
    if rs != [] {
      var before, last := rs[..|rs| - 1], rs[|rs| - 1];
      SampleSize(before, counts, n, which);
      SampledMore(rs, counts, n, which);
      FilteredMore(rs, counts, n, which);
      hide Sampled, Counting, Reviewer.Filter, Reviewer.First;
    }
  }

  lemma SampledMore(rs: seq<Review>, counts: Review -> bool, n: nat, which: Review -> bool)
    requires rs != []
    ensures var end := |rs| - 1;
      var before, last := rs[..end], rs[end];
      && |Counting(rs, counts, end + 1)| == |Counting(before, counts, end)| + (if counts(last) then 1 else 0)
      && |set i | i in Sampled(rs, counts, n) && which(rs[i])| == |set i | i in Sampled(before, counts, n) && which(before[i])|
           + if counts(last) && |Counting(before, counts, end)| < n && which(last) then 1 else 0
  {
    var end := |rs| - 1;
    CountingBefore(rs, counts, end);
    CountingLast(rs, counts, end);
    SampledLast(rs, counts, n);
    SampledWithin(rs[..end], counts, n);
    hide Counting, Sampled;
    WhichLast(rs, Sampled(rs[..end], counts, n), counts(rs[end]) && |Counting(rs[..end], counts, end)| < n, which);
  }

  lemma CountingLast(rs: seq<Review>, counts: Review -> bool, end: nat)
    requires end < |rs|
    ensures |Counting(rs, counts, end + 1)| == |Counting(rs, counts, end)| + if counts(rs[end]) then 1 else 0
  {
    assert Counting(rs, counts, end + 1) == Counting(rs, counts, end) + if counts(rs[end]) then {end} else {};
  }

  lemma SampledWithin(rs: seq<Review>, counts: Review -> bool, n: nat)
    ensures forall i | i in Sampled(rs, counts, n) :: i < |rs|
  {}

  lemma WhichLast(rs: seq<Review>, sample: set<nat>, more: bool, which: Review -> bool)
    requires rs != [] && forall i | i in sample :: i < |rs| - 1
    ensures var end := |rs| - 1;
      |set i | i in sample + (if more then {end} else {}) && which(rs[i])| ==
        |set i | i in sample && which(rs[..end][i])| + if more && which(rs[end]) then 1 else 0
  {
    var end := |rs| - 1;
    var whole := sample + if more then {end} else {};
    var all, some := set i | i in whole && which(rs[i]), set i | i in sample && which(rs[..end][i]);
    forall i ensures i in all <==> i in some || (i == end && more && which(rs[end])) {
      assert i in sample ==> rs[..end][i] == rs[i];
    }
    if more && which(rs[end]) {
      assert all == some + {end} && end !in some;
    } else {
      assert all == some;
    }
  }

  lemma CountingBefore(rs: seq<Review>, counts: Review -> bool, end: nat)
    requires end <= |rs|
    ensures forall i: nat | i <= end :: Counting(rs, counts, i) == Counting(rs[..end], counts, i)
  {}

  lemma SampledLast(rs: seq<Review>, counts: Review -> bool, n: nat)
    requires rs != []
    ensures var end := |rs| - 1;
      Sampled(rs, counts, n) == Sampled(rs[..end], counts, n) + if counts(rs[end]) && |Counting(rs[..end], counts, end)| < n then {end} else {}
  {
    var end := |rs| - 1;
    CountingBefore(rs, counts, end);
    hide Counting;
    assert Counting(rs, counts, end) == Counting(rs[..end], counts, end);
  }

  lemma FilteredMore(rs: seq<Review>, counts: Review -> bool, n: nat, which: Review -> bool)
    requires rs != []
    ensures var end := |rs| - 1;
      var before, last := rs[..end], rs[end];
      && |Reviewer.Filter(rs, counts)| == |Reviewer.Filter(before, counts)| + (if counts(last) then 1 else 0)
      && |Reviewer.Filter(Reviewer.First(Reviewer.Filter(rs, counts), n), which)| ==
           |Reviewer.Filter(Reviewer.First(Reviewer.Filter(before, counts), n), which)|
           + if counts(last) && |Reviewer.Filter(before, counts)| < n && which(last) then 1 else 0
  {
    var end := |rs| - 1;
    var some, last := Reviewer.Filter(rs[..end], counts), rs[end];
    if counts(last) {
      assert Reviewer.Filter(rs, counts) == some + [last];
      if |some| < n {
        assert Reviewer.First(some + [last], n) == Reviewer.First(some, n) + [last];
        Reviewer.FilterSnoc(Reviewer.First(some, n), last, which);
      } else {
        assert (some + [last])[..n] == some[..n] && some[..|some|] == some;
        assert Reviewer.First(some + [last], n) == Reviewer.First(some, n);
      }
    } else {
      assert Reviewer.Filter(rs, counts) == some + [] == some;
    }
  }

  /** An assignment that came to an end: open ones and those claimed by somebody else are no outcome. */
  ghost function HasEnded(): Review -> bool {
    (r: Review) => r.state in {ClosedSelfCorrect, ClosedDismissed, ClosedAcceptedPrivate, EscalatedToDispute, Recused}
  }

  /** How many of the latest n ended assignments died of an expired deadline. */
  ghost function Missed(rs: seq<Review>, n: nat): nat {
    |set i | i in Sampled(rs, HasEnded(), n) && rs[i].state.Recused? && rs[i].slaExpired|
  }

  lemma NoShowsAre(rs: seq<Review>, n: nat)
    ensures Reviewer.NoShows(rs, n) == Missed(rs, n)
  {
    assert Reviewer.NoShows(rs, n) == |Reviewer.Filter(Reviewer.First(Reviewer.Filter(rs, Reviewer.Resolved), n), Reviewer.NoShow)|;
    MissedIs(rs, n, Reviewer.Resolved, Reviewer.NoShow);
    hide *;
  }

  lemma MissedIs(rs: seq<Review>, n: nat, counts: Review -> bool, which: Review -> bool)
    requires forall r :: counts(r) == HasEnded()(r) && which(r) == (r.state.Recused? && r.slaExpired)
    ensures |Reviewer.Filter(Reviewer.First(Reviewer.Filter(rs, counts), n), which)| == Missed(rs, n)
  {
    SampleSize(rs, counts, n, which);
    SameSample(rs, counts, HasEnded(), n);
    var sample := Sampled(rs, HasEnded(), n);
    assert forall i | i in sample :: i < |rs|;
    hide Sampled, HasEnded, Reviewer.Filter, Reviewer.First;
    assert (set i | i in sample && which(rs[i])) == set i | i in sample && rs[i].state.Recused? && rs[i].slaExpired;
  }

  lemma SameSample(rs: seq<Review>, a: Review -> bool, b: Review -> bool, n: nat)
    requires forall r :: a(r) == b(r)
    ensures Sampled(rs, a, n) == Sampled(rs, b, n)
  {
    forall i: nat | i <= |rs| ensures Counting(rs, a, i) == Counting(rs, b, i) {}
  }

  /** A decision whose outcome is known: the creator took the correction, or the item's dispute has a verdict. */
  ghost function HasOutcome(verdict: string -> Option<Verdict>): Review -> bool {
    (r: Review) => r.state.ClosedAcceptedPrivate? || (r.state in {ClosedDismissed, EscalatedToDispute} && verdict(r.ctid).Some?)
  }

  /** The share of the latest n known decisions that came out as the reviewer had it: dismissed items whose
      dispute was dismissed, escalated ones whose dispute found something wrong, and every accepted one. */
  ghost function ShareRight(rs: seq<Review>, verdict: string -> Option<Verdict>, n: nat): real {
    var known := Sampled(rs, HasOutcome(verdict), n);
    if known == {} then 1.0 else |ThoseRight(rs, verdict, n)| as real / |known| as real
  }

  ghost function ThoseRight(rs: seq<Review>, verdict: string -> Option<Verdict>, n: nat): set<nat> {
    set i | i in Sampled(rs, HasOutcome(verdict), n) && BearsOut(rs[i].state, verdict(rs[i].ctid))
  }

  predicate BearsOut(state: ReviewState, v: Option<Verdict>) {
    match state
    case ClosedDismissed => v == Some(Dismissed)
    case EscalatedToDispute => v in {Some(Upheld), Some(ConservativeLabel)}
    case _ => true
  }

  lemma {:induction false} FilterAll(rs: seq<Review>, p: Review -> bool)
    requires forall i | 0 <= i < |rs| :: p(rs[i])
    ensures Reviewer.Filter(rs, p) == rs
  {
    if rs != [] {
      FilterAll(rs[..|rs| - 1], p);
    }
  }

  lemma {:induction false} FilterHas(rs: seq<Review>, p: Review -> bool)
    ensures forall i | 0 <= i < |Reviewer.Filter(rs, p)| :: p(Reviewer.Filter(rs, p)[i])
  {
    if rs != [] {
      FilterHas(rs[..|rs| - 1], p);
    }
  }

  lemma AllKept(rs: seq<Review>, p: Review -> bool, n: nat)
    ensures var some := Reviewer.First(Reviewer.Filter(rs, p), n); Reviewer.Filter(some, p) == some
  {
    FilterHas(rs, p);
    hide Reviewer.Filter;
    FilterAll(Reviewer.First(Reviewer.Filter(rs, p), n), p);
  }

  lemma AccuracyIs(rs: seq<Review>, verdict: string -> Option<Verdict>, n: nat)
    ensures Reviewer.Accuracy(rs, verdict, n) == ShareRight(rs, verdict, n)
  {
    var determined, agreed := Reviewer.Determined(verdict), Reviewer.Agreed(verdict);
    var sample := Reviewer.First(Reviewer.Filter(rs, determined), n);
    assert forall r :: determined(r) == HasOutcome(verdict)(r);
    KnownIs(rs, n, determined, HasOutcome(verdict));
    RightIs(rs, n, verdict);
    hide Reviewer.Filter, Reviewer.First, Sampled, HasOutcome, Reviewer.Determined, Reviewer.Agreed;
    assert |Sampled(rs, HasOutcome(verdict), n)| == 0 <==> Sampled(rs, HasOutcome(verdict), n) == {};
  }

  lemma KnownIs(rs: seq<Review>, n: nat, a: Review -> bool, b: Review -> bool)
    requires forall r :: a(r) == b(r)
    ensures |Reviewer.First(Reviewer.Filter(rs, a), n)| == |Sampled(rs, b, n)|
  {
    SampleSize(rs, a, n, a);
    SameSample(rs, a, b, n);
    AllKept(rs, a, n);
    var sample := Sampled(rs, b, n);
    assert forall i | i in sample :: i < |rs| && a(rs[i]);
    hide Reviewer.Filter, Reviewer.First, Sampled;
    assert (set i | i in sample && a(rs[i])) == sample;
  }

  lemma RightIs(rs: seq<Review>, n: nat, verdict: string -> Option<Verdict>)
    ensures |Reviewer.Filter(Reviewer.First(Reviewer.Filter(rs, Reviewer.Determined(verdict)), n), Reviewer.Agreed(verdict))|
      == |ThoseRight(rs, verdict, n)|
  {
    var determined, agreed := Reviewer.Determined(verdict), Reviewer.Agreed(verdict);
    SampleSize(rs, determined, n, agreed);
    SameSample(rs, determined, HasOutcome(verdict), n);
    var known := Sampled(rs, HasOutcome(verdict), n);
    assert forall i | i in known :: i < |rs| && HasOutcome(verdict)(rs[i]);
    hide Reviewer.Filter, Reviewer.First, Sampled;
    assert (set i | i in known && agreed(rs[i])) == ThoseRight(rs, verdict, n);
  }

  // ---------------------------------------------------------------- reviewers

  /** What every pass asks of a reviewer of this author's work. */
  ghost predicate Available(net: Network, h: Reviewer.History, k: Reviewer.Rules, id: Identity, author: Text) {
    && id.tipId != [] && (author == [] || id.tipId != author)
    && IsPerson(id) && id.reviewerConsent && id.tipId !in net.revoked
    && Missed(h.records(id.tipId), k.noShowSample) <= k.maxNoShows
  }

  /** What the passes ask besides: score and accuracy, score alone, and the last floor. */
  ghost predicate Suits(net: Network, h: Reviewer.History, k: Reviewer.Rules, t: Text, pass: nat) {
    if pass == 1 then net.score(t) >= k.minScore && ShareRight(h.records(t), h.verdict, k.accuracySample) >= 1.0 - k.maxOverturnRate
    else net.score(t) >= if pass == 2 then k.minScore else k.fallback
  }

  /** The pool of a pass: the available who suit it, in the order of their ids' code units. */
  lemma PoolSpelled(net: Network, h: Reviewer.History, k: Reviewer.Rules, author: Text, pass: nat, t: Text)
    requires Registry(net)
    ensures (exists c :: c in Reviewer.Pool(net, h, k, author, pass) && c.tipId == t) <==>
      exists id :: id in net.identities && id.tipId == t && Available(net, h, k, id, author) && Suits(net, h, k, t, pass)
  {
    Reviewer.PoolMembers(net, h, k, author, pass, t);
    forall id | id in net.identities && id.tipId == t
      ensures Reviewer.HardFilters(net, h, k, id, author) && Reviewer.Qualifies(h, k, CandOf(net, id), pass)
        <==> Available(net, h, k, id, author) && Suits(net, h, k, t, pass)
    {
      SameDemands(net, h, k, id, author, pass);
    }
    hide Reviewer.HardFilters, Reviewer.Qualifies, Available, Suits, Reviewer.Pool, Registry;
  }

  lemma SameDemands(net: Network, h: Reviewer.History, k: Reviewer.Rules, id: Identity, author: Text, pass: nat)
    ensures Reviewer.HardFilters(net, h, k, id, author) <==> Available(net, h, k, id, author)
    ensures Reviewer.Qualifies(h, k, CandOf(net, id), pass) <==> Suits(net, h, k, id.tipId, pass)
  {
    NoShowsAre(h.records(id.tipId), k.noShowSample);
    AccuracyIs(h.records(id.tipId), h.verdict, k.accuracySample);
    hide Missed, ShareRight, Reviewer.NoShows, Reviewer.Accuracy;
  }

  lemma {:induction false} KeptSorted(h: Reviewer.History, k: Reviewer.Rules, cands: seq<Cand>, pass: nat)
    requires StrictlySorted(cands, IdOf())
    ensures StrictlySorted(Reviewer.Kept(h, k, cands, pass), IdOf())
  {
    if cands != [] {
      SortedTail(cands, IdOf());
      KeptSorted(h, k, cands[1..], pass);
      Reviewer.KeptElements(h, k, cands[1..], pass);
      hide Reviewer.Qualifies, Less;
    }
  }

  /** The first pass with anybody in it gives the first of the draw, from its pool in order. */
  lemma ReviewerIsDrawn(net: Network, h: Reviewer.History, k: Reviewer.Rules, author: Text, seed: Seed)
    requires Registry(net)
    ensures var r := Reviewer.Assign(net, h, k, author, seed);
      if r.reviewer.None? then forall p | 1 <= p <= 3 :: Reviewer.Pool(net, h, k, author, p) == []
      else
        var pool := Reviewer.Pool(net, h, k, author, r.pass);
        && 1 <= r.pass <= 3 && pool != [] && r.poolSize == |pool| && (forall p | 1 <= p < r.pass :: Reviewer.Pool(net, h, k, author, p) == [])
        && r.reviewer == Some(Drawn(pool, seed)[0].tipId)
        && forall i, j | 0 <= i < j < |pool| :: Precedes(pool[i].tipId, pool[j].tipId)
  {
    hide Reviewer.Pool, Reviewer.PickFrom, Drawn, Precedes;
    var r := Reviewer.Assign(net, h, k, author, seed);
    forall p: nat {:trigger Reviewer.Pool(net, h, k, author, p)} | Reviewer.Pool(net, h, k, author, p) != []
      ensures Reviewer.PickFrom(Reviewer.Pool(net, h, k, author, p), seed, p) ==
        Reviewer.Assignment(Some(Drawn(Reviewer.Pool(net, h, k, author, p), seed)[0].tipId), |Reviewer.Pool(net, h, k, author, p)|, p)
    {
      PicksFirst(Reviewer.Pool(net, h, k, author, p), seed, p);
    }
    if r.reviewer.Some? {
      PoolOrdered(net, h, k, author, r.pass);
    }
  }

  lemma PicksFirst(pool: seq<Cand>, seed: Seed, p: nat)
    requires pool != []
    ensures Reviewer.PickFrom(pool, seed, p) == Reviewer.Assignment(Some(Drawn(pool, seed)[0].tipId), |pool|, p)
  {
    ShuffleDraws(pool, seed);
    hide Drawn, Shuffled;
  }

  lemma PoolOrdered(net: Network, h: Reviewer.History, k: Reviewer.Rules, author: Text, pass: nat)
    requires Registry(net)
    ensures var pool := Reviewer.Pool(net, h, k, author, pass);
      forall i, j | 0 <= i < j < |pool| :: Precedes(pool[i].tipId, pool[j].tipId)
  {
    var pool := Reviewer.Pool(net, h, k, author, pass);
    Reviewer.BaselineIs(net, h, k, author);
    KeptSorted(h, k, Reviewer.Baseline(net, h, k, author), pass);
    hide Reviewer.Baseline, Reviewer.Kept, Less, Precedes;
    forall i, j | 0 <= i < j < |pool| ensures Precedes(pool[i].tipId, pool[j].tipId) {
      assert Less(IdOf()(pool[i]), IdOf()(pool[j]));
      LessIsPrecedes(pool[i].tipId, pool[j].tipId);
    }
  }
}
