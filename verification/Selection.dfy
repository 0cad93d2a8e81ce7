/** Who sits on a jury or an expert panel: selectJury and selectExperts of node/src/jury.js. */
module Selection {
  import opened Common
  import opened Texts
  import opened Panel

  const PERSONAL: string := "personal"

  /** An identity record; an empty type stands for a missing one. */
  datatype Identity = Identity(tipId: Text, tipIdType: string, region: string,
                               jurorConsent: bool, expertConsent: bool, reviewerConsent: bool)

  /** What the selection reads: the identities in whatever order the store lists them. */
  datatype Network = Network(identities: seq<Identity>, revoked: set<Text>, score: Text -> int)

  datatype Role = Juror | Expert

  /** Seats, regional cap, main floor and the floors to fall back on. */
  datatype Limits = Limits(seats: nat, cap: int, floor: int, fallbacks: seq<int>)

  /** JURY.* and APPEAL.*: the experts borrow the jury's last floor. */
  datatype Protocol = Protocol(jurySize: nat, juryCap: int, juryMin: int, juryFallback: int,
                               expertCount: nat, expertCap: int, expertMin: int, expertFallback: int)

  function LimitsOf(k: Protocol, role: Role): Limits {
    match role
    case Juror => Limits(k.jurySize, k.juryCap, k.juryMin, [k.juryFallback])
    case Expert => Limits(k.expertCount, k.expertCap, k.expertMin, [k.expertFallback, k.juryFallback])
  }

  /** The hash that seeds the shuffle: bytes, at least one. */
  type Seed = s: seq<nat> | s != [] witness [0]

  datatype Seats = Seats(members: seq<Text>, insufficient: bool, seed: Seed, identityCount: nat)

  function IdentityKey(): Identity -> Text {
    (id: Identity) => id.tipId
  }

  function TypeOf(id: Identity): string {
    if id.tipIdType == "" then PERSONAL else id.tipIdType
  }

  /** The hard exclusions. */
  predicate MaySit(net: Network, id: Identity, role: Role, excluded: set<Text>) {
    && id.tipId !in excluded
    && id.tipId !in net.revoked
    && TypeOf(id) == PERSONAL
    && (match role case Juror => id.jurorConsent case Expert => id.expertConsent)
  }

  function Filtered(net: Network, ids: seq<Identity>, role: Role, excluded: set<Text>): seq<Identity> {
    if ids == [] then []
    else (if MaySit(net, ids[0], role, excluded) then [ids[0]] else []) + Filtered(net, ids[1..], role, excluded)
  }

  function Scored(net: Network, ids: seq<Identity>): seq<Cand> {
    if ids == [] then []
    else [Cand(ids[0].tipId, ids[0].region, Some(net.score(ids[0].tipId)))] + Scored(net, ids[1..])
  }

  function Candidates(net: Network, role: Role, excluded: set<Text>): seq<Cand> {
    Sort(Scored(net, Filtered(net, net.identities, role, excluded)), IdOf())
  }

  function Seated(cands: seq<Cand>, seed: Seed, l: Limits): seq<Text> {
    if |cands| < l.seats then Ids(cands) else Ids(Pick(Shuffled(cands, seed), l.seats, l.cap, l.floor, l.fallbacks))
  }

  function Select(net: Network, shake: (Text, nat) -> Seed, k: Protocol, role: Role, txId: Text, excluded: set<Text>): Seats {
    var l, seed := LimitsOf(k, role), shake(txId, |net.identities|);
    var members := Seated(Candidates(net, role, excluded), seed, l);
    Seats(members, |members| < l.seats, seed, |net.identities|)
  }

  function SelectJury(net: Network, shake: (Text, nat) -> Seed, k: Protocol, disputeTxId: Text, author: Text,
      disputer: Text): Seats {
    Select(net, shake, k, Juror, disputeTxId, {author, disputer})
  }

  /** `summoned` are the jurors of the dispute's second stage. */
  function SelectExperts(net: Network, shake: (Text, nat) -> Seed, k: Protocol, appealTxId: Text, author: Text, disputer: Text,
                         summoned: set<Text>): Seats
  {
    Select(net, shake, k, Expert, appealTxId, {author, disputer} + summoned)
  }

  // ---------------------------------------------------------------- the candidates

  /** The store lists every identity once. */
  ghost predicate Registry(net: Network) {
    DistinctKeys(net.identities, IdentityKey())
  }

  function CandOf(net: Network, id: Identity): Cand {
    Cand(id.tipId, id.region, Some(net.score(id.tipId)))
  }

  lemma {:induction false} FilteredElements(net: Network, ids: seq<Identity>, role: Role, excluded: set<Text>)
    ensures forall id :: id in Filtered(net, ids, role, excluded) <==> id in ids && MaySit(net, id, role, excluded)
    ensures DistinctKeys(ids, IdentityKey()) ==> DistinctKeys(Filtered(net, ids, role, excluded), IdentityKey())
  {
    if ids != [] {
      FilteredElements(net, ids[1..], role, excluded);
      var rest := Filtered(net, ids[1..], role, excluded);
      assert forall id :: id in ids <==> id == ids[0] || id in ids[1..];
      hide MaySit;
      if DistinctKeys(ids, IdentityKey()) {
        DistinctHead(ids, rest);
      }
    }
  }

  /** A list with distinct keys stays so when its tail is thinned out. */
  lemma DistinctHead(ids: seq<Identity>, rest: seq<Identity>)
    requires ids != [] && DistinctKeys(ids, IdentityKey())
    ensures DistinctKeys(ids[1..], IdentityKey())
    ensures (forall id | id in rest :: id in ids[1..]) && DistinctKeys(rest, IdentityKey())
      ==> DistinctKeys([ids[0]] + rest, IdentityKey())
  {
    forall i, j | 0 <= i < j < |ids[1..]| ensures IdentityKey()(ids[1..][i]) != IdentityKey()(ids[1..][j]) {
      assert IdentityKey()(ids[i + 1]) != IdentityKey()(ids[j + 1]);
    }
    if (forall id | id in rest :: id in ids[1..]) && DistinctKeys(rest, IdentityKey()) {
      forall id | id in rest ensures IdentityKey()(ids[0]) != IdentityKey()(id) {
        var j :| 0 <= j < |ids[1..]| && ids[1..][j] == id;
        assert IdentityKey()(ids[0]) != IdentityKey()(ids[j + 1]);
      }
    }
  }

  lemma {:induction false} ScoredElements(net: Network, ids: seq<Identity>)
    ensures |Scored(net, ids)| == |ids|
    ensures forall i | 0 <= i < |ids| :: Scored(net, ids)[i] == CandOf(net, ids[i])
  {
    if ids != [] {
      ScoredElements(net, ids[1..]);
    }
  }

  /** The candidates are the scored records of exactly the identities that may sit, sorted, each once. */
  lemma CandidatesAre(net: Network, role: Role, excluded: set<Text>)
    requires Registry(net)
    ensures Distinct(Candidates(net, role, excluded)) && StrictlySorted(Candidates(net, role, excluded), IdOf())
    ensures forall c :: c in Candidates(net, role, excluded) <==>
      exists id :: id in net.identities && MaySit(net, id, role, excluded) && c == CandOf(net, id)
  {
    var ids := Filtered(net, net.identities, role, excluded);
    FilteredElements(net, net.identities, role, excluded);
    ScoredCandidates(net, ids);
    var scored := Scored(net, ids);
    hide Filtered, Scored, MaySit, Sort;
    SortElements(scored, IdOf());
    SortSorted(scored, IdOf());
    StrictIsDistinct(Candidates(net, role, excluded));
  }

  lemma ScoredCandidates(net: Network, ids: seq<Identity>)
    requires DistinctKeys(ids, IdentityKey())
    ensures DistinctKeys(Scored(net, ids), IdOf())
    ensures forall c :: c in Scored(net, ids) <==> exists id :: id in ids && c == CandOf(net, id)
  {
    ScoredElements(net, ids);
    var scored := Scored(net, ids);
    hide Scored;
    forall i, j | 0 <= i < j < |scored| ensures IdOf()(scored[i]) != IdOf()(scored[j]) {
      assert IdentityKey()(ids[i]) != IdentityKey()(ids[j]);
    }
    forall c ensures c in scored <==> exists id :: id in ids && c == CandOf(net, id) {
      if c in scored {
        var i :| 0 <= i < |scored| && scored[i] == c;
        assert ids[i] in ids && c == CandOf(net, ids[i]);
      }
      if id :| id in ids && c == CandOf(net, id) {
        var i :| 0 <= i < |ids| && ids[i] == id;
        assert scored[i] == c;
      }
    }
  }

  lemma StrictIsDistinct(cands: seq<Cand>)
    requires StrictlySorted(cands, IdOf())
    ensures Distinct(cands)
  {
    forall i, j | 0 <= i < j < |cands| ensures IdOf()(cands[i]) != IdOf()(cands[j]) {
      LessAsymmetric(IdOf()(cands[i]), IdOf()(cands[j]));
    }
  }

  // ---------------------------------------------------------------- what selection promises

  ghost predicate SameRegistry(a: Network, b: Network) {
    && Registry(a) && Registry(b) && SameElements(a.identities, b.identities)
    && a.revoked == b.revoked && a.score == b.score
  }

  lemma SameSize(a: seq<Identity>, b: seq<Identity>)
    requires DistinctKeys(a, IdentityKey()) && DistinctKeys(b, IdentityKey()) && SameElements(a, b)
    ensures |a| == |b|
  {
    SortForgetsOrder(a, b, IdentityKey());
    SortElements(a, IdentityKey());
    SortElements(b, IdentityKey());
  }

  /** Nodes whose stores list the same identities in different orders seat the same people. */
  lemma SelectionForgetsOrder(a: Network, b: Network, shake: (Text, nat) -> Seed, k: Protocol, role: Role, txId: Text,
      excluded: set<Text>)
    requires SameRegistry(a, b)
    ensures Select(a, shake, k, role, txId, excluded) == Select(b, shake, k, role, txId, excluded)
  {
    SameSize(a.identities, b.identities);
    CandidatesAre(a, role, excluded);
    CandidatesAre(b, role, excluded);
    var x, y := Candidates(a, role, excluded), Candidates(b, role, excluded);
    forall id
      ensures (id in a.identities && MaySit(a, id, role, excluded)) <==> (id in b.identities && MaySit(b, id, role, excluded))
    {}
    assert forall id :: CandOf(a, id) == CandOf(b, id);
    SortedUnique(x, y, IdOf());
  }

  /** Distinct lists with the same elements have the same candidates above a floor. */
  lemma ShuffledCandidates(cands: seq<Cand>, seed: Seed)
    requires Distinct(cands)
    ensures Distinct(Shuffled(cands, seed)) && Elements(Shuffled(cands, seed)) == Elements(cands)
  {
    var s := Shuffled(cands, seed);
    ShufflePermutes(cands, seed);
    forall i, j | 0 <= i < j < |s| ensures IdOf()(s[i]) != IdOf()(s[j]) {
      if IdOf()(s[i]) == IdOf()(s[j]) {
        assert s[i] in cands && s[j] in cands;
        SameIdSameCand(cands, s[i], s[j]);
        Twice(s, i, j);
        Once(cands, s[i]);
      }
    }
  }

  lemma Twice(s: seq<Cand>, i: nat, j: nat)
    requires i < j < |s| && s[i] == s[j]
    ensures multiset(s)[s[i]] >= 2
  {
    assert s == s[..j] + s[j..];
    assert s[i] in multiset(s[..j]) by {
      assert s[..j][i] == s[i];
    }
    assert s[j] in multiset(s[j..]) by {
      assert s[j..][0] == s[j];
    }
    assert multiset(s) == multiset(s[..j]) + multiset(s[j..]);
  }

  lemma {:induction false} Once(cands: seq<Cand>, c: Cand)
    requires Distinct(cands)
    ensures multiset(cands)[c] <= 1
  {
    if cands != [] {
      var n := |cands| - 1;
      DistinctPrefix(cands, n);
      Once(cands[..n], c);
      assert cands == cands[..n] + [cands[n]];
      if c == cands[n] {
        assert c !in cands[..n];
        assert c !in multiset(cands[..n]);
      }
    }
  }

  /** How many seats get filled: a number in which the seed has no part. */
  function SeatCount(cands: set<Cand>, l: Limits): nat {
    if |cands| < l.seats then |cands|
    else Min(|set c | c in cands && Reaches(c, LowestFloor(l.floor, l.fallbacks))|, l.seats)
  }

  /** Everything that is promised of one panel. */
  lemma SeatedPromise(cands: seq<Cand>, seed: Seed, l: Limits)
    requires Distinct(cands)
    ensures |Seated(cands, seed, l)| == SeatCount(Elements(cands), l)
    ensures forall t | t in Seated(cands, seed, l) ::
      exists c :: c in cands && c.tipId == t && (|cands| >= l.seats ==> Reaches(c, LowestFloor(l.floor, l.fallbacks)))
    ensures forall i, j | 0 <= i < j < |Seated(cands, seed, l)| :: Seated(cands, seed, l)[i] != Seated(cands, seed, l)[j]
  {
    DistinctSize(cands);
    if |cands| < l.seats {
      IdsAt(cands);
      SeatsOf(cands, cands);
    } else {
      var s, low := Shuffled(cands, seed), LowestFloor(l.floor, l.fallbacks);
      ShuffledCandidates(cands, seed);
      PickHonoursFloors(s, l.seats, l.cap, l.floor, l.fallbacks);
      var sel := Pick(s, l.seats, l.cap, l.floor, l.fallbacks);
      IdsAt(sel);
      assert ReachSet(s, low) == set c | c in Elements(cands) && Reaches(c, low) by {
        assert forall c :: c in s <==> c in Elements(s);
      }
      forall c | c in sel ensures c in cands && Reaches(c, low) {
        assert c in s;
        assert c in Elements(s);
      }
      hide Pick, Shuffled, LowestFloor, PassResult, Precedence, ReachSet, Elements, Reaches, ActiveFloors;
      SeatsOf(sel, cands);
      forall t | t in Ids(sel) ensures exists c :: c in cands && c.tipId == t && Reaches(c, low) {
        var i :| 0 <= i < |Ids(sel)| && Ids(sel)[i] == t;
        assert sel[i] in sel;
      }
    }
  }

  lemma SeatsOf(sel: seq<Cand>, cands: seq<Cand>)
    requires Distinct(sel) && forall c | c in sel :: c in cands
    ensures forall t | t in Ids(sel) :: exists c :: c in cands && c.tipId == t
    ensures forall i, j | 0 <= i < j < |Ids(sel)| :: Ids(sel)[i] != Ids(sel)[j]
  {
    IdsAt(sel);
    forall t | t in Ids(sel) ensures exists c :: c in cands && c.tipId == t {
      var i :| 0 <= i < |Ids(sel)| && Ids(sel)[i] == t;
      assert sel[i] in sel;
    }
    forall i, j | 0 <= i < j < |Ids(sel)| ensures Ids(sel)[i] != Ids(sel)[j] {
      assert IdOf()(sel[i]) != IdOf()(sel[j]);
    }
  }

  /** Two nodes that draw with different seeds fill the same number of seats, so they agree on whether
      the panel is short. */
  lemma PanelSizeIgnoresSeed(net: Network, shake: (Text, nat) -> Seed, k: Protocol, role: Role, tx1: Text, tx2: Text,
      excluded: set<Text>)
    requires Registry(net)
    ensures var a, b := Select(net, shake, k, role, tx1, excluded), Select(net, shake, k, role, tx2, excluded);
      |a.members| == |b.members| && a.insufficient == b.insufficient
    ensures |Select(net, shake, k, role, tx1, excluded).members| ==
      SeatCount(Elements(Candidates(net, role, excluded)), LimitsOf(k, role))
  {
    CandidatesAre(net, role, excluded);
    var cands, l := Candidates(net, role, excluded), LimitsOf(k, role);
    SeatedPromise(cands, shake(tx1, |net.identities|), l);
    SeatedPromise(cands, shake(tx2, |net.identities|), l);
  }

  /** No seed seats somebody twice, or somebody who may not sit: the parties, a revoked identity, an
      organization, one who did not consent, or an earlier juror on an expert panel. */
  lemma OnlyEligibleSit(net: Network, shake: (Text, nat) -> Seed, k: Protocol, role: Role, txId: Text, excluded: set<Text>)
    requires Registry(net)
    ensures var m := Select(net, shake, k, role, txId, excluded).members;
      && (forall t | t in m :: exists id :: id in net.identities && id.tipId == t && MaySit(net, id, role, excluded))
      && forall i, j | 0 <= i < j < |m| :: m[i] != m[j]
  {
    CandidatesAre(net, role, excluded);
    var cands := Candidates(net, role, excluded);
    SeatedPromise(cands, shake(txId, |net.identities|), LimitsOf(k, role));
    forall t | t in Select(net, shake, k, role, txId, excluded).members
      ensures exists id :: id in net.identities && id.tipId == t && MaySit(net, id, role, excluded)
    {
      var c :| c in cands && c.tipId == t;
      var id :| id in net.identities && MaySit(net, id, role, excluded) && c == CandOf(net, id);
      assert id.tipId == t;
    }
  }

  /** Nobody judges their own dispute, and nobody judges it twice. */
  lemma PartiesNeverSit(net: Network, shake: (Text, nat) -> Seed, k: Protocol, txId: Text, author: Text, disputer: Text,
      summoned: set<Text>)
    requires Registry(net)
    ensures forall t | t in SelectJury(net, shake, k, txId, author, disputer).members :: t != author && t != disputer
    ensures forall t | t in SelectExperts(net, shake, k, txId, author, disputer, summoned).members ::
      t != author && t != disputer && t !in summoned
  {
    hide Select;
    OnlyEligibleSit(net, shake, k, Juror, txId, {author, disputer});
    OnlyEligibleSit(net, shake, k, Expert, txId, {author, disputer} + summoned);
  }

  ghost predicate AllReach(net: Network, members: seq<Text>, floor: int) {
    forall t | t in members :: net.score(t) >= floor
  }

  /** The floors guard a panel only when there are enough candidates: with fewer than there are seats
      everybody sits, whatever the score. */
  lemma FloorsHoldIff(net: Network, shake: (Text, nat) -> Seed, k: Protocol, role: Role, txId: Text, excluded: set<Text>)
    requires Registry(net)
    ensures var l, cands := LimitsOf(k, role), Candidates(net, role, excluded);
      var low := LowestFloor(l.floor, l.fallbacks);
      AllReach(net, Select(net, shake, k, role, txId, excluded).members, low)
      <==> |cands| >= l.seats || forall c | c in cands :: Reaches(c, low)
  {
    CandidatesAre(net, role, excluded);
    var l, cands := LimitsOf(k, role), Candidates(net, role, excluded);
    var low, members := LowestFloor(l.floor, l.fallbacks), Select(net, shake, k, role, txId, excluded).members;
    SeatedPromise(cands, shake(txId, |net.identities|), l);
    assert forall c | c in cands :: c.score == Some(net.score(c.tipId));
    if |cands| < l.seats {
      EverybodySits(net, cands, low);
    } else {
      forall t | t in members ensures net.score(t) >= low {
        var c :| c in cands && c.tipId == t && Reaches(c, low);
      }
    }
  }

  lemma EverybodySits(net: Network, cands: seq<Cand>, low: int)
    requires forall c | c in cands :: c.score == Some(net.score(c.tipId))
    ensures AllReach(net, Ids(cands), low) <==> forall c | c in cands :: Reaches(c, low)
  {
    IdsAt(cands);
    forall c | c in cands ensures c.tipId in Ids(cands) {
      var i :| 0 <= i < |cands| && cands[i] == c;
      assert Ids(cands)[i] == c.tipId;
    }
    forall t | t in Ids(cands) ensures exists c :: c in cands && c.tipId == t {
      var i :| 0 <= i < |Ids(cands)| && Ids(cands)[i] == t;
      assert cands[i] in cands;
    }
  }
}
