/** How a panel is drawn: the seeded shuffle and the pick with its cap and floors (node/src/jury.js). */
module Panel {
  import opened Common
  import opened Texts

  // ---------------------------------------------------------------- the seeded shuffle

  function Swapped<T>(s: seq<T>, i: nat, j: nat): (r: seq<T>)
    requires i < |s| && j < |s|
    ensures |r| == |s|
  {
    s[i := s[j]][j := s[i]]
  }

  function SwapIndex(seed: seq<nat>, i: nat): (j: nat)
    requires seed != []
    ensures j <= i
  {
    seed[i % |seed|] % (i + 1)
  }

  /** The swaps still to come when the loop stands at `i`. */
  function ShuffleFrom<T>(s: seq<T>, seed: seq<nat>, i: int): (r: seq<T>)
    requires seed != [] && i < |s|
    decreases i
  {
    if i <= 0 then s else ShuffleFrom(Swapped(s, i, SwapIndex(seed, i)), seed, i - 1)
  }

  function Shuffled<T>(s: seq<T>, seed: seq<nat>): seq<T>
    requires seed != []
  {
    ShuffleFrom(s, seed, |s| - 1)
  }

  lemma SwappedElements<T>(s: seq<T>, i: nat, j: nat)
    requires i < |s| && j < |s|
    ensures multiset(Swapped(s, i, j)) == multiset(s)
  {}

  lemma {:induction false} ShuffleFromPermutes<T>(s: seq<T>, seed: seq<nat>, i: int)
    requires seed != [] && i < |s|
    ensures multiset(ShuffleFrom(s, seed, i)) == multiset(s)
    decreases i
  {
    if i > 0 {
      SwappedElements(s, i, SwapIndex(seed, i));
      ShuffleFromPermutes(Swapped(s, i, SwapIndex(seed, i)), seed, i - 1);
    }
  }

  /** The shuffle is a permutation, whatever the seed. */
  lemma ShufflePermutes<T>(s: seq<T>, seed: seq<nat>)
    requires seed != []
    ensures multiset(Shuffled(s, seed)) == multiset(s) && |Shuffled(s, seed)| == |s|
    ensures SameElements(s, Shuffled(s, seed))
  {
    var r := Shuffled(s, seed);
    ShuffleFromPermutes(s, seed, |s| - 1);
    assert |multiset(r)| == |multiset(s)|;
    forall x | x in s ensures x in r {
      assert x in multiset(s);
      assert x in multiset(r);
    }
    forall x | x in r ensures x in s {
      assert x in multiset(r);
      assert x in multiset(s);
    }
  }

  method SeededShuffle<T>(arr: seq<T>, seed: seq<nat>) returns (r: seq<T>)
    requires seed != []
    ensures r == Shuffled(arr, seed)
  {
    var shuffled := new T[|arr|](i requires 0 <= i < |arr| => arr[i]);
    assert shuffled[..] == arr;
    var i := |arr| - 1;
    while i > 0
      invariant i < |arr| == shuffled.Length
      invariant ShuffleFrom(shuffled[..], seed, i) == Shuffled(arr, seed)
    {
      var j := seed[i % |seed|] % (i + 1);
      ghost var before := shuffled[..];
      shuffled[i], shuffled[j] := shuffled[j], shuffled[i];
      assert shuffled[..] == Swapped(before, i, j);
      i := i - 1;
    }
    return shuffled[..];
  }

  // ---------------------------------------------------------------- the pick

  /** A candidate; a missing score counts as infinite and an empty region as "XX". */
  datatype Cand = Cand(tipId: Text, region: string, score: Option<int>)

  function IdOf(): Cand -> Text {
    (c: Cand) => c.tipId
  }

  predicate Reaches(c: Cand, floor: int) {
    c.score.Some? ==> c.score.value >= floor
  }

  function RegionOf(c: Cand): string {
    if c.region == "" then "XX" else c.region
  }

  function CountIn(region: string, cands: seq<Cand>): nat {
    if cands == [] then 0
    else CountIn(region, cands[..|cands| - 1]) + if RegionOf(cands[|cands| - 1]) == region then 1 else 0
  }

  predicate Taken(c: Cand, selected: seq<Cand>) {
    exists i | 0 <= i < |selected| :: selected[i].tipId == c.tipId
  }

  /** Pass 1 over the first candidates of the list: the floor and the cap both hold. */
  function CappedPass(cands: seq<Cand>, count: nat, cap: int, floor: int): seq<Cand> {
    if cands == [] then [] else
    var sel, c := CappedPass(cands[..|cands| - 1], count, cap, floor), cands[|cands| - 1];
    if |sel| == count || !Reaches(c, floor) || CountIn(RegionOf(c), sel) >= cap then sel else sel + [c]
  }

  /** A later pass: only the floor, and only those not taken yet. */
  function FloorPass(start: seq<Cand>, cands: seq<Cand>, count: nat, floor: int): seq<Cand> {
    if cands == [] then start else
    var sel, c := FloorPass(start, cands[..|cands| - 1], count, floor), cands[|cands| - 1];
    if |sel| == count || !Reaches(c, floor) || Taken(c, sel) then sel else sel + [c]
  }

  /** The fallback floors, each used only if it is below every floor used before it. */
  function Cascade(start: seq<Cand>, cands: seq<Cand>, count: nat, current: int, floors: seq<int>): seq<Cand>
    decreases |floors|
  {
    if floors == [] then start
    else if floors[0] >= current then Cascade(start, cands, count, current, floors[1..])
    else Cascade(FloorPass(start, cands, count, floors[0]), cands, count, floors[0], floors[1..])
  }

  function Pick(cands: seq<Cand>, count: nat, cap: int, minScore: int, floors: seq<int>): seq<Cand> {
    Cascade(FloorPass(CappedPass(cands, count, cap, minScore), cands, count, minScore), cands, count, minScore, floors)
  }

  function Ids(cands: seq<Cand>): seq<Text> {
    if cands == [] then [] else Ids(cands[..|cands| - 1]) + [cands[|cands| - 1].tipId]
  }

  lemma {:induction false} IdsAt(cands: seq<Cand>)
    ensures |Ids(cands)| == |cands| && forall i | 0 <= i < |cands| :: Ids(cands)[i] == cands[i].tipId
  {
    if cands != [] {
      IdsAt(cands[..|cands| - 1]);
    }
  }

  // ---------------------------------------------------------------- what a pick is

  ghost predicate Distinct(cands: seq<Cand>) {
    DistinctKeys(cands, IdOf())
  }

  /** Part of a selection: distinct candidates of the list, no more than asked for. */
  ghost predicate Selection(sel: seq<Cand>, cands: seq<Cand>, count: nat) {
    Distinct(sel) && |sel| <= count && forall c | c in sel :: c in cands
  }

  lemma SelectionGrows(sel: seq<Cand>, c: Cand, cands: seq<Cand>, count: nat)
    requires Selection(sel, cands, count) && |sel| < count && c in cands && !Taken(c, sel)
    ensures Selection(sel + [c], cands, count)
  {
    forall i, j | 0 <= i < j < |sel + [c]| ensures IdOf()((sel + [c])[i]) != IdOf()((sel + [c])[j]) {
      if j < |sel| {
        assert IdOf()(sel[i]) != IdOf()(sel[j]);
      } else {
        assert sel[i].tipId != c.tipId;
      }
    }
  }

  lemma DistinctPrefix(cands: seq<Cand>, n: nat)
    requires Distinct(cands) && n < |cands|
    ensures Distinct(cands[..n]) && forall c | c in cands[..n] :: c.tipId != cands[n].tipId
  {
    forall c | c in cands[..n] ensures c.tipId != cands[n].tipId {
      var i :| 0 <= i < n && cands[i] == c;
      assert IdOf()(cands[i]) != IdOf()(cands[n]);
    }
    forall i, j | 0 <= i < j < n ensures IdOf()(cands[..n][i]) != IdOf()(cands[..n][j]) {
      assert IdOf()(cands[i]) != IdOf()(cands[j]);
    }
  }

  lemma SameIdSameCand(cands: seq<Cand>, c: Cand, d: Cand)
    requires Distinct(cands) && c in cands && d in cands && c.tipId == d.tipId
    ensures c == d
  {
    var i :| 0 <= i < |cands| && cands[i] == c;
    var j :| 0 <= j < |cands| && cands[j] == d;
    assert IdOf()(cands[i]) == IdOf()(cands[j]);
    assert i == j;
  }

  /** What a floor pass adds: candidates that reach the floor, and all of those unless it filled up. */
  ghost predicate PassResult(start: seq<Cand>, sel: seq<Cand>, cands: seq<Cand>, count: nat, floor: int) {
    && start <= sel
    && (forall c | c in sel :: c in start || Reaches(c, floor))
    && (|sel| < count ==> forall c | c in cands && Reaches(c, floor) :: c in sel)
  }

  lemma {:induction false} FloorPassResult(start: seq<Cand>, cands: seq<Cand>, some: seq<Cand>, count: nat, floor: int)
    requires Distinct(cands) && Selection(start, cands, count) && some <= cands
    ensures Selection(FloorPass(start, some, count, floor), cands, count)
    ensures PassResult(start, FloorPass(start, some, count, floor), some, count, floor)
  {
    if some != [] {
      var before, c := some[..|some| - 1], some[|some| - 1];
      FloorPassResult(start, cands, before, count, floor);
      var sel := FloorPass(start, before, count, floor);
      assert c in cands;
      if |sel| == count || !Reaches(c, floor) {
      } else if Taken(c, sel) {
        var d :| d in sel && d.tipId == c.tipId;
        SameIdSameCand(cands, c, d);
      } else {
        SelectionGrows(sel, c, cands, count);
      }
      forall d | d in some ensures d == c || d in before {}
    }
  }

  lemma {:induction false} CappedPassResult(cands: seq<Cand>, count: nat, cap: int, floor: int)
    requires Distinct(cands)
    ensures Selection(CappedPass(cands, count, cap, floor), cands, count)
    ensures forall c | c in CappedPass(cands, count, cap, floor) :: Reaches(c, floor)
  {
    if cands != [] {
      var n := |cands| - 1;
      var sel := CappedPass(cands[..n], count, cap, floor);
      DistinctPrefix(cands, n);
      CappedPassResult(cands[..n], count, cap, floor);
      assert Selection(sel, cands, count) && !Taken(cands[n], sel);
      if |sel| < count {
        SelectionGrows(sel, cands[n], cands, count);
      }
    }
  }

  // ---------------------------------------------------------------- floors

  /** The floors that are really applied, highest first. */
  function ActiveFloors(current: int, floors: seq<int>): seq<int>
    decreases |floors|
  {
    if floors == [] then []
    else if floors[0] >= current then ActiveFloors(current, floors[1..])
    else [floors[0]] + ActiveFloors(floors[0], floors[1..])
  }

  function LowestFloor(current: int, floors: seq<int>): int
    decreases |floors|
  {
    if floors == [] then current else LowestFloor(if floors[0] < current then floors[0] else current, floors[1..])
  }

  /** Nobody below a floor sits on the panel while somebody who reaches it was passed over. */
  ghost predicate Precedence(sel: seq<Cand>, cands: seq<Cand>, floor: int) {
    (exists c :: c in sel && !Reaches(c, floor)) ==> forall c | c in cands && Reaches(c, floor) :: c in sel
  }

  /** The panel is full, or holds everybody who reaches the floor. */
  ghost predicate Exhausted(sel: seq<Cand>, cands: seq<Cand>, count: nat, floor: int) {
    && (forall c | c in sel :: Reaches(c, floor))
    && (|sel| < count ==> forall c | c in cands && Reaches(c, floor) :: c in sel)
  }

  lemma {:induction false} CascadeResult(start: seq<Cand>, cands: seq<Cand>, count: nat, current: int, floors: seq<int>)
    requires Distinct(cands) && Selection(start, cands, count) && Exhausted(start, cands, count, current)
    ensures var sel := Cascade(start, cands, count, current, floors);
      && Selection(sel, cands, count) && start <= sel
      && Exhausted(sel, cands, count, LowestFloor(current, floors))
      && (|start| == count ==> sel == start)
      && Precedence(sel, cands, current)
      && forall f | f in ActiveFloors(current, floors) :: Precedence(sel, cands, f)
    decreases |floors|
  {
    if floors != [] {
      var floor := floors[0];
      if floor >= current {
        CascadeResult(start, cands, count, current, floors[1..]);
      } else {
        var next := FloorPass(start, cands, count, floor);
        FloorPassResult(start, cands, cands, count, floor);
        CascadeResult(next, cands, count, floor, floors[1..]);
        var sel := Cascade(next, cands, count, floor, floors[1..]);
        FullStays(start, next, sel, count);
        assert Precedence(sel, cands, current);
      }
    }
  }

  lemma FullStays(start: seq<Cand>, next: seq<Cand>, sel: seq<Cand>, count: nat)
    requires start <= next <= sel && |sel| <= count
    ensures |start| == count ==> next == start && sel == start
    ensures forall c | c in start :: c in sel
  {}

  function ReachSet(cands: seq<Cand>, floor: int): set<Cand> {
    set c | c in cands && Reaches(c, floor)
  }

  lemma {:induction false} DistinctSize(sel: seq<Cand>)
    requires Distinct(sel)
    ensures |set c | c in sel| == |sel|
  {
    if sel != [] {
      var n := |sel| - 1;
      DistinctPrefix(sel, n);
      DistinctSize(sel[..n]);
      assert (set c | c in sel) == (set c | c in sel[..n]) + {sel[n]};
    }
  }

  /** What the floors promise, for every order of the candidates: the panel is filled as far as the
      lowest floor allows, and everybody at a higher floor is taken before anybody at a lower one. */
  lemma PickHonoursFloors(cands: seq<Cand>, count: nat, cap: int, minScore: int, floors: seq<int>)
    requires Distinct(cands)
    ensures var sel, low := Pick(cands, count, cap, minScore, floors), LowestFloor(minScore, floors);
      && Selection(sel, cands, count)
      && (forall c | c in sel :: Reaches(c, low))
      && |sel| == (if |ReachSet(cands, low)| < count then |ReachSet(cands, low)| else count)
      && Precedence(sel, cands, minScore)
      && forall f | f in ActiveFloors(minScore, floors) :: Precedence(sel, cands, f)
  {
    var first := CappedPass(cands, count, cap, minScore);
    var second := FloorPass(first, cands, count, minScore);
    CappedPassResult(cands, count, cap, minScore);
    FloorPassResult(first, cands, cands, count, minScore);
    CascadeResult(second, cands, count, minScore, floors);
    var sel, low := Pick(cands, count, cap, minScore, floors), LowestFloor(minScore, floors);
    DistinctSize(sel);
    var chosen := set c | c in sel;
    assert chosen <= ReachSet(cands, low);
    SubsetSize(chosen, ReachSet(cands, low));
    if |sel| < count {
      assert chosen == ReachSet(cands, low);
    }
  }

  lemma {:induction false} SubsetSize<T>(a: set<T>, b: set<T>)
    requires a <= b
    ensures |a| <= |b|
  {
    assert b == a + (b - a);
  }

  // ---------------------------------------------------------------- the cap

  function InRegion(cands: set<Cand>, region: string): set<Cand> {
    set c | c in cands && RegionOf(c) == region
  }

  function Elements(sel: seq<Cand>): set<Cand> {
    set c | c in sel
  }

  /** A panel of distinct candidates that all reach the floor, no region over the cap. */
  ghost predicate Balanced(panel: set<Cand>, cap: int, floor: int) {
    && (forall c | c in panel :: Reaches(c, floor))
    && forall c | c in panel :: |InRegion(panel, RegionOf(c))| <= cap
  }

  lemma {:induction false} CountInIsSize(region: string, sel: seq<Cand>)
    requires Distinct(sel)
    ensures CountIn(region, sel) == |InRegion(Elements(sel), region)|
  {
    if sel != [] {
      var n := |sel| - 1;
      DistinctPrefix(sel, n);
      CountInIsSize(region, sel[..n]);
      var c, before := sel[n], Elements(sel[..n]);
      assert c !in before && Elements(sel) == before + {c};
      InRegionAdd(before, c, region);
    }
  }

  lemma InRegionAdd(before: set<Cand>, c: Cand, region: string)
    requires c !in before
    ensures |InRegion(before + {c}, region)| == |InRegion(before, region)| + if RegionOf(c) == region then 1 else 0
  {
    if RegionOf(c) == region {
      assert InRegion(before + {c}, region) == InRegion(before, region) + {c};
    } else {
      assert InRegion(before + {c}, region) == InRegion(before, region);
    }
  }

  /** Pass 1 never passes the cap, and if it does not fill the panel then every candidate it left out
      was in a region that is at the cap. */
  lemma {:induction false} CappedPassSaturates(cands: seq<Cand>, count: nat, cap: int, floor: int)
    requires Distinct(cands)
    ensures var sel := CappedPass(cands, count, cap, floor);
      && (forall r | CountIn(r, sel) > 0 :: CountIn(r, sel) <= cap)
      && (|sel| < count ==>
            forall c | c in cands && Reaches(c, floor) :: c in sel || CountIn(RegionOf(c), sel) >= cap)
  {
    if cands != [] {
      var n := |cands| - 1;
      var sel := CappedPass(cands[..n], count, cap, floor);
      DistinctPrefix(cands, n);
      CappedPassSaturates(cands[..n], count, cap, floor);
      var next := CappedPass(cands, count, cap, floor);
      assert next == sel || (next == sel + [cands[n]] && next[..|next| - 1] == sel);
      forall c | c in cands && Reaches(c, floor) && |next| < count
        ensures c in next || CountIn(RegionOf(c), next) >= cap
      {
        assert c == cands[n] || c in cands[..n];
      }
    }
  }

  lemma RegionMember(sel: seq<Cand>, c: Cand)
    requires Distinct(sel) && c in sel
    ensures CountIn(RegionOf(c), sel) > 0
  {
    CountInIsSize(RegionOf(c), sel);
    assert c in InRegion(Elements(sel), RegionOf(c));
  }

  /** If one set has no more members than another in every region, it has no more members. */
  lemma {:induction false} RegionwiseSmaller(p: set<Cand>, s: set<Cand>)
    requires forall c | c in p :: |InRegion(p, RegionOf(c))| <= |InRegion(s, RegionOf(c))|
    ensures |p| <= |s|
    decreases p
  {
    if p != {} {
      var c :| c in p;
      var r := RegionOf(c);
      var p', s' := p - InRegion(p, r), s - InRegion(s, r);
      forall d | d in p' ensures |InRegion(p', RegionOf(d))| <= |InRegion(s', RegionOf(d))| {
        assert RegionOf(d) != r;
        assert InRegion(p', RegionOf(d)) == InRegion(p, RegionOf(d));
        assert InRegion(s', RegionOf(d)) == InRegion(s, RegionOf(d));
      }
      assert c in InRegion(p, r);
      RegionwiseSmaller(p', s');
      assert p == p' + InRegion(p, r) && s == s' + InRegion(s, r);
    }
  }

  /** No balanced panel is larger than what pass 1 finds when it does not fill the panel. */
  lemma CappedPassIsMaximal(cands: seq<Cand>, count: nat, cap: int, floor: int, panel: set<Cand>)
    requires Distinct(cands) && Balanced(panel, cap, floor) && forall c | c in panel :: c in cands
    requires |CappedPass(cands, count, cap, floor)| < count
    ensures |panel| <= |CappedPass(cands, count, cap, floor)|
  {
    var sel := CappedPass(cands, count, cap, floor);
    CappedPassResult(cands, count, cap, floor);
    CappedPassSaturates(cands, count, cap, floor);
    var s := Elements(sel);
    DistinctSize(sel);
    forall c | c in panel ensures |InRegion(panel, RegionOf(c))| <= |InRegion(s, RegionOf(c))| {
      var r := RegionOf(c);
      CountInIsSize(r, sel);
      if CountIn(r, sel) < cap {
        assert InRegion(panel, r) <= InRegion(s, r);
        SubsetSize(InRegion(panel, r), InRegion(s, r));
      } else {
        assert |InRegion(panel, r)| <= cap;
      }
    }
    RegionwiseSmaller(panel, s);
  }

  /** The cap gives way only when it must: the picked panel is full, above the main floor and within
      the cap exactly when some panel of that size is. */
  lemma CapRelaxedOnlyWhenInfeasible(cands: seq<Cand>, count: nat, cap: int, minScore: int, floors: seq<int>)
    requires Distinct(cands)
    ensures var sel := Pick(cands, count, cap, minScore, floors);
      (|sel| == count && Balanced(Elements(sel), cap, minScore))
      <==> exists panel: set<Cand> :: |panel| == count && panel <= Elements(cands) && Balanced(panel, cap, minScore)
  {
    var sel, first := Pick(cands, count, cap, minScore, floors), CappedPass(cands, count, cap, minScore);
    PickHonoursFloors(cands, count, cap, minScore, floors);
    if |sel| == count && Balanced(Elements(sel), cap, minScore) {
      DistinctSize(sel);
      assert Elements(sel) <= Elements(cands);
    }
    if panel: set<Cand> :| |panel| == count && panel <= Elements(cands) && Balanced(panel, cap, minScore) {
      CappedPassResult(cands, count, cap, minScore);
      if |first| < count {
        CappedPassIsMaximal(cands, count, cap, minScore, panel);
      }
      FloorPassResult(first, cands, cands, count, minScore);
      var second := FloorPass(first, cands, count, minScore);
      CascadeResult(second, cands, count, minScore, floors);
      FullStays(first, second, sel, count);
      CappedPassSaturates(cands, count, cap, minScore);
      forall c | c in Elements(first) ensures |InRegion(Elements(first), RegionOf(c))| <= cap {
        CountInIsSize(RegionOf(c), first);
        RegionMember(first, c);
      }
    }
  }

  // ---------------------------------------------------------------- the source's loops

  /** The seats there can be. The loops look for the asked-for length only after taking somebody, so a
      count of zero never stops them. */
  function SeatLimit(cands: seq<Cand>, count: nat): nat {
    if count == 0 then |cands| + 1 else count
  }

  lemma SelectionSize(sel: seq<Cand>, cands: seq<Cand>, count: nat)
    requires Selection(sel, cands, count)
    ensures |sel| <= |cands|
  {
    DistinctSize(sel);
    SubsetSize(Elements(sel), Elements(cands));
    ElementsSize(cands);
  }

  lemma {:induction false} ElementsSize(cands: seq<Cand>)
    ensures |Elements(cands)| <= |cands|
  {
    if cands != [] {
      var n := |cands| - 1;
      ElementsSize(cands[..n]);
      assert Elements(cands) == Elements(cands[..n]) + {cands[n]};
    }
  }

  method PickWithGeoCap(cands: seq<Cand>, count: nat, maxPerRegion: int, minScore: int, floors: seq<int>)
    returns (selected: seq<Text>)
    requires Distinct(cands)
    ensures selected == Ids(Pick(cands, SeatLimit(cands, count), maxPerRegion, minScore, floors))
  {
    ghost var limit := SeatLimit(cands, count);
    var selectedSet: set<Text>, full: bool;
    ghost var first: seq<Cand>, sel: seq<Cand>;
    selected, selectedSet, full, first := FirstPass(cands, count, maxPerRegion, minScore);
    PickStops(cands, limit, maxPerRegion, minScore, floors);
    if full {
      return;
    }
    CappedPassResult(cands, limit, maxPerRegion, minScore);
    selected, selectedSet, full, sel := AddPass(first, cands, count, minScore, selected, selectedSet);
    if full {
      return;
    }
    hide CappedPass, FloorPass, Taken, Distinct, Selection, SeatLimit;
    var currentFloor := minScore;
    for k := 0 to |floors|
      invariant |sel| < limit && Recorded(sel, selected, selectedSet) && Selection(sel, cands, limit)
      invariant Cascade(sel, cands, limit, currentFloor, floors[k..]) == Pick(cands, limit, maxPerRegion, minScore, floors)
    {
      var floor := floors[k];
      assert floors[k..][0] == floor && floors[k..][1..] == floors[k + 1..];
      if floor >= currentFloor {
        continue;
      }
      selected, selectedSet, full, sel := AddPass(sel, cands, count, floor, selected, selectedSet);
      if full {
        FullCascade(sel, cands, limit, floor, floors[k + 1..]);
        return;
      }
      currentFloor := floor;
    }
  }

  /** The body of pass 1. */
  method FirstPass(cands: seq<Cand>, count: nat, maxPerRegion: int, minScore: int)
    returns (selected: seq<Text>, selectedSet: set<Text>, full: bool, ghost sel: seq<Cand>)
    ensures sel == CappedPass(cands, SeatLimit(cands, count), maxPerRegion, minScore)
    ensures Recorded(sel, selected, selectedSet)
    ensures |sel| <= SeatLimit(cands, count) && (full <==> |sel| == SeatLimit(cands, count))
  {
    ghost var limit := SeatLimit(cands, count);
    hide Recorded, CountIn, Counted, Reaches, CappedPass, RegionOf;
    selected, selectedSet, full, sel := [], {}, false, [];
    var regionCount: map<string, nat> := map[];
    NobodyYet(maxPerRegion, minScore, limit);
    assert cands[..0] == [] && cands[..|cands|] == cands;
    for i := 0 to |cands|
      invariant sel == CappedPass(cands[..i], limit, maxPerRegion, minScore)
      invariant |sel| < limit && |sel| <= i && Recorded(sel, selected, selectedSet) && !full
      invariant Counted(regionCount, sel)
    {
      CappedStep(cands, i, limit, maxPerRegion, minScore);
      var c := cands[i];
      Counts(regionCount, sel, c);
      var region := RegionOf(c);
      var n := if region in regionCount then regionCount[region] else 0;
      if !Reaches(c, minScore) || n >= maxPerRegion {
        continue;
      }
      regionCount := regionCount[region := n + 1];
      Records(sel, c, selected, selectedSet);
      RecordedSize(sel + [c], selected + [c.tipId], selectedSet + {c.tipId});
      sel := sel + [c];
      selected := selected + [c.tipId];
      selectedSet := selectedSet + {c.tipId};
      if |selected| == count {
        CappedPassFull(cands, i + 1, limit, maxPerRegion, minScore);
        full := true;
        return;
      }
    }
  }

  lemma NobodyYet(cap: int, floor: int, limit: nat)
    ensures CappedPass([], limit, cap, floor) == [] && Recorded([], [], {}) && Counted(map[], [])
  {}

  lemma CappedStep(cands: seq<Cand>, i: nat, count: nat, cap: int, floor: int)
    requires i < |cands|
    ensures var sel, c := CappedPass(cands[..i], count, cap, floor), cands[i];
      CappedPass(cands[..i + 1], count, cap, floor) ==
        if |sel| == count || !Reaches(c, floor) || CountIn(RegionOf(c), sel) >= cap then sel else sel + [c]
  {
    assert cands[..i + 1][..i] == cands[..i];
  }

  ghost predicate Recorded(sel: seq<Cand>, selected: seq<Text>, selectedSet: set<Text>) {
    && selected == Ids(sel) && |selected| == |sel|
    && forall id :: id in selectedSet <==> exists i | 0 <= i < |sel| :: sel[i].tipId == id
  }

  lemma RecordedSize(sel: seq<Cand>, selected: seq<Text>, selectedSet: set<Text>)
    requires Recorded(sel, selected, selectedSet)
    ensures |selected| == |sel|
  {}

  ghost predicate Counted(regionCount: map<string, nat>, sel: seq<Cand>) {
    forall r :: (if r in regionCount then regionCount[r] else 0) == CountIn(r, sel)
  }

  lemma Counts(regionCount: map<string, nat>, sel: seq<Cand>, c: Cand)
    requires Counted(regionCount, sel)
    ensures var region := RegionOf(c);
      var n := if region in regionCount then regionCount[region] else 0;
      n == CountIn(region, sel) && Counted(regionCount[region := n + 1], sel + [c])
  {
    assert (sel + [c])[..|sel|] == sel;
  }

  lemma Records(sel: seq<Cand>, c: Cand, selected: seq<Text>, selectedSet: set<Text>)
    requires Recorded(sel, selected, selectedSet)
    ensures Recorded(sel + [c], selected + [c.tipId], selectedSet + {c.tipId})
  {
    var next := sel + [c];
    assert next[..|next| - 1] == sel;
    forall id ensures id in selectedSet + {c.tipId} <==> exists i | 0 <= i < |next| :: next[i].tipId == id {
      if id == c.tipId {
        assert next[|sel|].tipId == id;
      } else if id in selectedSet {
        var i :| 0 <= i < |sel| && sel[i].tipId == id;
        assert next[i].tipId == id;
      }
    }
  }

  /** The body of passes 2 and later. */
  method AddPass(ghost start: seq<Cand>, cands: seq<Cand>, count: nat, floor: int, selected0: seq<Text>, selectedSet0: set<Text>)
    returns (selected: seq<Text>, selectedSet: set<Text>, full: bool, ghost sel: seq<Cand>)
    requires Distinct(cands) && Selection(start, cands, SeatLimit(cands, count)) && |start| < SeatLimit(cands, count)
    requires Recorded(start, selected0, selectedSet0)
    ensures sel == FloorPass(start, cands, SeatLimit(cands, count), floor)
    ensures Recorded(sel, selected, selectedSet) && Selection(sel, cands, SeatLimit(cands, count))
    ensures |sel| <= SeatLimit(cands, count) && (full <==> |sel| == SeatLimit(cands, count))
  {
    ghost var limit := SeatLimit(cands, count);
    FloorPassResult(start, cands, cands, limit, floor);
    selected, selectedSet, full, sel := selected0, selectedSet0, false, start;
    for i := 0 to |cands|
      invariant sel == FloorPass(start, cands[..i], limit, floor)
      invariant |sel| < limit && Recorded(sel, selected, selectedSet) && !full
    {
      var c := cands[i];
      assert cands[..i + 1][..i] == cands[..i];
      assert c.tipId in selectedSet <==> Taken(c, sel);
      if c.tipId in selectedSet || !Reaches(c, floor) {
        continue;
      }
      Records(sel, c, selected, selectedSet);
      sel := sel + [c];
      selected := selected + [c.tipId];
      selectedSet := selectedSet + {c.tipId};
      FloorPassResult(start, cands, cands[..i + 1], limit, floor);
      SelectionSize(sel, cands, limit);
      if |selected| == count {
        FloorPassFull(start, cands, i + 1, limit, floor);
        full := true;
        return;
      }
    }
    assert cands[..|cands|] == cands;
  }

  lemma {:induction false} CappedPassFull(cands: seq<Cand>, n: nat, count: nat, cap: int, floor: int)
    requires n <= |cands| && |CappedPass(cands[..n], count, cap, floor)| == count
    ensures CappedPass(cands, count, cap, floor) == CappedPass(cands[..n], count, cap, floor)
  {
    hide Reaches, CountIn, RegionOf;
    if n == |cands| {
      assert cands[..n] == cands;
    } else {
      var m := |cands| - 1;
      assert cands[..m][..n] == cands[..n];
      CappedPassFull(cands[..m], n, count, cap, floor);
    }
  }

  lemma {:induction false} FloorPassFull(start: seq<Cand>, cands: seq<Cand>, n: nat, count: nat, floor: int)
    requires n <= |cands| && |FloorPass(start, cands[..n], count, floor)| == count
    ensures FloorPass(start, cands, count, floor) == FloorPass(start, cands[..n], count, floor)
  {
    hide Reaches, Taken;
    if n == |cands| {
      assert cands[..n] == cands;
    } else {
      var m := |cands| - 1;
      assert cands[..m][..n] == cands[..n];
      FloorPassFull(start, cands[..m], n, count, floor);
    }
  }

  lemma {:induction false} FullCascade(start: seq<Cand>, cands: seq<Cand>, count: nat, current: int, floors: seq<int>)
    requires |start| == count
    ensures Cascade(start, cands, count, current, floors) == start
    decreases |floors|
  {
    if floors != [] {
      assert cands[..0] == [];
      FloorPassFull(start, cands, 0, count, floors[0]);
      FullCascade(start, cands, count, if floors[0] >= current then current else floors[0], floors[1..]);
    }
  }

  lemma PickStops(cands: seq<Cand>, count: nat, cap: int, minScore: int, floors: seq<int>)
    ensures var first := CappedPass(cands, count, cap, minScore);
      && (|first| == count ==> Pick(cands, count, cap, minScore, floors) == first)
      && var second := FloorPass(first, cands, count, minScore);
         |second| == count ==> Pick(cands, count, cap, minScore, floors) == second
  {
    var first := CappedPass(cands, count, cap, minScore);
    var second := FloorPass(first, cands, count, minScore);
    assert cands[..0] == [];
    if |first| == count {
      FloorPassFull(first, cands, 0, count, minScore);
    }
    if |second| == count {
      FullCascade(second, cands, count, minScore, floors);
    }
  }
}
