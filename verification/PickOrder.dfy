/** In a pick the drawn order decides among equals: whoever comes first is taken first (node/src/jury.js). */
module PickOrder {
  import opened Common
  import opened Texts
  import opened Panel

  /** One candidate reaches every floor that the other reaches; no score counts as infinite. */
  predicate AtLeastAsGood(c: Cand, d: Cand) {
    c.score.None? || (d.score.Some? && c.score.value >= d.score.value)
  }

  /** Want of a region counts as the region XX. */
  function OnRecord(region: string): string {
    if region == "" then "XX" else region
  }

  /** The first of the two is no stranger to the list and comes ahead of the second, with no worse a score and
      from the same region. */
  ghost predicate Ahead(cands: seq<Cand>, i: nat, j: nat) {
    i < j < |cands| && OnRecord(cands[i].region) == OnRecord(cands[j].region) && AtLeastAsGood(cands[i], cands[j])
  }

  ghost predicate InTurn(sel: seq<Cand>, c: Cand, d: Cand) {
    d in sel ==> c in sel
  }

  lemma {:induction false} CappedInTurn(cands: seq<Cand>, count: nat, cap: int, floor: int, i: nat, j: nat)
    requires Distinct(cands) && Ahead(cands, i, j)
    ensures InTurn(CappedPass(cands, count, cap, floor), cands[i], cands[j])
  {
    var n := |cands| - 1;
    var before, last := cands[..n], cands[n];
    DistinctPrefix(cands, n);
    CappedPassSaturates(before, count, cap, floor);
    CappedPassResult(before, count, cap, floor);
    if j < n {
      CappedInTurn(before, count, cap, floor, i, j);
      assert cands[j] != last;
    } else {
      assert before[i] == cands[i] && cands[i] in before;
      assert last !in before;
    }
  }

  lemma {:induction false} FloorInTurn(start: seq<Cand>, cands: seq<Cand>, some: seq<Cand>, count: nat, floor: int, i: nat, j: nat)
    requires Distinct(cands) && Selection(start, cands, count) && some <= cands && Ahead(some, i, j)
    requires InTurn(start, some[i], some[j])
    ensures InTurn(FloorPass(start, some, count, floor), some[i], some[j])
  {
    var n := |some| - 1;
    var before, last := some[..n], some[n];
    FloorPassResult(start, cands, before, count, floor);
    if j < n {
      FloorInTurn(start, cands, before, count, floor, i, j);
      assert some[j] != last;
    } else {
      assert before[i] == some[i] && some[i] in before;
      LaterIsNew(start, cands, before, count, floor, last);
    }
  }

  /** A pass holds nobody beyond the part of the list it has seen, but for those it started with. */
  lemma LaterIsNew(start: seq<Cand>, cands: seq<Cand>, before: seq<Cand>, count: nat, floor: int, last: Cand)
    requires Distinct(cands) && before + [last] <= cands && Selection(start, cands, count)
    ensures last in FloorPass(start, before, count, floor) ==> last in start
  {
    SeenOnly(start, before, count, floor);
    assert cands[|before|] == last && forall k | 0 <= k < |before| :: cands[k] == before[k];
    assert last !in before;
  }

  lemma {:induction false} SeenOnly(start: seq<Cand>, some: seq<Cand>, count: nat, floor: int)
    ensures forall c | c in FloorPass(start, some, count, floor) :: c in start || c in some
  {
    if some != [] {
      SeenOnly(start, some[..|some| - 1], count, floor);
      hide Reaches, Taken;
    }
  }

  lemma {:induction false} CascadeInTurn(start: seq<Cand>, cands: seq<Cand>, count: nat, current: int, floors: seq<int>, i: nat, j: nat)
    requires Distinct(cands) && Selection(start, cands, count) && Ahead(cands, i, j) && InTurn(start, cands[i], cands[j])
    ensures InTurn(Cascade(start, cands, count, current, floors), cands[i], cands[j])
    decreases |floors|
  {
    if floors != [] {
      if floors[0] >= current {
        CascadeInTurn(start, cands, count, current, floors[1..], i, j);
      } else {
        FloorPassResult(start, cands, cands, count, floors[0]);
        FloorInTurn(start, cands, cands, count, floors[0], i, j);
        hide FloorPass, Ahead, InTurn, PassResult, Selection;
        CascadeInTurn(FloorPass(start, cands, count, floors[0]), cands, count, floors[0], floors[1..], i, j);
      }
    }
  }

  /** Nobody sits while somebody of the same region and no worse a score, who was drawn earlier, is passed over. */
  lemma PickInTurn(cands: seq<Cand>, count: nat, cap: int, minScore: int, floors: seq<int>, i: nat, j: nat)
    requires Distinct(cands) && Ahead(cands, i, j)
    ensures cands[j] in Pick(cands, count, cap, minScore, floors) ==> cands[i] in Pick(cands, count, cap, minScore, floors)
  {
    var first := CappedPass(cands, count, cap, minScore);
    CappedInTurn(cands, count, cap, minScore, i, j);
    CappedPassResult(cands, count, cap, minScore);
    FloorInTurn(first, cands, cands, count, minScore, i, j);
    FloorPassResult(first, cands, cands, count, minScore);
    hide CappedPass, FloorPass, Selection, PassResult, Ahead;
    CascadeInTurn(FloorPass(first, cands, count, minScore), cands, count, minScore, floors, i, j);
  }

  // ---------------------------------------------------------------- the simple case

  lemma {:induction false} CountAtMost(region: string, cands: seq<Cand>)
    ensures CountIn(region, cands) <= |cands|
  {
    if cands != [] {
      CountAtMost(region, cands[..|cands| - 1]);
    }
  }

  function FirstOf(cands: seq<Cand>, count: nat): seq<Cand> {
    if |cands| < count then cands else cands[..count]
  }

  lemma FirstOfMore(cands: seq<Cand>, count: nat)
    requires cands != []
    ensures var n := |cands| - 1;
      FirstOf(cands, count) == if n >= count then FirstOf(cands[..n], count) else FirstOf(cands[..n], count) + [cands[n]]
  {
    var n := |cands| - 1;
    if n >= count {
      assert cands[..n][..count] == cands[..count];
    } else {
      assert cands == cands[..n] + [cands[n]];
    }
  }

  lemma {:induction false} CappedTakesFirst(cands: seq<Cand>, count: nat, cap: int, floor: int)
    requires cap >= count && forall i | 0 <= i < |cands| :: Reaches(cands[i], floor)
    ensures CappedPass(cands, count, cap, floor) == FirstOf(cands, count)
  {
    if cands != [] {
      hide CountIn, Reaches, RegionOf;
      var n := |cands| - 1;
      CappedTakesFirst(cands[..n], count, cap, floor);
      FirstOfMore(cands, count);
      CountAtMost(RegionOf(cands[n]), FirstOf(cands[..n], count));
    }
  }

  /** Where everybody reaches the main floor and no region can reach the cap, the panel is the first of the
      drawn order, in that order. */
  lemma PickTakesFirst(cands: seq<Cand>, count: nat, cap: int, minScore: int, floors: seq<int>)
    requires count <= |cands| && cap >= count && forall i | 0 <= i < |cands| :: Reaches(cands[i], minScore)
    ensures Pick(cands, count, cap, minScore, floors) == cands[..count]
  {
    CappedTakesFirst(cands, count, cap, minScore);
    PickStops(cands, count, cap, minScore, floors);
    hide CappedPass, FloorPass, Pick;
    assert |cands| == count ==> cands[..count] == cands;
  }

  /** The lowest floor is the least of the main one and the others. */
  lemma {:induction false} LowestIsLeast(current: int, floors: seq<int>)
    ensures var low := LowestFloor(current, floors);
      (low == current || low in floors) && low <= current && forall f | f in floors :: low <= f
    decreases |floors|
  {
    if floors != [] {
      LowestIsLeast(if floors[0] < current then floors[0] else current, floors[1..]);
      assert forall f :: f in floors <==> f == floors[0] || f in floors[1..];
    }
  }
}
