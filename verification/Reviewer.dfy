/** Who reviews a flagged item: node/src/reviewer-selection.js. */
module Reviewer {
  import opened Common
  import opened Score
  import opened Texts
  import opened Panel
  import opened Reviews
  import Selection

  /** What the selection reads besides the identities: each reviewer's records, latest first, and the
      first verdict on an item. */
  datatype History = History(records: Text -> seq<Review>, verdict: string -> Option<Verdict>)

  datatype Rules = Rules(minScore: int, fallback: int, maxOverturnRate: real, accuracySample: nat, maxNoShows: int,
      noShowSample: nat)

  // ---------------------------------------------------------------- availability

  predicate Resolved(r: Review) {
    !r.state.Triggered? && !r.state.Confirmed? && !r.state.ClaimedOver?
  }

  predicate NoShow(r: Review) {
    r.state.Recused? && r.slaExpired
  }

  function Filter(rs: seq<Review>, p: Review -> bool): seq<Review> {
    if rs == [] then [] else Filter(rs[..|rs| - 1], p) + if p(rs[|rs| - 1]) then [rs[|rs| - 1]] else []
  }

  function First(rs: seq<Review>, n: nat): seq<Review> {
    if |rs| <= n then rs else rs[..n]
  }

  /** The no-shows among the latest resolved assignments. */
  function NoShows(rs: seq<Review>, sample: nat): nat {
    |Filter(First(Filter(rs, Resolved), sample), NoShow)|
  }

  lemma {:induction false} FilterGrows(rs: seq<Review>, p: Review -> bool, n: nat)
    requires n <= |rs|
    ensures Filter(rs[..n], p) <= Filter(rs, p)
  {
    if n < |rs| {
      assert rs[..|rs| - 1][..n] == rs[..n];
      FilterGrows(rs[..|rs| - 1], p, n);
    } else {
      assert rs[..n] == rs;
    }
  }

  lemma FilterNext(rs: seq<Review>, p: Review -> bool, n: nat)
    requires n < |rs|
    ensures Filter(rs[..n + 1], p) == if p(rs[n]) then Filter(rs[..n], p) + [rs[n]] else Filter(rs[..n], p)
  {
    assert rs[..n + 1][..n] == rs[..n];
  }

  /** A sample that is full stays as it is, however much history follows. */
  lemma FullSample(rs: seq<Review>, p: Review -> bool, n: nat, sample: nat)
    requires n <= |rs| && |Filter(rs[..n], p)| == sample
    ensures First(Filter(rs, p), sample) == Filter(rs[..n], p)
  {
    FilterGrows(rs, p, n);
  }

  /** Open and claimed-over assignments are neutral: they neither count nor use up the sample. */
  method CountNoShows(assignments: seq<Review>, sample: nat) returns (noShows: nat)
    ensures noShows == NoShows(assignments, sample)
  {
    var counted := 0;
    noShows := 0;
    for n := 0 to |assignments|
      invariant counted == |Filter(assignments[..n], Resolved)| <= sample
      invariant noShows == |Filter(Filter(assignments[..n], Resolved), NoShow)|
    {
      if counted >= sample {
        FullSample(assignments, Resolved, n, sample);
        return;
      }
      var review := assignments[n];
      FilterNext(assignments, Resolved, n);
      if review.state.Triggered? || review.state.Confirmed? || review.state.ClaimedOver? {
        continue;
      }
      FilterSnoc(Filter(assignments[..n], Resolved), review, NoShow);
      counted := counted + 1;
      if review.state.Recused? && review.slaExpired {
        noShows := noShows + 1;
      }
    }
    assert assignments[..|assignments|] == assignments;
  }

  lemma FilterSnoc(rs: seq<Review>, r: Review, p: Review -> bool)
    ensures Filter(rs + [r], p) == if p(r) then Filter(rs, p) + [r] else Filter(rs, p)
  {
    assert (rs + [r])[..|rs|] == rs;
  }

  lemma {:induction false} FilterConcat(a: seq<Review>, b: seq<Review>, p: Review -> bool)
    ensures Filter(a + b, p) == Filter(a, p) + Filter(b, p)
  {
    if b == [] {
      assert a + b == a;
    } else {
      FilterConcat(a, b[..|b| - 1], p);
      assert (a + b)[..|a + b| - 1] == a + b[..|b| - 1];
    }
  }

  /** An open or claimed-over assignment anywhere in the history changes nothing. */
  lemma NeutralSlot(a: seq<Review>, r: Review, b: seq<Review>, sample: nat)
    requires !Resolved(r)
    ensures NoShows(a + [r] + b, sample) == NoShows(a + b, sample)
  {
    FilterConcat(a + [r], b, Resolved);
    FilterConcat(a, b, Resolved);
    FilterSnoc(a, r, Resolved);
  }

  // ---------------------------------------------------------------- accuracy

  /** Decisions whose outcome is known. */
  function Determined(verdict: string -> Option<Verdict>): Review -> bool {
    (r: Review) => r.state.ClosedAcceptedPrivate?
      || ((r.state.ClosedDismissed? || r.state.EscalatedToDispute?) && verdict(r.ctid).Some?)
  }

  /** The reviewer's call agreed with the outcome. */
  function Agreed(verdict: string -> Option<Verdict>): Review -> bool {
    (r: Review) => r.state.ClosedAcceptedPrivate?
      || (r.state.ClosedDismissed? && verdict(r.ctid) == Some(Dismissed))
      || (r.state.EscalatedToDispute? && (verdict(r.ctid) == Some(Upheld) || verdict(r.ctid) == Some(ConservativeLabel)))
  }

  /** The share of right calls among the latest decisions with a known outcome; all right if there is none. */
  function Accuracy(rs: seq<Review>, verdict: string -> Option<Verdict>, sample: nat): real {
    var known := First(Filter(rs, Determined(verdict)), sample);
    if known == [] then 1.0 else |Filter(known, Agreed(verdict))| as real / |known| as real
  }

  method MeasureAccuracy(decisions: seq<Review>, verdict: string -> Option<Verdict>, sample: nat) returns (accuracy: real)
    ensures accuracy == Accuracy(decisions, verdict, sample)
  {
    if decisions == [] {
      return 1.0;
    }
    var evaluated, correct := CountDecisions(decisions, verdict, sample);
    if evaluated == 0 {
      return 1.0;
    }
    return correct as real / evaluated as real;
  }

  method CountDecisions(decisions: seq<Review>, verdict: string -> Option<Verdict>, sample: nat) returns (evaluated: nat,
      correct: nat)
    ensures var known := First(Filter(decisions, Determined(verdict)), sample);
      evaluated == |known| && correct == |Filter(known, Agreed(verdict))|
  {
    evaluated, correct := 0, 0;
    var determined, right := Determined(verdict), Agreed(verdict);
    for n := 0 to |decisions|
      invariant evaluated == |Filter(decisions[..n], determined)| <= sample
      invariant correct == |Filter(Filter(decisions[..n], determined), right)|
    {
      if evaluated >= sample {
        FullSample(decisions, determined, n, sample);
        return;
      }
      var review := decisions[n];
      FilterNext(decisions, determined, n);
      FilterSnoc(Filter(decisions[..n], determined), review, right);
      assert right(review) ==> determined(review);
      hide Filter, First;
      if review.state.ClosedAcceptedPrivate? {
        evaluated, correct := evaluated + 1, correct + 1;
        continue;
      }
      if !review.state.ClosedDismissed? && !review.state.EscalatedToDispute? {
        continue;
      }
      var v := verdict(review.ctid);
      if v.None? {
        continue;
      }
      evaluated := evaluated + 1;
      if review.state.ClosedDismissed? {
        if v.value.Dismissed? {
          correct := correct + 1;
        }
      } else if v.value.Upheld? || v.value.ConservativeLabel? {
        correct := correct + 1;
      }
    }
    assert decisions[..|decisions|] == decisions;
  }

  // ---------------------------------------------------------------- eligibility

  predicate HardFilters(net: Selection.Network, h: History, k: Rules, id: Selection.Identity, author: Text) {
    && id.tipId != [] && !(author != [] && id.tipId == author)
    && Selection.TypeOf(id) == Selection.PERSONAL && id.reviewerConsent && id.tipId !in net.revoked
    && NoShows(h.records(id.tipId), k.noShowSample) <= k.maxNoShows
  }

  predicate Accurate(h: History, k: Rules, tipId: Text) {
    Accuracy(h.records(tipId), h.verdict, k.accuracySample) >= 1.0 - k.maxOverturnRate
  }

  function Lookup(ids: seq<Selection.Identity>, tipId: Text): Option<Selection.Identity> {
    if ids == [] then None
    else if ids[0].tipId == tipId then Some(ids[0])
    else Lookup(ids[1..], tipId)
  }

  /** isEligibleReviewer: the same questions, cheapest first, about one tip id. */
  method IsEligibleReviewer(net: Selection.Network, h: History, k: Rules, tipId: Text, author: Text) returns (eligible: bool)
    requires Selection.Registry(net)
    ensures eligible <==> exists c :: c in Pool(net, h, k, author, 1) && c.tipId == tipId
  {
    PoolMembers(net, h, k, author, 1, tipId);
    if tipId == [] || (author != [] && tipId == author) {
      return false;
    }
    var identity := Lookup(net.identities, tipId);
    LookupFinds(net.identities, tipId);
    hide Pool, Accuracy, NoShows, Selection.Registry;
    if identity.None? {
      return false;
    }
    var id := identity.value;
    if Selection.TypeOf(id) != Selection.PERSONAL || !id.reviewerConsent || tipId in net.revoked {
      return false;
    }
    var noShows := CountNoShows(h.records(tipId), k.noShowSample);
    if noShows > k.maxNoShows || net.score(tipId) < k.minScore {
      return false;
    }
    var accuracy := MeasureAccuracy(h.records(tipId), h.verdict, k.accuracySample);
    return !(accuracy < 1.0 - k.maxOverturnRate);
  }

  lemma {:induction false} LookupFinds(ids: seq<Selection.Identity>, tipId: Text)
    requires DistinctKeys(ids, Selection.IdentityKey())
    ensures var r := Lookup(ids, tipId);
      && (r.Some? ==> r.value in ids && r.value.tipId == tipId)
      && forall id | id in ids && id.tipId == tipId :: r == Some(id)
  {
    if ids != [] {
      Selection.DistinctHead(ids, []);
      LookupFinds(ids[1..], tipId);
      if ids[0].tipId == tipId {
        forall id | id in ids && id.tipId == tipId ensures id == ids[0] {
          var i :| 0 <= i < |ids| && ids[i] == id;
          assert Selection.IdentityKey()(ids[0]) == Selection.IdentityKey()(ids[i]);
        }
      }
    }
  }

  // ---------------------------------------------------------------- selection

  function Passing(net: Selection.Network, h: History, k: Rules, ids: seq<Selection.Identity>,
      author: Text): seq<Selection.Identity> {
    if ids == [] then []
    else (if HardFilters(net, h, k, ids[0], author) then [ids[0]] else []) + Passing(net, h, k, ids[1..], author)
  }

  function Baseline(net: Selection.Network, h: History, k: Rules, author: Text): seq<Cand> {
    Sort(Selection.Scored(net, Passing(net, h, k, net.identities, author)), IdOf())
  }

  /** The conditions of the three passes. */
  predicate Qualifies(h: History, k: Rules, c: Cand, pass: nat) {
    match pass
    case 1 => Reaches(c, k.minScore) && Accurate(h, k, c.tipId)
    case 2 => Reaches(c, k.minScore)
    case _ => Reaches(c, k.fallback)
  }

  function Kept(h: History, k: Rules, cands: seq<Cand>, pass: nat): seq<Cand> {
    if cands == [] then []
    else (if Qualifies(h, k, cands[0], pass) then [cands[0]] else []) + Kept(h, k, cands[1..], pass)
  }

  function Pool(net: Selection.Network, h: History, k: Rules, author: Text, pass: nat): seq<Cand> {
    Kept(h, k, Baseline(net, h, k, author), pass)
  }

  datatype Assignment = Assignment(reviewer: Option<Text>, poolSize: nat, pass: nat)

  /** selectReviewer for a given seed. */
  function Assign(net: Selection.Network, h: History, k: Rules, author: Text, seed: Selection.Seed): Assignment {
    if Pool(net, h, k, author, 1) != [] then PickFrom(Pool(net, h, k, author, 1), seed, 1)
    else if Pool(net, h, k, author, 2) != [] then PickFrom(Pool(net, h, k, author, 2), seed, 2)
    else if Pool(net, h, k, author, 3) != [] then PickFrom(Pool(net, h, k, author, 3), seed, 3)
    else Assignment(None, 0, 0)
  }

  function PickFrom(cands: seq<Cand>, seed: Selection.Seed, pass: nat): Assignment
    requires cands != []
  {
    ShufflePermutes(cands, seed);
    Assignment(Some(Shuffled(cands, seed)[0].tipId), |cands|, pass)
  }

  lemma {:induction false} PassingElements(net: Selection.Network, h: History, k: Rules, ids: seq<Selection.Identity>,
      author: Text)
    ensures forall id :: id in Passing(net, h, k, ids, author) <==> id in ids && HardFilters(net, h, k, id, author)
    ensures DistinctKeys(ids, Selection.IdentityKey()) ==> DistinctKeys(Passing(net, h, k, ids, author), Selection.IdentityKey())
  {
    if ids != [] {
      PassingElements(net, h, k, ids[1..], author);
      assert forall id :: id in ids <==> id == ids[0] || id in ids[1..];
      hide HardFilters;
      if DistinctKeys(ids, Selection.IdentityKey()) {
        Selection.DistinctHead(ids, Passing(net, h, k, ids[1..], author));
      }
    }
  }

  lemma {:induction false} KeptElements(h: History, k: Rules, cands: seq<Cand>, pass: nat)
    ensures forall c :: c in Kept(h, k, cands, pass) <==> c in cands && Qualifies(h, k, c, pass)
  {
    if cands != [] {
      KeptElements(h, k, cands[1..], pass);
      hide Qualifies;
    }
  }

  lemma BaselineIs(net: Selection.Network, h: History, k: Rules, author: Text)
    requires Selection.Registry(net)
    ensures StrictlySorted(Baseline(net, h, k, author), IdOf())
    ensures forall c :: c in Baseline(net, h, k, author) <==>
      exists id :: id in net.identities && HardFilters(net, h, k, id, author) && c == Selection.CandOf(net, id)
  {
    var ids := Passing(net, h, k, net.identities, author);
    PassingElements(net, h, k, net.identities, author);
    Selection.ScoredCandidates(net, ids);
    var scored := Selection.Scored(net, ids);
    hide Passing, Selection.Scored, HardFilters, Sort;
    SortElements(scored, IdOf());
    SortSorted(scored, IdOf());
  }

  /** A tip id is in the pool of a pass exactly if it is registered, passes every hard filter, and meets
      the conditions of the pass. */
  lemma PoolMembers(net: Selection.Network, h: History, k: Rules, author: Text, pass: nat, tipId: Text)
    requires Selection.Registry(net)
    ensures (exists c :: c in Pool(net, h, k, author, pass) && c.tipId == tipId) <==>
      exists id :: id in net.identities && id.tipId == tipId && HardFilters(net, h, k, id, author)
                   && Qualifies(h, k, Selection.CandOf(net, id), pass)
  {
    BaselineIs(net, h, k, author);
    KeptElements(h, k, Baseline(net, h, k, author), pass);
    hide Baseline, Kept, HardFilters, Qualifies, Selection.Registry;
    if c :| c in Pool(net, h, k, author, pass) && c.tipId == tipId {
      var id :| id in net.identities && HardFilters(net, h, k, id, author) && c == Selection.CandOf(net, id);
      assert id.tipId == tipId;
    }
    if id :| id in net.identities && id.tipId == tipId && HardFilters(net, h, k, id, author)
             && Qualifies(h, k, Selection.CandOf(net, id), pass) {
      assert Selection.CandOf(net, id) in Pool(net, h, k, author, pass);
    }
  }

  /** The assignment does not depend on the order in which the store lists the identities. */
  lemma AssignmentForgetsOrder(a: Selection.Network, b: Selection.Network, h: History, k: Rules, author: Text,
      seed: Selection.Seed)
    requires Selection.SameRegistry(a, b)
    ensures Assign(a, h, k, author, seed) == Assign(b, h, k, author, seed)
  {
    BaselineIs(a, h, k, author);
    BaselineIs(b, h, k, author);
    assert forall id :: HardFilters(a, h, k, id, author) <==> HardFilters(b, h, k, id, author);
    assert forall id :: Selection.CandOf(a, id) == Selection.CandOf(b, id);
    hide Baseline, HardFilters, Selection.Registry, PickFrom;
    SortedUnique(Baseline(a, h, k, author), Baseline(b, h, k, author), IdOf());
  }

  /** The first pass with anybody in it assigns one of them; which pass that is and how many there were
      to choose from is the same for every seed. */
  lemma AssignsFromFirstPass(net: Selection.Network, h: History, k: Rules, author: Text, seed: Selection.Seed)
    ensures var r := Assign(net, h, k, author, seed);
      && (r.pass == 0 ==> r.reviewer.None? && forall p | 1 <= p <= 3 :: Pool(net, h, k, author, p) == [])
      && (r.pass != 0 ==>
            && 1 <= r.pass <= 3 && r.poolSize == |Pool(net, h, k, author, r.pass)| > 0
            && (forall p | 1 <= p < r.pass :: Pool(net, h, k, author, p) == [])
            && r.reviewer.Some? && exists c :: c in Pool(net, h, k, author, r.pass) && c.tipId == r.reviewer.value)
  {
    hide Pool, PickFrom;
    forall p | 1 <= p <= 3 && Pool(net, h, k, author, p) != []
      ensures var r := PickFrom(Pool(net, h, k, author, p), seed, p);
        && r.poolSize == |Pool(net, h, k, author, p)| && r.pass == p && r.reviewer.Some?
        && exists c :: c in Pool(net, h, k, author, p) && c.tipId == r.reviewer.value
    {
      PicksOneOf(Pool(net, h, k, author, p), seed, p);
    }
    var r := Assign(net, h, k, author, seed);
    assert r.pass == 0 || r.pass == 1 || r.pass == 2 || r.pass == 3;
  }

  lemma PicksOneOf(cands: seq<Cand>, seed: Selection.Seed, pass: nat)
    requires cands != []
    ensures var r := PickFrom(cands, seed, pass);
      r.poolSize == |cands| && r.pass == pass && r.reviewer.Some? && exists c :: c in cands && c.tipId == r.reviewer.value
  {
    ShufflePermutes(cands, seed);
    assert Shuffled(cands, seed)[0] in cands;
  }
}
