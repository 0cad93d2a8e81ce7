/** The chain's own view of score entries, as texts on many items at once (node/src/consensus/commit-handler.js). */
module Chain {
  // Arriving entries are held against everything accepted so far. The dispute ledger of this project is what
  // the chain shows of one item, and first-wins dropping by text is first-wins dropping by reason.

  import opened Ledger
  import opened ReasonTexts
  import opened Episodes
  import opened EntryKeys
  import opened Landing
  import RegCredit
  import Settlement
  import Tribunal

  /** A committed SCORE_UPDATE; a missing field is "". */
  datatype Posted = Posted(tip: string, ctid: string, reason: string, delta: int, timestamp: int)

  predicate SamePost(u: Posted, v: Posted) {
    u.tip == v.tip && u.ctid == v.ctid && u.reason == v.reason
  }

  predicate Present(log: seq<Posted>, u: Posted) {
    exists i | 0 <= i < |log| :: SamePost(log[i], u)
  }

  /** The registration credit cap, as a verdict on an entry given the log. */
  type Cap = (seq<Posted>, Posted) -> bool

  predicate Refused(log: seq<Posted>, u: Posted, capped: Cap) {
    u.tip != "" && u.reason != "" && (Present(log, u) || capped(log, u))
  }

  /** The log after entries arrive one by one. */
  function Arrive(log: seq<Posted>, arriving: seq<Posted>, capped: Cap): seq<Posted> {
    if arriving == [] then log else
    var before, u := Arrive(log, arriving[..|arriving| - 1], capped), arriving[|arriving| - 1];
    if Refused(before, u, capped) then before else before + [u]
  }

  /** The validation of a batch: each entry is held against the log and the part accepted so far. */
  method Accept(log: seq<Posted>, arriving: seq<Posted>, capped: Cap) returns (validated: seq<Posted>)
    ensures log + validated == Arrive(log, arriving, capped)
  {
    validated := [];
    for n := 0 to |arriving|
      invariant log + validated == Arrive(log, arriving[..n], capped)
    {
      var u := arriving[n];
      assert arriving[..n + 1][..n] == arriving[..n];
      PresentAppend(log, validated, u);
      if u.tip != "" && u.reason != "" {
        if Present(log, u) || Present(validated, u) || capped(log + validated, u) {
          continue;
        }
      }
      assert log + (validated + [u]) == log + validated + [u];
      validated := validated + [u];
    }
    assert arriving[..|arriving|] == arriving;
  }

  lemma PresentAppend(a: seq<Posted>, b: seq<Posted>, u: Posted)
    ensures Present(a + b, u) <==> Present(a, u) || Present(b, u)
  {
    if i :| 0 <= i < |a| && SamePost(a[i], u) {
      assert SamePost((a + b)[i], u);
    }
    if i :| 0 <= i < |b| && SamePost(b[i], u) {
      assert SamePost((a + b)[|a| + i], u);
    }
  }

  /** What becomes of one more entry: with a person and a reason it is dropped exactly if the same person has
      an entry on that item for that reason or the cap is reached; without either it always lands. */
  lemma NextArrives(log: seq<Posted>, arriving: seq<Posted>, u: Posted, capped: Cap)
    ensures var before := Arrive(log, arriving, capped);
      var repeated := exists p :: p in before && p.tip == u.tip && p.ctid == u.ctid && p.reason == u.reason;
      Arrive(log, arriving + [u], capped) ==
        if u.tip != "" && u.reason != "" && (repeated || capped(before, u)) then before else before + [u]
  {
    var before := Arrive(log, arriving, capped);
    assert (arriving + [u])[..|arriving|] == arriving;
    if p :| p in before && p.tip == u.tip && p.ctid == u.ctid && p.reason == u.reason {
      var i :| 0 <= i < |before| && before[i] == p;
      assert SamePost(before[i], u);
    }
    if Present(before, u) {
      var i :| 0 <= i < |before| && SamePost(before[i], u);
      assert before[i] in before;
    }
  }

  // ---------------------------------------------------------------- one item of the chain

  function OfItem(log: seq<Posted>, ctid: string): seq<Posted> {
    if log == [] then [] else
    OfItem(log[..|log| - 1], ctid) + if log[|log| - 1].ctid == ctid then [log[|log| - 1]] else []
  }

  lemma {:induction false} OwnItem(log: seq<Posted>, u: Posted)
    ensures Present(log, u) <==> Present(OfItem(log, u.ctid), u)
  {
    if log != [] {
      var before, last := log[..|log| - 1], log[|log| - 1];
      assert log == before + [last];
      OwnItem(before, u);
      PresentAppend(before, [last], u);
      PresentAppend(OfItem(before, u.ctid), [last], u);
      if last.ctid != u.ctid {
        assert !Present([last], u);
        assert OfItem(before, u.ctid) + [] == OfItem(before, u.ctid);
      }
    }
  }

  lemma OfItemSnoc(log: seq<Posted>, u: Posted, ctid: string)
    ensures OfItem(log + [u], ctid) == if u.ctid == ctid then OfItem(log, ctid) + [u] else OfItem(log, ctid)
  {
    assert (log + [u])[..|log|] == log;
  }

  ghost predicate RendersOne(ctid: string, p: Posted, u: Update) {
    p.ctid == ctid && p.tip == u.tip && p.delta == u.delta && p.reason == Text(ctid, u.reason)
  }

  /** The posted entries are these entries of the item, spelled out; timestamps are free. */
  ghost predicate Renders(ctid: string, posts: seq<Posted>, us: seq<Update>) {
    |posts| == |us| && forall i | 0 <= i < |us| :: RendersOne(ctid, posts[i], us[i])
  }

  /** Reasons from elsewhere are spelled like none of a dispute's. */
  ghost predicate Clear(ctid: string, us: seq<Update>) {
    forall u | u in us && u.reason.Other? :: u.reason.text != "" && forall r: Reason | !r.Other? :: Text(ctid, r) != u.reason.text
  }

  lemma KeysAreTexts(ctid: string, u: Update, v: Update)
    requires Clear(ctid, [u, v])
    ensures SameKey(u, v) <==> u.tip == v.tip && Text(ctid, u.reason) == Text(ctid, v.reason)
  {
    assert u in [u, v] && v in [u, v];
    if !u.reason.Other? && !v.reason.Other? {
      TextsDiffer(ctid, u.reason, v.reason);
    }
  }

  lemma HeldAsPosted(ctid: string, posts: seq<Posted>, us: seq<Update>, p: Posted, u: Update)
    requires Renders(ctid, posts, us) && RendersOne(ctid, p, u) && Clear(ctid, us) && Clear(ctid, [u])
    ensures Present(posts, p) <==> Holds(us, u)
  {
    forall i | 0 <= i < |us| ensures SamePost(posts[i], p) <==> SameKey(us[i], u) {
      assert us[i] in us && u in [u];
      assert RendersOne(ctid, posts[i], us[i]);
      KeysAreTexts(ctid, us[i], u);
    }
  }

  /** A cap that looks at awards only. */
  ghost predicate CapsAwards(capped: Cap) {
    forall log, u :: capped(log, u) ==> RegCredit.AWARD_PREFIX <= u.reason
  }

  /** Entries of a dispute in progress: neither awards nor anything from elsewhere. */
  ghost predicate Procedural(us: seq<Update>) {
    forall u | u in us :: !u.reason.Other? && !u.reason.CreditAward?
  }

  lemma NeverEmpty(ctid: string, r: Reason)
    requires !r.Other?
    ensures Text(ctid, r) != ""
  {
    WordsLead(r);
    FirstLeads(0, Path(End(r)));
    WordStarts(Path(End(r))[0]);
    hide Path, End, Tail, Word, Leads, Initial, Next;
    assert |Spell(Path(End(r)))| >= |Word(Path(End(r))[0])|;
  }

  lemma ClearParts(ctid: string, us: seq<Update>, u: Update)
    requires Clear(ctid, us) && !u.reason.Other?
    ensures Clear(ctid, us + [u]) && Clear(ctid, [u])
  {
    assert forall v | v in us + [u] :: v in us || v == u;
  }

  /** On the chain, entries of a dispute fare as the ledger says: first wins, by reason. */
  lemma {:induction false} ArriveRefines(ctid: string, log: seq<Posted>, us: seq<Update>, posts: seq<Posted>, arriving: seq<Update>, capped: Cap)
    requires Renders(ctid, OfItem(log, ctid), us) && Renders(ctid, posts, arriving)
    requires Clear(ctid, us) && Procedural(arriving) && CapsAwards(capped)
    ensures Renders(ctid, OfItem(Arrive(log, posts, capped), ctid), FirstWins(us, arriving))
    ensures Clear(ctid, FirstWins(us, arriving))
    ensures forall other | other != ctid :: OfItem(Arrive(log, posts, capped), other) == OfItem(log, other)
  {
    if arriving != [] {
      var n := |arriving| - 1;
      assert arriving[n] in arriving && RendersOne(ctid, posts[n], arriving[n]);
      assert Renders(ctid, posts[..n], arriving[..n]) && Procedural(arriving[..n]);
      ArriveRefines(ctid, log, us, posts[..n], arriving[..n], capped);
      hide Renders, Clear, RendersOne, CapsAwards, OfItem, Holds, Present;
      OneArrivesRefined(ctid, Arrive(log, posts[..n], capped), FirstWins(us, arriving[..n]), posts[n], arriving[n], capped);
    }
  }

  lemma OneArrivesRefined(ctid: string, log: seq<Posted>, us: seq<Update>, p: Posted, u: Update, capped: Cap)
    requires Renders(ctid, OfItem(log, ctid), us) && RendersOne(ctid, p, u)
    requires Clear(ctid, us) && !u.reason.Other? && !u.reason.CreditAward? && CapsAwards(capped)
    ensures var after, next := if Refused(log, p, capped) then log else log + [p], if u.tip != "" && Holds(us, u) then us else us + [u];
      && Renders(ctid, OfItem(after, ctid), next) && Clear(ctid, next)
      && forall other | other != ctid :: OfItem(after, other) == OfItem(log, other)
  {
    ClearParts(ctid, us, u);
    NeverEmpty(ctid, u.reason);
    OwnItem(log, p);
    HeldAsPosted(ctid, OfItem(log, ctid), us, p, u);
    NotCapped(ctid, log, p, u, capped);
    forall other ensures OfItem(log + [p], other) == if p.ctid == other then OfItem(log, other) + [p] else OfItem(log, other) {
      OfItemSnoc(log, p, other);
    }
    hide Present, Holds, OfItem, Clear, Text, CapsAwards;
  }

  lemma NotCapped(ctid: string, log: seq<Posted>, p: Posted, u: Update, capped: Cap)
    requires RendersOne(ctid, p, u) && !u.reason.Other? && !u.reason.CreditAward? && CapsAwards(capped)
    ensures !capped(log, p)
  {
    hide Text, RegCredit.AWARD_PREFIX;
    if capped(log, p) {
      OnlyAwardsAward(ctid, u.reason);
    }
  }

  // ---------------------------------------------------------------- a dispute on the chain

  lemma ByRank(us: seq<Update>)
    requires forall u | u in us :: Rank(u.reason) != 40 && Rank(u.reason) != 41
    ensures Procedural(us)
  {}

  lemma BatchesProcedural(k: Settlement.Tariff, e: Episode)
    requires WellFormed(k, e)
    ensures Procedural(Entries2(k, e)) && Procedural(AppealFiling(k, e)) && Procedural(Entries3(k, e))
  {
    hide Entries2, Entries3, AppealFiling, Rank, WellFormed;
    JuryOrderly(k, e);
    JuryEntriesKinds(k, e);
    StakeKind(k, e);
    ByRank(Entries2(k, e));
    ByRank(AppealFiling(k, e));
    if e.appeal.Some? {
      ExpertEntriesKinds(k, e);
      ByRank(Entries3(k, e));
    } else {
      NoExperts(k, e);
    }
  }

  lemma JuryOrderly(k: Settlement.Tariff, e: Episode)
    requires WellFormed(k, e)
    ensures OrderlyBallot(e.jury)
  {}

  lemma NoExperts(k: Settlement.Tariff, e: Episode)
    requires e.appeal.None?
    ensures Entries3(k, e) == []
  {}

  lemma FiledClear(k: Settlement.Tariff, e: Episode, ctid: string)
    requires Clear(ctid, e.prior)
    ensures Clear(ctid, Filed(k, e))
  {
    hide Text;
    forall u | u in Filed(k, e) && u.reason.Other? ensures u in e.prior {}
  }

  /** A dispute's batches, posted one after the other, leave on the chain exactly what the ledger of the
      episode says, and nothing of any other item changes. */
  lemma EpisodeOnChain(k: Settlement.Tariff, e: Episode, ctid: string, chain: seq<Posted>,
                       jury: seq<Posted>, stake: seq<Posted>, experts: seq<Posted>, capped: Cap)
    requires WellFormed(k, e) && Clear(ctid, e.prior) && CapsAwards(capped)
    requires Renders(ctid, OfItem(chain, ctid), Filed(k, e)) && Renders(ctid, jury, Entries2(k, e))
    requires Renders(ctid, stake, AppealFiling(k, e)) && Renders(ctid, experts, Entries3(k, e))
    ensures var after := Arrive(Arrive(Arrive(chain, jury, capped), stake, capped), experts, capped);
      && Renders(ctid, OfItem(after, ctid), Landed(k, e))
      && forall other | other != ctid :: OfItem(after, other) == OfItem(chain, other)
  {
    hide Entries2, Entries3, AppealFiling, Filed, Renders, Clear, CapsAwards, WellFormed, OfItem, Arrive, FirstWins;
    BatchesProcedural(k, e);
    FiledClear(k, e, ctid);
    var after2 := Arrive(chain, jury, capped);
    ArriveRefines(ctid, chain, Filed(k, e), jury, Entries2(k, e), capped);
    var landed2 := FirstWins(Filed(k, e), Entries2(k, e));
    ArriveRefines(ctid, after2, landed2, stake, AppealFiling(k, e), capped);
    ArriveRefines(ctid, Arrive(after2, stake, capped), FirstWins(landed2, AppealFiling(k, e)), experts, Entries3(k, e), capped);
  }

  /** Nodes that submit the jury's batch side by side, in texts: whatever mixture of their entries arrives,
      the item ends with each entry of one batch once. */
  lemma CompetingOnChain(k: Settlement.Tariff, e: Episode, ctid: string, chain: seq<Posted>,
                         posts: seq<Posted>, mixture: seq<Update>, capped: Cap)
    requires WellFormed(k, e) && Clear(ctid, e.prior) && CapsAwards(capped)
    requires Renders(ctid, OfItem(chain, ctid), Filed(k, e)) && Renders(ctid, posts, mixture)
    requires forall u :: u in mixture <==> u in Entries2(k, e)
    ensures Renders(ctid, OfItem(Arrive(chain, posts, capped), ctid), FirstWins(Filed(k, e), mixture))
    ensures multiset(FirstWins(Filed(k, e), mixture)) == multiset(AfterJury(k, e))
  {
    hide Entries2, AppealFiling, Entries3, Filed, Renders, Clear, CapsAwards, WellFormed, OfItem, Arrive, FirstWins, AfterJury;
    BatchesProcedural(k, e);
    FiledClear(k, e, ctid);
    Tribunal.CompetingJuryBatches(k, e, mixture);
    ArriveRefines(ctid, chain, Filed(k, e), posts, mixture, capped);
  }

  ghost predicate DistinctPosts(posts: seq<Posted>) {
    forall i, j | 0 <= i < j < |posts| :: !SamePost(posts[i], posts[j])
  }

  /** The texts of an episode's entries, filing and both batches, are pairwise distinct per person exactly
      if the disputer is not refunded twice. */
  lemma TextsDistinctIff(k: Settlement.Tariff, e: Episode, ctid: string, posts: seq<Posted>)
    requires WellFormed(k, e) && Clear(ctid, e.prior) && Renders(ctid, posts, Appealed(k, e) + Entries3(k, e))
    ensures DistinctPosts(posts) <==> !RefundedTwice(k, e)
  {
    KeysDistinctIff(k, e);
    BatchesProcedural(k, e);
    FiledClear(k, e, ctid);
    hide WellFormed, Filed, Entries2, Entries3, AppealFiling, RefundedTwice;
    EpisodeClear(ctid, Filed(k, e), Entries2(k, e), AppealFiling(k, e), Entries3(k, e));
    DistinctAsPosted(ctid, posts, Appealed(k, e) + Entries3(k, e));
  }

  lemma EpisodeClear(ctid: string, filed: seq<Update>, jury: seq<Update>, stake: seq<Update>, experts: seq<Update>)
    requires Clear(ctid, filed) && Procedural(jury) && Procedural(stake) && Procedural(experts)
    ensures Clear(ctid, filed + jury + stake + experts)
  {
    hide Text;
    var all := filed + jury + stake + experts;
    forall u | u in all && u.reason.Other? ensures u in filed {
      assert u in filed || u in jury || u in stake || u in experts;
    }
  }

  lemma DistinctAsPosted(ctid: string, posts: seq<Posted>, us: seq<Update>)
    requires Renders(ctid, posts, us) && Clear(ctid, us)
    ensures DistinctPosts(posts) <==> DistinctEntries(us)
  {
    forall i, j | 0 <= i < j < |us| ensures SamePost(posts[i], posts[j]) <==> SameKey(us[i], us[j]) {
      assert us[i] in us && us[j] in us;
      assert RendersOne(ctid, posts[i], us[i]) && RendersOne(ctid, posts[j], us[j]);
      assert Clear(ctid, [us[i], us[j]]) by { hide Text; }
      KeysAreTexts(ctid, us[i], us[j]);
    }
    hide SameKey, SamePost;
  }
}
