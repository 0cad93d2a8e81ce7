/** No two entries of an episode have the same key, so first-wins dropping never loses one. */
module EntryKeys {
  import opened Common
  import opened Score
  import opened Ballots
  import opened Reviews
  import opened Ledger
  import opened Settlement
  import opened Appeals
  import opened Episodes

  /** A number for each kind of reason, growing along both batches. */
  function Rank(r: Reason): nat {
    match r
    case AuthorPenalty => 0
    case CreditReversal => 1
    case MajorityVote(t) => if t.JuryTier? then 2 else 22
    case MinorityVote(t) => if t.JuryTier? then 2 else 22
    case NoReveal(t) => if t.JuryTier? then 3 else 23
    case NoCommit(t) => if t.JuryTier? then 3 else 23
    case DisputeUpheld | DisputeConservative => 4
    case ReviewBonus(_) => 5
    case WrongDismiss(_) => 6
    case Vindication => 7
    case CreditRestore => 10
    case AppealOverturned => 11
    case SettlementReversed | StakeRefundedBonus => 12
    case PenaltyReversed | MismatchConfirmed => 13
    case AppealVindication | VindicationRetracted => 14
    case ReviewBonusReversed => 15
    case ReviewBonusOnAppeal(_) => 16
    case WrongDismissReversed => 17
    case Stage3Upheld | Stage3Conservative => 18
    case Stage3Penalty => 19
    case ReviewBonusNoQuorum(_) => 20
    case WrongDismissNoQuorum(_) => 21
    case DisputeRefunded => 30
    case AppealRefunded => 31
    case CreditAward => 40
    case Other(_) => 41
    case DisputeStake => 42
    case AppealStake => 43
  }

  /** Distinct entries whose kinds lie in a range. */
  ghost predicate Between(us: seq<Update>, lo: nat, hi: nat) {
    DistinctEntries(us) && forall u | u in us :: lo <= Rank(u.reason) < hi
  }

  lemma Stack(a: seq<Update>, lo: nat, mid: nat, b: seq<Update>, hi: nat)
    requires Between(a, lo, mid) && Between(b, mid, hi) && lo <= mid <= hi
    ensures Between(a + b, lo, hi)
  {
    hide Rank;
    DistinctConcat(a, b);
  }

  lemma OneBetween(tip: Option<string>, cond: bool, delta: int, reason: Reason, lo: nat, hi: nat)
    requires lo <= Rank(reason) < hi
    ensures Between(Entry(tip, cond, delta, reason), lo, hi)
  {}

  // ---------------------------------------------------------------- seats

  ghost predicate OncePerJuror(rs: seq<Reveal>) {
    forall i, j | 0 <= i < j < |rs| :: rs[i].juror != rs[j].juror
  }

  lemma {:induction false} EarlyOnce(rs: seq<Reveal>, deadline: int)
    requires OncePerJuror(rs)
    ensures OncePerJuror(Early(rs, deadline)) && forall r | r in Early(rs, deadline) :: r in rs
  {
    if rs != [] {
      assert OncePerJuror(rs[1..]);
      EarlyOnce(rs[1..], deadline);
      var rest := Early(rs[1..], deadline);
      forall r | r in rest ensures r.juror != rs[0].juror && r in rs {
        assert r in rs[1..];
        var j :| 0 <= j < |rs[1..]| && rs[1..][j] == r;
        assert rs[j + 1] == r;
      }
      assert forall i | 0 <= i < |rest| :: rest[i] in rest;
    }
  }

  lemma {:induction false} VotesOnce(rs: seq<Reveal>, favoured: Vote, t: SeatTariff, tier: Tier)
    requires OncePerJuror(rs)
    ensures DistinctEntries(VoteEntries(rs, favoured, t, tier))
  {
    if rs != [] {
      var n := |rs| - 1;
      var before := VoteEntries(rs[..n], favoured, t, tier);
      VotesOnce(rs[..n], favoured, t, tier);
      SeatVotes(rs[..n], favoured, t, tier);
      assert rs[n].juror !in JurorsOf(rs[..n]);
      if rs[n].vote != Abstain {
        var u := if rs[n].vote == favoured then Update(rs[n].juror, t.majorityBonus, MajorityVote(tier))
                 else Update(rs[n].juror, -t.minorityPenalty, MinorityVote(tier));
        OneMoreEntry(before, u);
      }
    }
  }

  lemma OneMoreEntry(before: seq<Update>, u: Update)
    requires DistinctEntries(before) && forall v | v in before :: v.tip != u.tip
    ensures DistinctEntries(before + [u])
  {
    DistinctConcat(before, [u]);
  }

  lemma {:induction false} AbsencesOnce(summons: seq<Summons>, revealed: set<string>, b: Ballot, t: SeatTariff, tier: Tier)
    requires forall i, j | 0 <= i < j < |summons| :: summons[i].juror != summons[j].juror
    ensures DistinctEntries(AbsenceEntries(summons, revealed, b, t, tier))
  {
    if summons != [] {
      var n := |summons| - 1;
      var before := AbsenceEntries(summons[..n], revealed, b, t, tier);
      AbsencesOnce(summons[..n], revealed, b, t, tier);
      SeatAbsences(summons[..n], revealed, b, t, tier);
      forall u | u in before ensures u.tip != summons[n].juror {
        var s :| s in summons[..n] && s.juror == u.tip;
      }
      hide AbsenceEntries, DistinctEntries;
      if summons[n].juror !in revealed {
        OneMoreEntry(before, Absence(summons[n].juror, b, t, tier));
      }
      AbsenceLast(summons, revealed, b, t, tier);
    }
  }

  lemma AbsenceLast(summons: seq<Summons>, revealed: set<string>, b: Ballot, t: SeatTariff, tier: Tier)
    requires summons != []
    ensures var n := |summons| - 1;
      AbsenceEntries(summons, revealed, b, t, tier) == AbsenceEntries(summons[..n], revealed, b, t, tier) +
        if summons[n].juror in revealed then [] else [Absence(summons[n].juror, b, t, tier)]
  {}

  function SeatRank(tier: Tier): nat { if tier.JuryTier? then 2 else 22 }

  lemma AbsencesBetween(b: Ballot, t: SeatTariff, tier: Tier)
    requires OrderlyBallot(b)
    ensures Between(AbsenceEntries(b.summons, JurorsOf(InTime(b)), b, t, tier), SeatRank(tier) + 1, SeatRank(tier) + 2)
  {
    hide AbsenceEntries, DistinctEntries, JurorsOf, InTime;
    AbsencesOnce(b.summons, JurorsOf(InTime(b)), b, t, tier);
    SeatAbsences(b.summons, JurorsOf(InTime(b)), b, t, tier);
    BetweenAt(AbsenceEntries(b.summons, JurorsOf(InTime(b)), b, t, tier), SeatRank(tier) + 1);
  }

  lemma BetweenAt(us: seq<Update>, rank: nat)
    requires DistinctEntries(us) && forall u | u in us :: Rank(u.reason) == rank
    ensures Between(us, rank, rank + 1)
  {}

  lemma InTimeOnce(b: Ballot)
    requires OrderlyBallot(b)
    ensures OncePerJuror(InTime(b)) && forall r | r in InTime(b) :: r in b.revealed
  {
    if b.summons != [] && b.summons[0].deadline.Some? {
      EarlyOnce(b.revealed, b.summons[0].deadline.value);
    }
  }

  lemma SeatsBetween(b: Ballot, t: SeatTariff, tier: Tier)
    requires OrderlyBallot(b)
    ensures Between(SeatEntries(b, t, tier), SeatRank(tier), SeatRank(tier) + 2)
  {
    var rs := InTime(b);
    InTimeOnce(b);
    hide Between, VoteEntries, AbsenceEntries, InTime, DistinctEntries, JurorsOf, OrderlyBallot;
    VotesOnce(rs, Favoured(rs), t, tier);
    SeatVotes(rs, Favoured(rs), t, tier);
    BetweenAt(VoteEntries(rs, Favoured(rs), t, tier), SeatRank(tier));
    AbsencesBetween(b, t, tier);
    Stack(VoteEntries(rs, Favoured(rs), t, tier), SeatRank(tier), SeatRank(tier) + 1,
          AbsenceEntries(b.summons, JurorsOf(rs), b, t, tier), SeatRank(tier) + 2);
  }

  // ---------------------------------------------------------------- the jury's batch

  lemma JuryRulingBetween(k: Tariff, c: Case, log: seq<Update>, b: Ballot, v: Verdict, penalty: int)
    requires OrderlyBallot(b)
    ensures Between(JuryRulingEntries(k, c, log, b, v, penalty), 0, 8)
  {
    var author, seats := JuryAuthorEntries(k, c, log, v, penalty), SeatEntries(b, k.jurors, JuryTier);
    var disputer, reviewer, vindication := DisputerEntries(k, c, v), JuryReviewerEntries(k, c, v), VindicationEntries(k, c, v);
    hide Between, JuryAuthorEntries, SeatEntries, DisputerEntries, JuryReviewerEntries, VindicationEntries, OrderlyBallot;
    SeatsBetween(b, k.jurors, JuryTier);
    JuryAuthorBetween(k, c, log, v, penalty);
    DisputerBetween(k, c, v);
    JuryReviewerBetween(k, c, v);
    VindicationBetween(k, c, v);
    Stack(author, 0, 2, seats, 4);
    Stack(author + seats, 0, 4, disputer, 5);
    Stack(author + seats + disputer, 0, 5, reviewer, 7);
    Stack(author + seats + disputer + reviewer, 0, 7, vindication, 8);
  }

  lemma JuryAuthorBetween(k: Tariff, c: Case, log: seq<Update>, v: Verdict, penalty: int)
    ensures Between(JuryAuthorEntries(k, c, log, v, penalty), 0, 2)
  {
    OneBetween(c.author, v.Upheld? && penalty < 0, penalty, AuthorPenalty, 0, 1);
    assert Between(JuryCredit(c.author, log, v), 1, 2);
    Stack(Entry(c.author, v.Upheld? && penalty < 0, penalty, AuthorPenalty), 0, 1, JuryCredit(c.author, log, v), 2);
  }

  lemma DisputerBetween(k: Tariff, c: Case, v: Verdict)
    ensures Between(DisputerEntries(k, c, v), 4, 5)
  {}

  lemma VindicationBetween(k: Tariff, c: Case, v: Verdict)
    ensures Between(VindicationEntries(k, c, v), 7, 8)
  {
    OneBetween(c.author, v.Dismissed? && k.vindicationBonus > 0, k.vindicationBonus, Vindication, 7, 8);
  }

  lemma JuryReviewerBetween(k: Tariff, c: Case, v: Verdict)
    ensures Between(JuryReviewerEntries(k, c, v), 5, 7)
  {
    var esc, dis := Find(c.reviews, EscalatedToDispute), Find(c.reviews, ClosedDismissed);
    TwoBetween(Assigned(esc), Vindicates(v) && k.correctBonus > 0, k.correctBonus, ReviewBonus(ReviewId(esc)),
               Assigned(dis), v.Upheld? && esc.None? && k.wrongDismissClawback != 0, k.wrongDismissClawback, WrongDismiss(ReviewId(dis)), 5);
  }

  lemma TwoBetween(tip1: Option<string>, cond1: bool, delta1: int, reason1: Reason,
                   tip2: Option<string>, cond2: bool, delta2: int, reason2: Reason, lo: nat)
    requires Rank(reason1) == lo && Rank(reason2) == lo + 1
    ensures Between(Entry(tip1, cond1, delta1, reason1) + Entry(tip2, cond2, delta2, reason2), lo, lo + 2)
  {
    OneBetween(tip1, cond1, delta1, reason1, lo, lo + 1);
    OneBetween(tip2, cond2, delta2, reason2, lo + 1, lo + 2);
    hide Between, Entry, Rank;
    Stack(Entry(tip1, cond1, delta1, reason1), lo, lo + 1, Entry(tip2, cond2, delta2, reason2), lo + 2);
  }

  lemma NoQuorumBetween(k: Tariff, c: Case, b: Ballot, escalates: bool)
    requires OrderlyBallot(b)
    ensures Between(NoQuorumEntries(k, c, b, escalates), 3, 31)
  {
    var absences := AbsenceEntries(b.summons, JurorsOf(InTime(b)), b, k.jurors, JuryTier);
    AbsencesBetween(b, k.jurors, JuryTier);
    OneBetween(c.disputer, !escalates, k.disputerStake, DisputeRefunded, 4, 31);
    hide Between, Entry, AbsenceEntries;
    Stack(absences, 3, 4, Entry(c.disputer, !escalates, k.disputerStake, DisputeRefunded), 31);
  }

  // ---------------------------------------------------------------- the experts' batch

  lemma OverturnBetween(k: Tariff, c: Case, e: Earlier, v: Verdict, penalty: int)
    ensures Between(OverturnEntries(k, c, e, v, penalty), 11, 18)
  {
    var appellant, disputer := AppellantEntries(k, e), FlippedDisputer(k, c, e);
    var author, reviewer := FlippedAuthor(k, c, e, penalty), FlippedReviewer(k, c, e, v);
    OneBetween(e.appellant, true, k.appellantStake + k.overturnBonus, AppealOverturned, 11, 12);
    assert Between(disputer, 12, 13);
    hide Between, FlippedDisputer, FlippedAuthor, FlippedReviewer;
    FlippedAuthorBetween(k, c, e, penalty);
    FlippedReviewerBetween(k, c, e, v);
    Stack(appellant, 11, 12, disputer, 13);
    Stack(appellant + disputer, 11, 13, author, 15);
    Stack(appellant + disputer + author, 11, 15, reviewer, 18);
  }

  lemma FlippedAuthorBetween(k: Tariff, c: Case, e: Earlier, penalty: int)
    ensures Between(FlippedAuthor(k, c, e, penalty), 13, 15)
  {
    hide Between, Entry;
    TwoBetween(c.author, e.penalty < 0, -e.penalty, PenaltyReversed,
               c.author, e.penalty < 0 && k.vindicationBonus > 0, k.vindicationBonus, AppealVindication, 13);
    var flip := e.verdict == Some(Dismissed) && penalty < 0;
    TwoBetween(c.author, flip, penalty, MismatchConfirmed,
               c.author, flip && k.vindicationBonus > 0, -k.vindicationBonus, VindicationRetracted, 13);
  }

  lemma FlippedReviewerBetween(k: Tariff, c: Case, e: Earlier, v: Verdict)
    ensures Between(FlippedReviewer(k, c, e, v), 15, 18)
  {
    var esc, dis := Find(c.reviews, EscalatedToDispute), Find(c.reviews, ClosedDismissed);
    var taken := k.correctBonus > 0 && (e.verdict == Some(Upheld) || e.verdict == Some(ConservativeLabel));
    var paid := k.correctBonus > 0 && Vindicates(v);
    var back := e.verdict == Some(Upheld) && v.Dismissed? && esc.None? && k.wrongDismissClawback != 0;
    hide Between, Entry, Find, Assigned;
    FlippedReviewerParts(k, Assigned(esc), taken, paid, ReviewId(esc), Assigned(dis), back);
  }

  lemma FlippedReviewerParts(k: Tariff, reviewer: Option<string>, taken: bool, paid: bool, review: string,
      dismisser: Option<string>, back: bool)
    ensures Between(Entry(reviewer, taken, -k.correctBonus, ReviewBonusReversed) +
      Entry(reviewer, paid, k.correctBonus, ReviewBonusOnAppeal(review))
                    + Entry(dismisser, back, -k.wrongDismissClawback, WrongDismissReversed), 15, 18)
  {
    hide Between, Entry;
    TwoBetween(reviewer, taken, -k.correctBonus, ReviewBonusReversed, reviewer, paid, k.correctBonus,
        ReviewBonusOnAppeal(review), 15);
    ThirdBetween(Entry(reviewer, taken, -k.correctBonus, ReviewBonusReversed) +
      Entry(reviewer, paid, k.correctBonus, ReviewBonusOnAppeal(review)),
                 15, 17, dismisser, back, -k.wrongDismissClawback, WrongDismissReversed);
  }

  lemma ThirdBetween(us: seq<Update>, lo: nat, hi: nat, tip: Option<string>, cond: bool, delta: int, reason: Reason)
    requires Between(us, lo, hi) && Rank(reason) == hi && lo <= hi
    ensures Between(us + Entry(tip, cond, delta, reason), lo, hi + 1)
  {
    OneBetween(tip, cond, delta, reason, hi, hi + 1);
    hide Between, Entry, Rank;
    Stack(us, lo, hi, Entry(tip, cond, delta, reason), hi + 1);
  }

  lemma FirstVerdictBetween(k: Tariff, c: Case, v: Verdict, penalty: int)
    ensures Between(FirstVerdictEntries(k, c, v, penalty), 18, 22)
  {
    var disputer := FirstDisputer(k, c, v);
    assert Between(disputer, 18, 19);
    hide Between, FirstDisputer, Entry, FirstReviewer;
    FirstReviewerBetween(k, c, v);
    ThirdBetween(disputer, 18, 19, c.author, v.Upheld? && penalty < 0, penalty, Stage3Penalty);
    Stack(disputer + Entry(c.author, v.Upheld? && penalty < 0, penalty, Stage3Penalty), 18, 20, FirstReviewer(k, c, v), 22);
  }

  lemma FirstReviewerBetween(k: Tariff, c: Case, v: Verdict)
    ensures Between(FirstReviewer(k, c, v), 20, 22)
  {
    var esc, dis := Find(c.reviews, EscalatedToDispute), Find(c.reviews, ClosedDismissed);
    TwoBetween(Assigned(esc), Vindicates(v) && k.correctBonus > 0, k.correctBonus, ReviewBonusNoQuorum(ReviewId(esc)),
               Assigned(dis), v.Upheld? && esc.None? && k.wrongDismissClawback != 0, k.wrongDismissClawback, WrongDismissNoQuorum(ReviewId(dis)), 20);
    hide Between, Entry, Find;
  }

  lemma ExpertRulingBetween(k: Tariff, c: Case, log: seq<Update>, e: Earlier, b: Ballot, v: Verdict, penalty: int)
    requires OrderlyBallot(b)
    ensures Between(ExpertRulingEntries(k, c, log, e, b, v, penalty), 1, 24)
  {
    var credit, flip := ExpertCredit(c.author, log, v), FlipEntries(k, c, e, v, penalty);
    var first, seats := FirstEntries(k, c, e, v, penalty), SeatEntries(b, k.experts, ExpertTier);
    assert Between(credit, 1, 11);
    OverturnBetween(k, c, e, v, penalty);
    FirstVerdictBetween(k, c, v, penalty);
    SeatsBetween(b, k.experts, ExpertTier);
    assert Between(flip, 11, 18) && Between(first, 18, 22);
    hide Between, ExpertCredit, FlipEntries, FirstEntries, SeatEntries, OverturnEntries, FirstVerdictEntries;
    Stack(credit, 1, 11, flip, 18);
    Stack(credit + flip, 1, 18, first, 22);
    Stack(credit + flip + first, 1, 22, seats, 24);
  }

  lemma DefaultBetween(k: Tariff, c: Case, e: Earlier, b: Ballot)
    requires OrderlyBallot(b)
    ensures Between(DefaultEntries(k, c, e, b), 23, 32)
  {
    var absences := AbsenceEntries(b.summons, JurorsOf(InTime(b)), b, k.experts, ExpertTier);
    AbsencesBetween(b, k.experts, ExpertTier);
    OneBetween(c.disputer, e.verdict == Some(NoQuorum), k.disputerStake, DisputeRefunded, 24, 31);
    OneBetween(e.appellant, e.appellant != Some(SYSTEM), k.appellantStake, AppealRefunded, 31, 32);
    hide Between, Entry, AbsenceEntries, SYSTEM;
    Stack(absences, 23, 24, Entry(c.disputer, e.verdict == Some(NoQuorum), k.disputerStake, DisputeRefunded), 31);
    Stack(absences + Entry(c.disputer, e.verdict == Some(NoQuorum), k.disputerStake, DisputeRefunded), 23, 31,
          Entry(e.appellant, e.appellant != Some(SYSTEM), k.appellantStake, AppealRefunded), 32);
  }
}
