/** The registration credit of a disputed item follows the last verdict given on it. */
module Credits {
  import opened Common
  import opened Score
  import opened Ballots
  import opened Ledger
  import opened Settlement
  import opened Appeals
  import opened Episodes
  import opened EntryKeys

  lemma {:induction false} CreditSumAppend(a: seq<Update>, b: seq<Update>, author: string, awardsOnly: bool)
    ensures CreditSum(a + b, author, awardsOnly) == CreditSum(a, author, awardsOnly) + CreditSum(b, author, awardsOnly)
  {
    if b == [] {
      assert a + b == a;
    } else {
      CreditSumAppend(a, b[..|b| - 1], author, awardsOnly);
      assert (a + b)[..|a + b| - 1] == a + b[..|b| - 1];
    }
  }

  lemma {:induction false} CreditSumNone(us: seq<Update>, author: string, awardsOnly: bool)
    requires forall u | u in us :: Rank(u.reason) != 1 && Rank(u.reason) != 10 && Rank(u.reason) != 40
    ensures CreditSum(us, author, awardsOnly) == 0
  {
    if us != [] {
      CreditSumNone(us[..|us| - 1], author, awardsOnly);
      assert us[|us| - 1] in us;
    }
  }

  /** For any log and verdict: the experts' entry leaves the author exactly the credit the verdict
      allows, and a batch built again on top of it has nothing to add. */
  lemma CreditReconciled(author: string, log: seq<Update>, v: Verdict)
    ensures var after := log + ExpertCredit(Some(author), log, v);
      && CreditSum(after, author, false) == (if v.Upheld? then 0 else CreditSum(log, author, true))
      && CreditSum(after, author, true) == CreditSum(log, author, true)
      && ExpertCredit(Some(author), after, v) == []
  {
    var entry := ExpertCredit(Some(author), log, v);
    CreditSumAppend(log, entry, author, false);
    CreditSumAppend(log, entry, author, true);
    ExpertCreditSum(author, log, v);
  }

  lemma ExpertCreditSum(author: string, log: seq<Update>, v: Verdict)
    ensures CreditSum(ExpertCredit(Some(author), log, v), author, true) == 0
    ensures CreditSum(ExpertCredit(Some(author), log, v), author, false) ==
      (if v.Upheld? then 0 else CreditSum(log, author, true)) - CreditSum(log, author, false)
  {
    var delta := (if v.Upheld? then 0 else CreditSum(log, author, true)) - CreditSum(log, author, false);
    SingleCredit(author, delta, if delta < 0 then CreditReversal else CreditRestore);
  }

  lemma SingleCredit(author: string, delta: int, reason: Reason)
    requires reason == CreditReversal || reason == CreditRestore
    ensures CreditSum([Update(author, delta, reason)], author, true) == 0
    ensures CreditSum([Update(author, delta, reason)], author, false) == delta
  {}

  lemma RulingCreditSum(k: Tariff, c: Case, log: seq<Update>, b: Ballot, v: Verdict, penalty: int, awardsOnly: bool)
    requires OrderlyBallot(b) && c.author.Some?
    ensures CreditSum(JuryRulingEntries(k, c, log, b, v, penalty), c.author.value, awardsOnly) ==
      CreditSum(JuryCredit(c.author, log, v), c.author.value, awardsOnly)
  {
    var author, charge := c.author.value, Entry(c.author, v.Upheld? && penalty < 0, penalty, AuthorPenalty);
    var seats, disputer := SeatEntries(b, k.jurors, JuryTier), DisputerEntries(k, c, v);
    var reviewer, vindication := JuryReviewerEntries(k, c, v), VindicationEntries(k, c, v);
    OneBetween(c.author, v.Upheld? && penalty < 0, penalty, AuthorPenalty, 0, 1);
    SeatsBetween(b, k.jurors, JuryTier);
    DisputerBetween(k, c, v);
    JuryReviewerBetween(k, c, v);
    VindicationBetween(k, c, v);
    hide SeatEntries, DisputerEntries, JuryReviewerEntries, VindicationEntries, Entry, JuryCredit, CreditSum,
        DistinctEntries, Rank, OrderlyBallot;
    CreditSumNone(charge, author, awardsOnly);
    CreditSumNone(seats, author, awardsOnly);
    CreditSumNone(disputer, author, awardsOnly);
    CreditSumNone(reviewer, author, awardsOnly);
    CreditSumNone(vindication, author, awardsOnly);
    hide Between;
    SixSums(charge, JuryCredit(c.author, log, v), seats, disputer, reviewer, vindication, author, awardsOnly);
  }

  lemma SixSums(p1: seq<Update>, p2: seq<Update>, p3: seq<Update>, p4: seq<Update>, p5: seq<Update>, p6: seq<Update>,
      author: string, f: bool)
    ensures CreditSum(p1 + p2 + p3 + p4 + p5 + p6, author, f) == CreditSum(p1, author, f) + CreditSum(p2, author, f)
      + CreditSum(p3, author, f) + CreditSum(p4, author, f) + CreditSum(p5, author, f) + CreditSum(p6, author, f)
  {
    hide CreditSum;
    CreditSumAppend(p1, p2, author, f);
    CreditSumAppend(p1 + p2, p3, author, f);
    CreditSumAppend(p1 + p2 + p3, p4, author, f);
    CreditSumAppend(p1 + p2 + p3 + p4, p5, author, f);
    CreditSumAppend(p1 + p2 + p3 + p4 + p5, p6, author, f);
  }

  lemma ExpertRulingCreditSum(k: Tariff, c: Case, log: seq<Update>, e: Earlier, b: Ballot, v: Verdict, penalty: int)
    requires OrderlyBallot(b) && c.author.Some?
    ensures CreditSum(ExpertRulingEntries(k, c, log, e, b, v, penalty), c.author.value, false) ==
      CreditSum(ExpertCredit(c.author, log, v), c.author.value, false)
  {
    var author, credit := c.author.value, ExpertCredit(c.author, log, v);
    var flip, first, seats := FlipEntries(k, c, e, v, penalty), FirstEntries(k, c, e, v, penalty),
      SeatEntries(b, k.experts, ExpertTier);
    OverturnBetween(k, c, e, v, penalty);
    FirstVerdictBetween(k, c, v, penalty);
    SeatsBetween(b, k.experts, ExpertTier);
    assert Between(flip, 11, 18) && Between(first, 18, 22);
    hide ExpertCredit, FlipEntries, FirstEntries, SeatEntries, OverturnEntries, FirstVerdictEntries, CreditSum, Rank,
        DistinctEntries, OrderlyBallot;
    CreditSumNone(flip, author, false);
    CreditSumNone(first, author, false);
    CreditSumNone(seats, author, false);
    hide Between;
    CreditSumAppend(credit, flip, author, false);
    CreditSumAppend(credit + flip, first, author, false);
    CreditSumAppend(credit + flip + first, seats, author, false);
  }

  // ---------------------------------------------------------------- one episode

  function Awarded(e: Episode): int
    requires e.c.author.Some?
  {
    CreditSum(e.prior, e.c.author.value, true)
  }

  lemma {:induction false} FreshCredit(prior: seq<Update>, author: string)
    requires forall u | u in prior :: u.reason.Other? || (u.reason.CreditAward? && u.delta >= 0)
    ensures CreditSum(prior, author, false) == CreditSum(prior, author, true) >= 0
    ensures !Reversed(prior)
  {
    if prior != [] {
      FreshCredit(prior[..|prior| - 1], author);
      assert prior[|prior| - 1] in prior;
    }
  }

  lemma FiledCredit(k: Tariff, e: Episode)
    requires FreshItem(e.prior) && e.c.author.Some?
    ensures CreditSum(Filed(k, e), e.c.author.value, true) == CreditSum(Filed(k, e), e.c.author.value, false) == Awarded(e) >= 0
    ensures !Reversed(Filed(k, e))
  {
    hide CreditSum, Entry, DistinctEntries;
    var stake := Entry(e.c.disputer, true, -k.disputerStake, DisputeStake);
    FreshCredit(e.prior, e.c.author.value);
    OneBetween(e.c.disputer, true, -k.disputerStake, DisputeStake, 42, 43);
    CreditSumNone(stake, e.c.author.value, true);
    CreditSumNone(stake, e.c.author.value, false);
    CreditSumAppend(e.prior, stake, e.c.author.value, true);
    CreditSumAppend(e.prior, stake, e.c.author.value, false);
    NotReversed(e.prior, stake);
  }

  lemma NotReversed(prior: seq<Update>, stake: seq<Update>)
    requires !Reversed(prior) && forall u | u in stake :: Rank(u.reason) == 42
    ensures !Reversed(prior + stake)
  {
    forall i | 0 <= i < |prior + stake| ensures (prior + stake)[i].reason != CreditReversal {
      if i < |prior| {
        assert (prior + stake)[i] == prior[i];
      } else {
        assert (prior + stake)[i] in stake;
      }
    }
  }

  function Kept(v: Verdict, awarded: int): int {
    if v.Upheld? then 0 else awarded
  }

  lemma JuryCreditSum(k: Tariff, e: Episode)
    requires WellFormed(k, e)
    ensures CreditSum(Entries2(k, e), e.c.author.value, true) == 0
    ensures CreditSum(Entries2(k, e), e.c.author.value, false) == Kept(Jury(k, e).verdict, Awarded(e)) - Awarded(e)
  {
    hide OrderlyBallot, ValidTariff, FreshItem, DistinctEntries, Filed, CreditSum, NoQuorumEntries, JuryRulingEntries;
    var author, v, log := e.c.author.value, Jury(k, e).verdict, Filed(k, e);
    assert FreshItem(e.prior);
    FiledCredit(k, e);
    if v.NoQuorum? {
      NoQuorumCredit(k, e.c, e.jury, !Jury(k, e).terminal, author);
    } else {
      RulingCreditSum(k, e.c, log, e.jury, v, Jury(k, e).authorDelta, true);
      RulingCreditSum(k, e.c, log, e.jury, v, Jury(k, e).authorDelta, false);
      SingleCredit(author, -Awarded(e), CreditReversal);
      assert CreditSum([], author, true) == CreditSum([], author, false) == 0 by {
        NoSum(author, true);
        NoSum(author, false);
      }
    }
  }

  lemma NoSum(author: string, awardsOnly: bool)
    ensures CreditSum([], author, awardsOnly) == 0
  {}

  lemma NoQuorumCredit(k: Tariff, c: Case, b: Ballot, escalates: bool, author: string)
    requires OrderlyBallot(b)
    ensures CreditSum(NoQuorumEntries(k, c, b, escalates), author, true) ==
      CreditSum(NoQuorumEntries(k, c, b, escalates), author, false) == 0
  {
    var absences, refund := AbsenceEntries(b.summons, JurorsOf(InTime(b)), b, k.jurors, JuryTier),
      Entry(c.disputer, !escalates, k.disputerStake, DisputeRefunded);
    AbsencesBetween(b, k.jurors, JuryTier);
    OneBetween(c.disputer, !escalates, k.disputerStake, DisputeRefunded, 30, 31);
    hide AbsenceEntries, Entry, CreditSum, DistinctEntries;
    CreditSumNone(absences, author, true);
    CreditSumNone(absences, author, false);
    CreditSumNone(refund, author, true);
    CreditSumNone(refund, author, false);
    CreditSumAppend(absences, refund, author, true);
    CreditSumAppend(absences, refund, author, false);
  }

  /** After the jury the author keeps the credit unless the dispute was upheld. */
  lemma CreditAfterJury(k: Tariff, e: Episode)
    requires WellFormed(k, e)
    ensures CreditSum(Appealed(k, e), e.c.author.value, false) == CreditSum(AfterJury(k, e), e.c.author.value, false)
      == Kept(Jury(k, e).verdict, Awarded(e))
    ensures CreditSum(Appealed(k, e), e.c.author.value, true) == Awarded(e)
  {
    hide CreditSum, Filed, Entries2, AfterJury, Appealed, JuryResult, OrderlyBallot, FreshItem, ValidTariff;
    var author := e.c.author.value;
    assert FreshItem(e.prior);
    FiledCredit(k, e);
    JuryCreditSum(k, e);
    StakeCredit(k, e, author, true);
    StakeCredit(k, e, author, false);
  }

  lemma StakeCredit(k: Tariff, e: Episode, author: string, awardsOnly: bool)
    ensures CreditSum(AfterJury(k, e), author, awardsOnly) ==
      CreditSum(Filed(k, e), author, awardsOnly) + CreditSum(Entries2(k, e), author, awardsOnly)
    ensures CreditSum(Appealed(k, e), author, awardsOnly) == CreditSum(AfterJury(k, e), author, awardsOnly)
  {
    CreditSumNone(AppealFiling(k, e), author, awardsOnly);
    CreditSumAppend(Filed(k, e), Entries2(k, e), author, awardsOnly);
    CreditSumAppend(AfterJury(k, e), AppealFiling(k, e), author, awardsOnly);
    hide CreditSum, Filed, Entries2;
  }
}
