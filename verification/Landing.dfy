/** Which entries of an episode the chain accepts: all of them, but for one refund. */
module Landing {
  import opened Common
  import opened Score
  import opened Ballots
  import opened Ledger
  import opened Settlement
  import opened Appeals
  import opened Episodes
  import opened EntryKeys
  import opened Credits

  lemma ApartByRank(a: seq<Update>, b: seq<Update>)
    requires forall u, v | u in a && v in b :: Rank(u.reason) != Rank(v.reason)
    ensures Apart(a, b)
  {
    forall u, v | u in a && v in b ensures !SameKey(u, v) {
      assert Rank(u.reason) != Rank(v.reason);
    }
  }

  /** The kinds that the jury's batch can hold. */
  ghost predicate JuryKinds(us: seq<Update>, credit: bool, refund: bool) {
    forall u | u in us :: (Rank(u.reason) < 8 || (Rank(u.reason) == 30 && refund)) && (Rank(u.reason) == 1 ==> credit)
  }

  /** The kinds that the experts' batch can hold. */
  ghost predicate ExpertKinds(us: seq<Update>, credit: bool, refund: bool) {
    forall u | u in us :: (1 == Rank(u.reason) && credit) || 10 <= Rank(u.reason) < 24 || Rank(u.reason) == 31 || (Rank(u.reason) == 30 && refund)
  }

  lemma JuryEntriesKinds(k: Tariff, e: Episode)
    requires OrderlyBallot(e.jury)
    ensures DistinctEntries(Entries2(k, e))
    ensures JuryKinds(Entries2(k, e), Jury(k, e).verdict.Upheld?, Jury(k, e).verdict.NoQuorum? && Jury(k, e).terminal)
  {
    var r := Jury(k, e);
    if r.verdict.NoQuorum? {
      NoQuorumKinds(k, e.c, e.jury, !r.terminal);
    } else {
      JuryRulingBetween(k, e.c, Filed(k, e), e.jury, r.verdict, r.authorDelta);
      RulingCreditKinds(k, e.c, Filed(k, e), e.jury, r.verdict, r.authorDelta);
      hide JuryRulingEntries;
    }
  }

  lemma NoQuorumKinds(k: Tariff, c: Case, b: Ballot, escalates: bool)
    requires OrderlyBallot(b)
    ensures DistinctEntries(NoQuorumEntries(k, c, b, escalates)) &&
      JuryKinds(NoQuorumEntries(k, c, b, escalates), false, !escalates)
  {
    NoQuorumBetween(k, c, b, escalates);
    AbsencesBetween(b, k.jurors, JuryTier);
    hide AbsenceEntries, DistinctEntries;
  }

  lemma RulingCreditKinds(k: Tariff, c: Case, log: seq<Update>, b: Ballot, v: Verdict, penalty: int)
    requires OrderlyBallot(b)
    ensures forall u | u in JuryRulingEntries(k, c, log, b, v, penalty) :: Rank(u.reason) == 1 ==> v.Upheld?
  {
    SeatsBetween(b, k.jurors, JuryTier);
    DisputerBetween(k, c, v);
    JuryReviewerBetween(k, c, v);
    VindicationBetween(k, c, v);
    OneBetween(c.author, v.Upheld? && penalty < 0, penalty, AuthorPenalty, 0, 1);
    assert forall u | u in JuryAuthorEntries(k, c, log, v, penalty) :: Rank(u.reason) == 1 ==> v.Upheld?;
    hide SeatEntries, DisputerEntries, JuryReviewerEntries, VindicationEntries, JuryAuthorEntries, DistinctEntries, Rank, Entry;
  }

  /** The experts take credit back only if the jury did not. */
  lemma ReversedOnce(k: Tariff, e: Episode)
    requires WellFormed(k, e) && e.appeal.Some?
    ensures forall u | u in ExpertCredit(e.c.author, Appealed(k, e), Experts(k, e).verdict) ::
      Rank(u.reason) == 10 || (Rank(u.reason) == 1 && !Jury(k, e).verdict.Upheld?)
  {
    hide Appealed, AfterJury, OrderlyBallot, FreshItem, JuryResult, AppealOutcome, ExpertCredit, CreditSum, DistinctEntries;
    CreditAfterJury(k, e);
    assert Awarded(e) >= 0 by { AwardedAtLeastZero(e); }
    CreditDirection(e.c.author.value, Appealed(k, e), Experts(k, e).verdict, Jury(k, e).verdict, Awarded(e));
  }

  lemma AwardedAtLeastZero(e: Episode)
    requires FreshItem(e.prior) && e.c.author.Some?
    ensures Awarded(e) >= 0
  {
    FreshCredit(e.prior, e.c.author.value);
  }

  lemma CreditDirection(author: string, log: seq<Update>, v: Verdict, jury: Verdict, awarded: int)
    requires CreditSum(log, author, false) == Kept(jury, awarded) && CreditSum(log, author, true) == awarded >= 0
    ensures forall u | u in ExpertCredit(Some(author), log, v) :: Rank(u.reason) == 10 || (Rank(u.reason) == 1 && !jury.Upheld?)
  {
    hide CreditSum;
  }

  lemma ExpertEntriesKinds(k: Tariff, e: Episode)
    requires WellFormed(k, e) && e.appeal.Some?
    ensures DistinctEntries(Entries3(k, e))
    ensures ExpertKinds(Entries3(k, e), !Jury(k, e).verdict.Upheld?, Jury(k, e).verdict.NoQuorum? && Experts(k, e).defaulted)
  {
    var a, x := e.appeal.value, Experts(k, e);
    ReversedOnce(k, e);
    hide WellFormed, Appealed, ExpertCredit, AppealOutcome, OrderlyBallot, JuryResult;
    assert OrderlyBallot(a.ballot) by { hide *; WellFormedAppeal(k, e); }
    if x.defaulted {
      DefaultKinds(k, e.c, EarlierOf(k, e), a.ballot);
    } else {
      ExpertRulingKinds(k, e.c, Appealed(k, e), EarlierOf(k, e), a.ballot, x.verdict, x.overturnDelta,
        !Jury(k, e).verdict.Upheld?);
    }
  }

  lemma WellFormedAppeal(k: Tariff, e: Episode)
    requires WellFormed(k, e) && e.appeal.Some?
    ensures OrderlyBallot(e.appeal.value.ballot)
  {}

  lemma DefaultKinds(k: Tariff, c: Case, e: Earlier, b: Ballot)
    requires OrderlyBallot(b)
    ensures DistinctEntries(DefaultEntries(k, c, e, b)) &&
      ExpertKinds(DefaultEntries(k, c, e, b), false, e.verdict == Some(NoQuorum))
  {
    DefaultBetween(k, c, e, b);
    AbsencesBetween(b, k.experts, ExpertTier);
    hide AbsenceEntries, DistinctEntries, SYSTEM;
  }

  lemma ExpertRulingKinds(k: Tariff, c: Case, log: seq<Update>, e: Earlier, b: Ballot, v: Verdict, penalty: int, credit: bool)
    requires OrderlyBallot(b)
    requires forall u | u in ExpertCredit(c.author, log, v) :: Rank(u.reason) == 10 || (Rank(u.reason) == 1 && credit)
    ensures DistinctEntries(ExpertRulingEntries(k, c, log, e, b, v, penalty)) &&
      ExpertKinds(ExpertRulingEntries(k, c, log, e, b, v, penalty), credit, false)
  {
    ExpertRulingBetween(k, c, log, e, b, v, penalty);
    OverturnBetween(k, c, e, v, penalty);
    FirstVerdictBetween(k, c, v, penalty);
    SeatsBetween(b, k.experts, ExpertTier);
    hide ExpertCredit, OverturnEntries, FirstVerdictEntries, SeatEntries, DistinctEntries, Rank;
  }

  // ---------------------------------------------------------------- landing

  lemma FiledKinds(k: Tariff, e: Episode)
    requires WellFormed(k, e)
    ensures DistinctEntries(Filed(k, e)) && forall u | u in Filed(k, e) :: 40 <= Rank(u.reason) <= 42
  {
    hide Entry, ValidTariff, NamedCase, OrderlyBallot, JuryResult, Between, DistinctEntries, Rank;
    assert FreshItem(e.prior);
    hide WellFormed, FreshItem;
    PriorKinds(e.prior);
    OneBetween(e.c.disputer, true, -k.disputerStake, DisputeStake, 42, 43) by { StakeRank(); }
    Stack(e.prior, 40, 42, Entry(e.c.disputer, true, -k.disputerStake, DisputeStake), 43);
    BetweenMeans(Filed(k, e), 40, 43);
  }

  lemma StakeRank()
    ensures Rank(DisputeStake) == 42
  {}

  lemma PriorKinds(prior: seq<Update>)
    requires FreshItem(prior)
    ensures Between(prior, 40, 42)
  {}

  lemma BetweenMeans(us: seq<Update>, lo: nat, hi: nat)
    requires Between(us, lo, hi)
    ensures DistinctEntries(us) && forall u | u in us :: lo <= Rank(u.reason) < hi
  {}

  /** All the jury's entries and the stakes land. */
  lemma JuryLands(k: Tariff, e: Episode)
    requires WellFormed(k, e)
    ensures FirstWins(Filed(k, e), Entries2(k, e)) == AfterJury(k, e)
    ensures FirstWins(AfterJury(k, e), AppealFiling(k, e)) == Appealed(k, e)
    ensures DistinctEntries(Appealed(k, e))
  {
    hide Filed, Entries2, FirstWins, JuryResult, DistinctEntries, AppealFiling, Rank, JuryKinds, FreshItem, ValidTariff,
        NamedCase;
    FiledKinds(k, e);
    assert OrderlyBallot(e.jury);
    hide OrderlyBallot, WellFormed;
    JuryEntriesKinds(k, e);
    JuryApart(Filed(k, e), Entries2(k, e), Jury(k, e).verdict.Upheld?, Jury(k, e).verdict.NoQuorum? && Jury(k, e).terminal);
    AllLand(Filed(k, e), Entries2(k, e));
    DistinctConcat(Filed(k, e), Entries2(k, e));
    StakeApart(k, e, AfterJury(k, e));
    AllLand(AfterJury(k, e), AppealFiling(k, e));
    DistinctConcat(AfterJury(k, e), AppealFiling(k, e));
  }

  lemma JuryApart(filed: seq<Update>, jury: seq<Update>, credit: bool, refund: bool)
    requires (forall u | u in filed :: 40 <= Rank(u.reason) <= 42) && JuryKinds(jury, credit, refund)
    ensures Apart(filed, jury) && forall u | u in filed + jury :: Rank(u.reason) <= 42
  {
    ApartByRank(filed, jury);
  }

  lemma StakeApart(k: Tariff, e: Episode, log: seq<Update>)
    requires forall u | u in log :: Rank(u.reason) <= 42
    ensures DistinctEntries(AppealFiling(k, e)) && Apart(log, AppealFiling(k, e))
  {
    hide SYSTEM;
    ApartByRank(log, AppealFiling(k, e));
  }

  /** Both stages refund the disputer: a case closed as undecidable, appealed, and undecided again. */
  predicate RefundedTwice(k: Tariff, e: Episode) {
    Reopened(k, e) && Experts(k, e).defaulted
  }

  lemma StagesApart(filed: seq<Update>, jury: seq<Update>, stake: seq<Update>, experts: seq<Update>, credit: bool,
      closed: bool, undecided: bool)
    requires forall u | u in filed :: 40 <= Rank(u.reason) <= 42
    requires forall u | u in stake :: Rank(u.reason) == 43
    requires JuryKinds(jury, credit, closed) && ExpertKinds(experts, !credit, undecided) && !(closed && undecided)
    ensures Apart(filed + jury + stake, experts)
  {
    ApartByRank(filed + jury + stake, experts);
  }

  lemma AppealLands(k: Tariff, e: Episode)
    requires WellFormed(k, e) && e.appeal.Some? && !RefundedTwice(k, e)
    ensures Apart(Appealed(k, e), Entries3(k, e)) && DistinctEntries(Entries3(k, e))
  {
    hide Filed, Entries2, Entries3, JuryResult, AppealOutcome, DistinctEntries, JuryKinds, ExpertKinds, AppealFiling, Rank;
    hide ValidTariff, FreshItem, NamedCase, SYSTEM;
    FiledKinds(k, e);
    assert OrderlyBallot(e.jury);
    hide OrderlyBallot;
    JuryEntriesKinds(k, e);
    ExpertEntriesKinds(k, e);
    StakeKind(k, e);
    hide WellFormed;
    StagesApart(Filed(k, e), Entries2(k, e), AppealFiling(k, e), Entries3(k, e), Jury(k, e).verdict.Upheld?,
                Jury(k, e).verdict.NoQuorum? && Jury(k, e).terminal, Jury(k, e).verdict.NoQuorum? && Experts(k, e).defaulted);
  }

  lemma StakeKind(k: Tariff, e: Episode)
    ensures forall u | u in AppealFiling(k, e) :: Rank(u.reason) == 43
  {}

  /** Unless both stages refund the disputer, every entry of the episode lands and no two have the same key. */
  lemma EverythingLands(k: Tariff, e: Episode)
    requires WellFormed(k, e) && !RefundedTwice(k, e)
    ensures Landed(k, e) == Appealed(k, e) + Entries3(k, e)
    ensures DistinctEntries(Appealed(k, e) + Entries3(k, e))
  {
    JuryLands(k, e);
    hide WellFormed, RefundedTwice, Appealed, AfterJury, AppealFiling, Filed, Entries2, FirstWins, JuryResult, AppealOutcome;
    if e.appeal.None? {
      assert Appealed(k, e) + [] == Appealed(k, e);
      AllLand(Appealed(k, e), []);
    } else {
      AppealLands(k, e);
      hide Entries3;
      AllLand(Appealed(k, e), Entries3(k, e));
      DistinctConcat(Appealed(k, e), Entries3(k, e));
    }
  }

  /** If both do, the second refund is dropped and everything else lands. */
  lemma SecondRefundDropped(k: Tariff, e: Episode)
    requires WellFormed(k, e) && RefundedTwice(k, e)
    ensures var b := e.appeal.value.ballot;
      Landed(k, e) == Appealed(k, e) + AbsenceEntries(b.summons, JurorsOf(InTime(b)), b, k.experts, ExpertTier)
                      + [Update(e.appeal.value.appellant, k.appellantStake, AppealRefunded)]
  {
    hide Filed, Entries2, Entries3, JuryResult, AppealOutcome, DistinctEntries, Appealed, AfterJury, AppealFiling,
        FirstWins, Rank;
    hide ValidTariff, FreshItem, InTime, AbsenceEntries, JurorsOf;
    var a, refund := e.appeal.value, Update(e.c.disputer.value, k.disputerStake, DisputeRefunded);
    assert OrderlyBallot(a.ballot);
    hide OrderlyBallot;
    JuryLands(k, e);
    AppealedKinds(k, e);
    AbsencesBetween(a.ballot, k.experts, ExpertTier);
    RefundHeld(k, e);
    TwiceRefundedEntries(k, e);
    hide WellFormed, SYSTEM;
    DropOne(Appealed(k, e), AbsenceEntries(a.ballot.summons, JurorsOf(InTime(a.ballot)), a.ballot, k.experts, ExpertTier), refund,
            Update(a.appellant, k.appellantStake, AppealRefunded));
  }

  /** The keys of an episode are pairwise distinct exactly if the disputer is not refunded twice. */
  lemma KeysDistinctIff(k: Tariff, e: Episode)
    requires WellFormed(k, e)
    ensures DistinctEntries(Appealed(k, e) + Entries3(k, e)) <==> !RefundedTwice(k, e)
  {
    hide WellFormed, Appealed, Entries3, DistinctEntries, FirstWins;
    if RefundedTwice(k, e) {
      RefundHeld(k, e);
      TwiceRefundedEntries(k, e);
      DisputerKnown(k, e);
      var refund := Update(e.c.disputer.value, k.disputerStake, DisputeRefunded);
      assert refund in Entries3(k, e);
      DistinctConcat(Appealed(k, e), Entries3(k, e));
    } else {
      EverythingLands(k, e);
    }
  }

  lemma DisputerKnown(k: Tariff, e: Episode)
    requires WellFormed(k, e)
    ensures e.c.disputer.Some? && e.c.author.Some?
  {}

  lemma TwiceRefundedEntries(k: Tariff, e: Episode)
    requires WellFormed(k, e) && RefundedTwice(k, e)
    ensures var b := e.appeal.value.ballot;
      Entries3(k, e) == AbsenceEntries(b.summons, JurorsOf(InTime(b)), b, k.experts, ExpertTier)
        + [Update(e.c.disputer.value, k.disputerStake, DisputeRefunded)]
        + [Update(e.appeal.value.appellant, k.appellantStake, AppealRefunded)]
  {
    hide Appealed, AbsenceEntries, InTime, JurorsOf, OrderlyBallot, FreshItem, ValidTariff, JuryResult;
  }

  lemma AppealedKinds(k: Tariff, e: Episode)
    requires WellFormed(k, e)
    ensures forall u | u in Appealed(k, e) :: Rank(u.reason) < 8 || Rank(u.reason) == 30 || Rank(u.reason) >= 40
  {
    hide Filed, Entries2, DistinctEntries, AppealFiling, Rank;
    FiledKinds(k, e);
    JuryEntriesKinds(k, e);
    StakeKind(k, e);
  }

  /** The disputer's refund is in the log after the jury closed the case. */
  lemma RefundHeld(k: Tariff, e: Episode)
    requires WellFormed(k, e) && Reopened(k, e)
    ensures Holds(Appealed(k, e), Update(e.c.disputer.value, k.disputerStake, DisputeRefunded))
  {
    var refund := Update(e.c.disputer.value, k.disputerStake, DisputeRefunded);
    var absences := AbsenceEntries(e.jury.summons, JurorsOf(InTime(e.jury)), e.jury, k.jurors, JuryTier);
    assert Entries2(k, e) == absences + [refund];
    hide AbsenceEntries, InTime, JurorsOf, WellFormed, Filed, JuryResult;
    HoldsLast(Filed(k, e) + absences, refund, AppealFiling(k, e));
    assert Appealed(k, e) == Filed(k, e) + absences + [refund] + AppealFiling(k, e);
  }

  lemma HoldsLast(log: seq<Update>, u: Update, more: seq<Update>)
    ensures Holds(log + [u] + more, u)
  {
    assert SameKey((log + [u] + more)[|log|], u);
  }

  lemma DropOne(log: seq<Update>, a: seq<Update>, u: Update, v: Update)
    requires Between(a, 23, 24) && v.reason == AppealRefunded
    requires u.tip != "" && Holds(log, u)
    requires forall x | x in log :: Rank(x.reason) < 8 || Rank(x.reason) == 30 || Rank(x.reason) >= 40
    ensures FirstWins(log, a + [u] + [v]) == log + a + [v]
  {
    BetweenMeans(a, 23, 24);
    ApartByRank(log, a);
    AllLand(log, a);
    HoldsAppend(log, a, u);
    NotHeld(log, a, v);
    hide FirstWins, Holds, Rank, Between, DistinctEntries, Apart;
    FirstWinsAppend(log, a + [u], [v]);
    FirstWinsAppend(log, a, [u]);
    OneArrives(log + a, u);
    OneArrives(log + a, v);
  }

  lemma NotHeld(log: seq<Update>, a: seq<Update>, v: Update)
    requires v.reason == AppealRefunded
    requires forall x | x in log :: Rank(x.reason) < 8 || Rank(x.reason) == 30 || Rank(x.reason) >= 40
    requires forall x | x in a :: Rank(x.reason) == 23
    ensures !Holds(log + a, v)
  {
    assert Rank(v.reason) == 31;
    forall i | 0 <= i < |log + a| ensures Rank((log + a)[i].reason) != 31 {
      assert (log + a)[i] in log || (log + a)[i] in a;
    }
  }

  lemma OneArrives(log: seq<Update>, u: Update)
    ensures FirstWins(log, [u]) == if u.tip != "" && Holds(log, u) then log else log + [u]
  {
    FirstWinsStep(log, [], u);
    assert [] + [u] == [u];
    hide Holds;
  }
}
