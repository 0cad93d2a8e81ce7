/** What a dispute has cost and earned each party in the end depends on the verdict that stands, not on the way there. */
module PathIndependence {
  // The ways are straight from the jury, after an overturning appeal, and from the experts alone. Where the
  // code does not keep to that, the exact condition is stated.

  import opened Common
  import opened Score
  import opened Ballots
  import opened Reviews
  import opened Ledger
  import opened Settlement
  import opened Appeals
  import opened Episodes
  import opened Outcomes
  import opened EntryKeys
  import opened Credits
  import opened Landing

  ghost predicate Plain(s: Side) {
    s != Credit && s != Elsewhere && !s.Seat?
  }

  // ---------------------------------------------------------------- the course of an episode

  /** What the settlement depends on: the jury's verdict and penalty, whether it closed the case, and the
      same of an appeal. `staked` tells an appeal by a party from the automatic escalation. */
  datatype Outcome = Outcome(defaulted: bool, overturned: bool, verdict: Verdict, penalty: int, staked: bool)
  datatype Course = Course(verdict: Verdict, terminal: bool, penalty: int, appeal: Option<Outcome>)

  function CourseOf(k: Tariff, e: Episode): Course {
    var r := Jury(k, e);
    Course(r.verdict, r.terminal, r.authorDelta,
           if e.appeal.None? then None else
           var x := Experts(k, e);
           Some(Outcome(x.defaulted, x.overturned, x.verdict, x.overturnDelta, e.appeal.value.appellant != SYSTEM)))
  }

  ghost predicate ValidCourse(w: Course) {
    && w.penalty <= 0 && (w.penalty < 0 ==> w.verdict.Upheld?) && (w.terminal ==> w.verdict.NoQuorum?)
    && (w.verdict.NoQuorum? && !w.terminal ==> w.appeal.Some?)
    && (w.appeal.Some? ==>
          var x := w.appeal.value;
          && (x.overturned <==> !x.defaulted && Overturns(Some(w.verdict), x.verdict))
          && !x.verdict.NoQuorum? && (x.defaulted ==> x.verdict.Dismissed?)
          && x.penalty <= 0 && (x.penalty < 0 ==> x.verdict.Upheld?)
          && (x.staked <==> !(w.verdict.NoQuorum? && !w.terminal)))
  }

  function Standing(w: Course): Option<Verdict> {
    if w.appeal.Some? && (w.appeal.value.overturned || (w.verdict.NoQuorum? && !w.appeal.value.defaulted)) then Some(w.appeal.value.verdict)
    else if w.verdict.NoQuorum? then None
    else Some(w.verdict)
  }

  lemma StandingIsEffective(k: Tariff, e: Episode)
    ensures Standing(CourseOf(k, e)) == Effective(k, e)
  {}

  lemma CourseIsValid(k: Tariff, e: Episode)
    requires WellFormed(k, e)
    ensures ValidCourse(CourseOf(k, e))
  {
    JuryFacts(k, e);
    hide JuryResult, AppealOutcome, OrderlyBallot, FreshItem, ValidTariff, NamedCase, SYSTEM;
    if e.appeal.Some? {
      ExpertFacts(k, e);
    }
  }

  lemma ExpertFacts(k: Tariff, e: Episode)
    requires WellFormed(k, e) && e.appeal.Some?
    ensures var x, v := Experts(k, e), Jury(k, e).verdict;
      && (x.overturned <==> !x.defaulted && Overturns(Some(v), x.verdict))
      && (x.defaulted ==> x.verdict.Dismissed?)
      && !x.verdict.NoQuorum?
      && x.overturnDelta <= 0 && (x.overturnDelta < 0 ==> x.verdict.Upheld?)
  {
    var rs := InTime(e.appeal.value.ballot);
    RulingIsDecided(rs, Declared(e.c), e.c.claimed);
    var r := RulingOf(rs, Declared(e.c), e.c.claimed);
    PenaltyNeverRewards(k, e.c, r, e.appeal.value.offenses);
    hide RulingOf, InTime, OrderlyBallot, FreshItem, Penalize, ValidPenalties, JuryResult, ExpertsDecide, NamedCase;
  }

  lemma PenaltyNeverRewards(k: Tariff, c: Case, r: Ruling, offenses: int)
    requires ValidPenalties(k.penalties)
    ensures Penalize(k, c, r, offenses) <= 0
  {
    PenaltiesEscalate(k.penalties, VerdictData(Declared(c), r.confirmed, r.verdict, false, false), offenses, offenses);
  }

  lemma JuryFacts(k: Tariff, e: Episode)
    requires ValidTariff(k)
    ensures var r := Jury(k, e);
      r.authorDelta <= 0 && (r.authorDelta < 0 ==> r.verdict.Upheld?) && (r.terminal ==> r.verdict.NoQuorum?)
  {
    var rs := InTime(e.jury);
    var r := RulingOf(rs, Declared(e.c), e.c.claimed);
    PenaltyNeverRewards(k, e.c, r, e.offenses);
    PenaltyOnlyIfUpheld(k, e.c, r, e.offenses);
    hide RulingOf, InTime, Penalize, ValidPenalties;
  }

  // ---------------------------------------------------------------- the sums

  function StakeSum(k: Tariff, w: Course, s: Side): int {
    if s == Disputing then -k.disputerStake
    else if s == Appealing && w.appeal.Some? && w.appeal.value.staked then -k.appellantStake
    else 0
  }

  function JurySum(k: Tariff, c: Case, w: Course, s: Side): int {
    if !w.verdict.NoQuorum? then JuryNet(k, c, w.verdict, w.penalty, s)
    else if s == Disputing && w.terminal then k.disputerStake else 0
  }

  function ExpertSum(k: Tariff, c: Case, w: Course, s: Side): int {
    if w.appeal.None? then 0 else
    var x := w.appeal.value;
    if x.defaulted then
      if s == Disputing && w.verdict.NoQuorum? && !w.terminal then k.disputerStake
      else if s == Appealing && x.staked then k.appellantStake else 0
    else if x.overturned then FlipNet(k, c, w.verdict, w.penalty, x.verdict, x.penalty, s)
    else if w.verdict.NoQuorum? then FirstNet(k, c, x.verdict, x.penalty, s)
    else 0
  }

  lemma JuryStageNet(k: Tariff, e: Episode, s: Side)
    requires Plain(s) && e.c.disputer.Some?
    ensures Net(Entries2(k, e), s) == JurySum(k, e.c, CourseOf(k, e), s)
  {
    var r := Jury(k, e);
    if r.verdict.NoQuorum? {
      NoQuorumNet(k, e.c, e.jury, !r.terminal, s);
      hide Net, NoQuorumEntries;
    } else {
      JuryRulingNet(k, e.c, Filed(k, e), e.jury, r.verdict, r.authorDelta, s);
      hide Net, JuryRulingEntries, JuryNet;
    }
  }

  lemma ExpertStageNet(k: Tariff, e: Episode, s: Side)
    requires Plain(s) && WellFormed(k, e) && !RefundedTwice(k, e)
    ensures Net(Entries3(k, e), s) == ExpertSum(k, e.c, CourseOf(k, e), s)
  {
    hide Net, DefaultEntries, ExpertRulingEntries, AppealOutcome, JuryResult, FlipNet, FirstNet, SYSTEM, Appealed;
    hide OrderlyBallot, FreshItem, ValidTariff;
    assert e.c.disputer.Some?;
    CourseIsValid(k, e);
    if e.appeal.None? {
      NetNone([], s);
    } else {
      var r, earlier, b := Experts(k, e), EarlierOf(k, e), e.appeal.value.ballot;
      hide WellFormed;
      if r.defaulted {
        DefaultNet(k, e.c, earlier, b, s);
      } else {
        ExpertRulingNet(k, e.c, Appealed(k, e), earlier, b, r.verdict, r.overturnDelta, s);
      }
    }
  }

  lemma PriorNet(prior: seq<Update>, s: Side)
    requires FreshItem(prior) && Plain(s)
    ensures Net(prior, s) == 0
  {
    NetNone(prior, s);
  }

  lemma AppealedNet(k: Tariff, e: Episode, s: Side)
    requires FreshItem(e.prior) && e.c.disputer.Some? && Plain(s)
    ensures Net(Appealed(k, e), s) == StakeSum(k, CourseOf(k, e), s) + JurySum(k, e.c, CourseOf(k, e), s)
  {
    hide Entries2, FreshItem, JurySum, StakeSum, CourseOf, Net, Entry, AppealFiling;
    PriorNet(e.prior, s);
    JuryStageNet(k, e, s);
    FilingNet(k, e, s);
    FourParts(e.prior, Entry(e.c.disputer, true, -k.disputerStake, DisputeStake), Entries2(k, e), AppealFiling(k, e), s);
  }

  lemma FilingNet(k: Tariff, e: Episode, s: Side)
    requires e.c.disputer.Some?
    ensures Net(Entry(e.c.disputer, true, -k.disputerStake, DisputeStake), s) + Net(AppealFiling(k, e), s) ==
      StakeSum(k, CourseOf(k, e), s)
  {
    hide SYSTEM, JuryResult, AppealOutcome;
    EntryNet(e.c.disputer, true, -k.disputerStake, DisputeStake, s);
    assert Net(AppealFiling(k, e), s) ==
      if s == Appealing && e.appeal.Some? && e.appeal.value.appellant != SYSTEM then -k.appellantStake else 0;
    hide Net;
  }

  lemma CourseMeans(k: Tariff, e: Episode)
    ensures var w := CourseOf(k, e);
      && w.verdict == Jury(k, e).verdict && w.penalty == Jury(k, e).authorDelta
      && (w.appeal.Some? <==> e.appeal.Some?)
      && (e.appeal.Some? ==>
            && w.appeal.value.defaulted == Experts(k, e).defaulted && w.appeal.value.overturned == Experts(k, e).overturned
            && w.appeal.value.verdict == Experts(k, e).verdict && w.appeal.value.penalty == Experts(k, e).overturnDelta
            && (w.appeal.value.staked <==> e.appeal.value.appellant != SYSTEM))
  {}

  /** The sum on every side of a settled episode depends on its course alone. */
  lemma CourseDecides(k: Tariff, e: Episode, s: Side)
    requires WellFormed(k, e) && Plain(s)
    ensures Net(Landed(k, e), s) == StakeSum(k, CourseOf(k, e), s) + JurySum(k, e.c, CourseOf(k, e), s) +
      ExpertSum(k, e.c, CourseOf(k, e), s)
  {
    hide ValidTariff, OrderlyBallot, JuryResult, AppealOutcome, FirstWins, Landed, DistinctEntries, Appealed, SYSTEM,
        CourseOf, StakeSum, JurySum, ExpertSum;
    assert FreshItem(e.prior) && e.c.disputer.Some?;
    hide FreshItem;
    AppealedNet(k, e, s);
    if RefundedTwice(k, e) {
      SecondRefundDropped(k, e);
      DroppedNet(k, e, s);
    } else {
      EverythingLands(k, e);
      ExpertStageNet(k, e, s);
      hide WellFormed, RefundedTwice, Entries2, Entries3;
      NetAppend(Appealed(k, e), Entries3(k, e), s);
    }
  }

  lemma DroppedNet(k: Tariff, e: Episode, s: Side)
    requires WellFormed(k, e) && RefundedTwice(k, e) && Plain(s)
    ensures var b := e.appeal.value.ballot;
      Net(Appealed(k, e) + AbsenceEntries(b.summons, JurorsOf(InTime(b)), b, k.experts, ExpertTier)
          + [Update(e.appeal.value.appellant, k.appellantStake, AppealRefunded)], s)
      == Net(Appealed(k, e), s) + ExpertSum(k, e.c, CourseOf(k, e), s)
  {
    hide Net, AbsenceEntries, OrderlyBallot, ValidTariff, FreshItem, InTime, JuryResult, Appealed, SYSTEM, AppealOutcome,
        FirstNet, FlipNet;
    var b, stake := e.appeal.value.ballot, [Update(e.appeal.value.appellant, k.appellantStake, AppealRefunded)];
    AbsenceNet(b.summons, JurorsOf(InTime(b)), b, k.experts, ExpertTier, s);
    ThreeParts(Appealed(k, e), AbsenceEntries(b.summons, JurorsOf(InTime(b)), b, k.experts, ExpertTier), stake, s);
    StakeBackNet(e.appeal.value.appellant, k.appellantStake, s);
  }

  lemma StakeBackNet(tip: string, stake: int, s: Side)
    ensures Net([Update(tip, stake, AppealRefunded)], s) == if s == Appealing then stake else 0
  {}

  // ---------------------------------------------------------------- the parties

  /** The disputer ends with the bonus, nothing, the lost stake or nothing again: as the verdict that
      stands says. One stake more is paid when a case that was closed as undecidable is appealed and then
      decided, because closing it had already returned the stake. */
  lemma DisputerSettled(k: Tariff, e: Episode)
    requires WellFormed(k, e)
    ensures Net(Landed(k, e), Disputing) ==
      (match Effective(k, e)
       case None => 0
       case Some(Upheld) => k.upheldBonus
       case Some(ConservativeLabel) => 0
       case Some(_) => -k.disputerStake)
      + if Reopened(k, e) && !Experts(k, e).defaulted then k.disputerStake else 0
  {
    var w := CourseOf(k, e);
    CourseDecides(k, e, Disputing);
    CourseIsValid(k, e);
    hide Net, Landed, AppealOutcome, JuryResult, OrderlyBallot, ValidTariff, FreshItem, SYSTEM;
    assert e.c.disputer.Some?;
    hide WellFormed;
    DisputerSum(k, e.c, w);
    StandingIsEffective(k, e);
  }

  lemma DisputerSum(k: Tariff, c: Case, w: Course)
    requires ValidCourse(w) && c.disputer.Some?
    ensures StakeSum(k, w, Disputing) + JurySum(k, c, w, Disputing) + ExpertSum(k, c, w, Disputing) ==
      (match Standing(w)
       case None => 0
       case Some(Upheld) => k.upheldBonus
       case Some(ConservativeLabel) => 0
       case Some(_) => -k.disputerStake)
      + if w.terminal && w.appeal.Some? && !w.appeal.value.defaulted then k.disputerStake else 0
  {}

  /** The penalty that the standing verdict carries. */
  function StandingPenalty(w: Course): int {
    if w.appeal.Some? && (w.appeal.value.overturned || (w.verdict.NoQuorum? && !w.appeal.value.defaulted))
    then w.appeal.value.penalty else w.penalty
  }

  /** The author's penalties cancel out unless the verdict that stands is that the dispute is upheld;
      then exactly that verdict's penalty is left, and it is no reward. */
  lemma PenaltySettled(k: Tariff, e: Episode)
    requires WellFormed(k, e)
    ensures Net(Landed(k, e), Penalty) == if Effective(k, e) == Some(Upheld) then StandingPenalty(CourseOf(k, e)) else 0
    ensures Net(Landed(k, e), Penalty) <= 0
  {
    assert e.c.author.Some? by { AuthorKnown(k, e); }
    hide CourseOf, Net, Landed, WellFormed, ValidCourse, StakeSum, JurySum, ExpertSum, Effective, Standing, StandingPenalty;
    CourseDecides(k, e, Penalty);
    CourseIsValid(k, e);
    StandingIsEffective(k, e);
    PenaltySum(k, e.c, CourseOf(k, e));
  }

  lemma AuthorKnown(k: Tariff, e: Episode)
    requires WellFormed(k, e)
    ensures e.c.author.Some? && e.c.disputer.Some?
  {}

  lemma PenaltySum(k: Tariff, c: Case, w: Course)
    requires ValidCourse(w) && c.author.Some?
    ensures StakeSum(k, w, Penalty) + JurySum(k, c, w, Penalty) + ExpertSum(k, c, w, Penalty) ==
      if Standing(w) == Some(Upheld) then StandingPenalty(w) else 0
    ensures StandingPenalty(w) <= 0
  {}

  /** The reviewer who sent the item to a dispute keeps the bonus exactly if the standing verdict found
      something wrong. */
  lemma ReviewerSettled(k: Tariff, e: Episode)
    requires WellFormed(k, e)
    ensures Net(Landed(k, e), Reviewing) ==
      if Effective(k, e).Some? then DueReviewer(k, e.c, Effective(k, e).value) else 0
  {
    hide CourseOf, Experts, Jury, Net, Landed, WellFormed, ValidCourse, StakeSum, JurySum, ExpertSum, DueReviewer,
        Effective, Standing;
    CourseDecides(k, e, Reviewing);
    CourseIsValid(k, e);
    StandingIsEffective(k, e);
    ReviewerSum(k, e.c, CourseOf(k, e));
  }

  lemma ReviewerSum(k: Tariff, c: Case, w: Course)
    requires ValidCourse(w)
    ensures StakeSum(k, w, Reviewing) + JurySum(k, c, w, Reviewing) + ExpertSum(k, c, w, Reviewing) ==
      if Standing(w).Some? then DueReviewer(k, c, Standing(w).value) else 0
  {
    ReviewerDue(k, c);
    hide DueReviewer;
  }

  lemma ReviewerDue(k: Tariff, c: Case)
    ensures DueReviewer(k, c, Dismissed) == 0
  {}

  /** The party that appealed gains the bonus for overturning the verdict, has the stake back if the
      experts decide nothing, and loses it otherwise; the automatic escalation has no account. */
  lemma AppellantSettled(k: Tariff, e: Episode)
    requires WellFormed(k, e)
    ensures Net(Landed(k, e), Appealing) ==
      if e.appeal.None? || e.appeal.value.appellant == SYSTEM || Experts(k, e).defaulted then 0
      else if Experts(k, e).overturned then k.overturnBonus
      else -k.appellantStake
  {
    hide CourseOf, Experts, Net, Landed, WellFormed, SYSTEM, ValidCourse, StakeSum, JurySum, ExpertSum;
    CourseDecides(k, e, Appealing);
    CourseIsValid(k, e);
    CourseMeans(k, e);
    AppellantSum(k, e.c, CourseOf(k, e));
  }

  lemma AppellantSum(k: Tariff, c: Case, w: Course)
    requires ValidCourse(w)
    ensures StakeSum(k, w, Appealing) + JurySum(k, c, w, Appealing) + ExpertSum(k, c, w, Appealing) ==
      if w.appeal.None? || !w.appeal.value.staked || w.appeal.value.defaulted then 0
      else if w.appeal.value.overturned then k.overturnBonus
      else -k.appellantStake
  {}

  /** Two disputes of the same item that end with the same verdict cost and earn the disputer and the
      escalating reviewer the same, whichever stages gave the verdict. */
  lemma SameVerdictSameSettlement(k: Tariff, e: Episode, f: Episode)
    requires WellFormed(k, e) && WellFormed(k, f) && e.c == f.c && Effective(k, e) == Effective(k, f)
    requires !Reopened(k, e) && !Reopened(k, f)
    ensures Net(Landed(k, e), Disputing) == Net(Landed(k, f), Disputing)
    ensures Net(Landed(k, e), Reviewing) == Net(Landed(k, f), Reviewing)
  {
    DisputerSettled(k, e);
    DisputerSettled(k, f);
    ReviewerSettled(k, e);
    ReviewerSettled(k, f);
    hide Net, Landed, Effective, WellFormed, DueReviewer, Reopened, Experts;
  }

  // ---------------------------------------------------------------- registration credit

  /** The author's registration credit ends at nothing or at what was awarded, by the last verdict that
      was given: the experts' own if they ruled, else the jury's. */
  lemma CreditSettled(k: Tariff, e: Episode)
    requires WellFormed(k, e)
    ensures CreditSum(Landed(k, e), e.c.author.value, false) ==
      Kept(if e.appeal.Some? && !Experts(k, e).defaulted then Experts(k, e).verdict else Jury(k, e).verdict, Awarded(e))
  {
    hide WellFormed, CreditSum, Landed, Appealed, Entries3, RefundedTwice, Jury, Experts, AfterJury;
    AuthorKnown(k, e);
    var author := e.c.author.value;
    CreditAfterJury(k, e);
    if RefundedTwice(k, e) {
      SecondRefundDropped(k, e);
      DroppedCredit(k, e, author);
    } else {
      EverythingLands(k, e);
      ExpertStageCredit(k, e);
      CreditSumAppend(Appealed(k, e), Entries3(k, e), author, false);
    }
  }

  lemma ExpertStageCredit(k: Tariff, e: Episode)
    requires WellFormed(k, e)
    ensures CreditSum(Entries3(k, e), e.c.author.value, false) ==
      if e.appeal.Some? && !Experts(k, e).defaulted
      then Kept(Experts(k, e).verdict, Awarded(e)) - Kept(Jury(k, e).verdict, Awarded(e)) else 0
  {
    hide Appealed, AppealOutcome, OrderlyBallot, FreshItem, ValidTariff, CreditSum, ExpertCredit, AfterJury, JuryResult;
    if e.appeal.Some? {
      var x, earlier, b, author := Experts(k, e), EarlierOf(k, e), e.appeal.value.ballot, e.c.author.value;
      assert OrderlyBallot(b);
      CreditAfterJury(k, e);
      hide WellFormed;
      if x.defaulted {
        DefaultCredit(k, e.c, earlier, b, author);
      } else {
        ExpertRulingCreditSum(k, e.c, Appealed(k, e), earlier, b, x.verdict, x.overturnDelta);
        ExpertCreditSum(author, Appealed(k, e), x.verdict);
      }
      hide DefaultEntries, ExpertRulingEntries;
    } else {
      NoSum(e.c.author.value, false);
    }
  }

  lemma DefaultCredit(k: Tariff, c: Case, e: Earlier, b: Ballot, author: string)
    requires OrderlyBallot(b)
    ensures CreditSum(DefaultEntries(k, c, e, b), author, false) == 0
  {
    DefaultBetween(k, c, e, b);
    hide DefaultEntries, OrderlyBallot, DistinctEntries;
    CreditSumNone(DefaultEntries(k, c, e, b), author, false);
  }

  lemma DroppedCredit(k: Tariff, e: Episode, author: string)
    requires WellFormed(k, e) && RefundedTwice(k, e)
    ensures Experts(k, e).defaulted
    ensures var b := e.appeal.value.ballot;
      CreditSum(Appealed(k, e) + AbsenceEntries(b.summons, JurorsOf(InTime(b)), b, k.experts, ExpertTier)
                + [Update(e.appeal.value.appellant, k.appellantStake, AppealRefunded)], author, false)
      == CreditSum(Appealed(k, e), author, false)
  {
    hide Appealed, AppealOutcome, JuryResult, OrderlyBallot, FreshItem, ValidTariff, CreditSum, AbsenceEntries, InTime,
        JurorsOf, DistinctEntries;
    var b, stake := e.appeal.value.ballot, [Update(e.appeal.value.appellant, k.appellantStake, AppealRefunded)];
    var absences := AbsenceEntries(b.summons, JurorsOf(InTime(b)), b, k.experts, ExpertTier);
    AbsencesBetween(b, k.experts, ExpertTier);
    hide WellFormed;
    CreditSumNone(absences, author, false);
    CreditSumNone(stake, author, false);
    CreditSumAppend(Appealed(k, e), absences, author, false);
    CreditSumAppend(Appealed(k, e) + absences, stake, author, false);
  }

  // ---------------------------------------------------------------- where the way there shows

  function DueOn(k: Tariff, c: Case, v: Option<Verdict>, s: Side): int {
    if v.None? then 0 else JuryNet(k, c, v.value, 0, s)
  }

  /** The author's bonus for an exoneration follows the standing verdict exactly when an overturned
      verdict also moved a penalty, and when the experts did not dismiss after a jury without a result. */
  lemma VindicationSettledIff(k: Tariff, e: Episode)
    requires WellFormed(k, e) && k.vindicationBonus > 0
    ensures Net(Landed(k, e), Exoneration) == DueOn(k, e.c, Effective(k, e), Exoneration)
      <==> (e.appeal.Some? && !Experts(k, e).defaulted ==>
              var x, r := Experts(k, e), Jury(k, e);
              && (x.overturned ==> if r.verdict.Upheld? then r.authorDelta < 0 else x.overturnDelta < 0)
              && !(r.verdict.NoQuorum? && x.verdict.Dismissed?))
  {
    assert e.c.author.Some? by { AuthorKnown(k, e); }
    hide CourseOf, Experts, Jury, Net, Landed, WellFormed, SYSTEM, ValidCourse, StakeSum, JurySum, ExpertSum, DueOn,
        Effective, Standing;
    CourseDecides(k, e, Exoneration);
    CourseIsValid(k, e);
    CourseMeans(k, e);
    StandingIsEffective(k, e);
    VindicationSum(k, e.c, CourseOf(k, e));
  }

  lemma VindicationSum(k: Tariff, c: Case, w: Course)
    requires ValidCourse(w) && c.author.Some? && k.vindicationBonus > 0
    ensures StakeSum(k, w, Exoneration) + JurySum(k, c, w, Exoneration) + ExpertSum(k, c, w, Exoneration) ==
      DueOn(k, c, Standing(w), Exoneration)
      <==> (w.appeal.Some? && !w.appeal.value.defaulted ==>
              var x := w.appeal.value;
              && (x.overturned ==> if w.verdict.Upheld? then w.penalty < 0 else x.penalty < 0)
              && !(w.verdict.NoQuorum? && x.verdict.Dismissed?))
  {}

  /** The reviewer who closed the item as harmless pays the bonus back exactly if the standing verdict is
      upheld, unless that verdict came from overturning a dismissal: then nothing is taken back. */
  lemma ClawbackSettledIff(k: Tariff, e: Episode)
    requires WellFormed(k, e)
    ensures Net(Landed(k, e), Clawback) == DueOn(k, e.c, Effective(k, e), Clawback)
      <==> DueClawback(k, e.c, Upheld) == 0 || e.appeal.None? || !Experts(k, e).overturned || Jury(k, e).verdict.Upheld?
  {
    hide CourseOf, Experts, Jury, Net, Landed, WellFormed, SYSTEM, ValidCourse, StakeSum, JurySum, ExpertSum, DueOn,
        DueClawback, Effective, Standing;
    CourseDecides(k, e, Clawback);
    CourseIsValid(k, e);
    CourseMeans(k, e);
    StandingIsEffective(k, e);
    ClawbackSum(k, e.c, CourseOf(k, e));
  }

  lemma ClawbackSum(k: Tariff, c: Case, w: Course)
    requires ValidCourse(w)
    ensures StakeSum(k, w, Clawback) + JurySum(k, c, w, Clawback) + ExpertSum(k, c, w, Clawback) ==
      DueOn(k, c, Standing(w), Clawback)
      <==> DueClawback(k, c, Upheld) == 0 || w.appeal.None? || !w.appeal.value.overturned || w.verdict.Upheld?
  {
    ClawbackDue(k, c);
    hide DueClawback;
  }

  lemma ClawbackDue(k: Tariff, c: Case)
    ensures DueClawback(k, c, Dismissed) == DueClawback(k, c, ConservativeLabel) == DueClawback(k, c, NoQuorum) == 0
  {}
}
