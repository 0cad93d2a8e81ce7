/** What an episode costs and earns everybody, summed over filing, jury and appeal. */
module Outcomes {
  import opened Common
  import opened Score
  import opened Ballots
  import opened Reviews
  import opened Ledger
  import opened Settlement
  import opened Appeals
  import opened Episodes

  // ---------------------------------------------------------------- the experts' batch, side by side

  lemma FlippedDisputerNet(k: Tariff, c: Case, e: Earlier, v: Verdict, s: Side)
    requires Overturns(e.verdict, v)
    ensures Net(FlippedDisputer(k, c, e), s) ==
      if s == Disputing then DueDisputer(k, c, v) - DueDisputer(k, c, e.verdict.value) else 0
  {
    EntryNet(c.disputer, true, -(k.disputerStake + k.upheldBonus), SettlementReversed, s);
    EntryNet(c.disputer, true, k.disputerStake + k.upheldBonus, StakeRefundedBonus, s);
  }

  /** What an overturned verdict changes about the author's bonus: nothing unless a penalty moves with it. */
  function FlippedExoneration(k: Tariff, c: Case, before: Verdict, charged: int, penalty: int): int {
    if c.author.None? || k.vindicationBonus <= 0 then 0
    else if before.Upheld? then (if charged < 0 then k.vindicationBonus else 0)
    else if penalty < 0 then -k.vindicationBonus else 0
  }

  lemma FlippedAuthorNet(k: Tariff, c: Case, e: Earlier, v: Verdict, penalty: int, s: Side)
    requires Overturns(e.verdict, v)
    ensures Net(FlippedAuthor(k, c, e, penalty), s) ==
      if s == Penalty then DuePenalty(c, v, penalty) - DuePenalty(c, e.verdict.value, e.penalty)
      else if s == Exoneration then FlippedExoneration(k, c, e.verdict.value, e.penalty, penalty) else 0
  {
    TwoEntries(c.author, e.penalty < 0, -e.penalty, PenaltyReversed,
               c.author, e.penalty < 0 && k.vindicationBonus > 0, k.vindicationBonus, AppealVindication, s);
    var flip := e.verdict == Some(Dismissed) && penalty < 0;
    TwoEntries(c.author, flip, penalty, MismatchConfirmed,
               c.author, flip && k.vindicationBonus > 0, -k.vindicationBonus, VindicationRetracted, s);
    hide Entry, Net;
  }

  lemma FlippedReviewerNet(k: Tariff, c: Case, e: Earlier, v: Verdict, s: Side)
    requires Overturns(e.verdict, v)
    ensures Net(FlippedReviewer(k, c, e, v), s) ==
      if s == Reviewing then DueReviewer(k, c, v) - DueReviewer(k, c, e.verdict.value)
      else if s == Clawback && e.verdict == Some(Upheld) then -DueClawback(k, c, e.verdict.value) else 0
  {
    var esc, dis := Find(c.reviews, EscalatedToDispute), Find(c.reviews, ClosedDismissed);
    var taken := k.correctBonus > 0 && (e.verdict == Some(Upheld) || e.verdict == Some(ConservativeLabel));
    var paid := k.correctBonus > 0 && Vindicates(v);
    var back := e.verdict == Some(Upheld) && v.Dismissed? && esc.None? && k.wrongDismissClawback != 0;
    TwoEntries(Assigned(esc), taken, -k.correctBonus, ReviewBonusReversed, Assigned(esc), paid, k.correctBonus,
        ReviewBonusOnAppeal(ReviewId(esc)), s);
    EntryNet(Assigned(dis), back, -k.wrongDismissClawback, WrongDismissReversed, s);
    NetAppend(Entry(Assigned(esc), taken, -k.correctBonus, ReviewBonusReversed) +
      Entry(Assigned(esc), paid, k.correctBonus, ReviewBonusOnAppeal(ReviewId(esc))),
              Entry(Assigned(dis), back, -k.wrongDismissClawback, WrongDismissReversed), s);
    hide Entry, Net, Find;
  }

  /** What overturning the verdict `before` and its penalty `charged` changes on each side. */
  function FlipNet(k: Tariff, c: Case, before: Verdict, charged: int, v: Verdict, penalty: int, s: Side): int {
    match s
    case Disputing => DueDisputer(k, c, v) - DueDisputer(k, c, before)
    case Penalty => DuePenalty(c, v, penalty) - DuePenalty(c, before, charged)
    case Exoneration => FlippedExoneration(k, c, before, charged, penalty)
    case Reviewing => DueReviewer(k, c, v) - DueReviewer(k, c, before)
    case Clawback => if before.Upheld? then -DueClawback(k, c, before) else 0
    case Appealing => k.appellantStake + k.overturnBonus
    case _ => 0
  }

  lemma OverturnNet(k: Tariff, c: Case, e: Earlier, v: Verdict, penalty: int, s: Side)
    requires Overturns(e.verdict, v) && e.appellant.Some?
    ensures Net(OverturnEntries(k, c, e, v, penalty), s) == FlipNet(k, c, e.verdict.value, e.penalty, v, penalty, s)
  {
    EntryNet(e.appellant, true, k.appellantStake + k.overturnBonus, AppealOverturned, s);
    FlippedDisputerNet(k, c, e, v, s);
    FlippedAuthorNet(k, c, e, v, penalty, s);
    FlippedReviewerNet(k, c, e, v, s);
    FourParts(AppellantEntries(k, e), FlippedDisputer(k, c, e), FlippedAuthor(k, c, e, penalty), FlippedReviewer(k, c, e, v), s);
    hide Net, FlippedDisputer, FlippedAuthor, FlippedReviewer, DueDisputer, DuePenalty, DueExoneration, DueReviewer, DueClawback;
    hide FlippedExoneration, Entry;
  }

  lemma FourParts(p1: seq<Update>, p2: seq<Update>, p3: seq<Update>, p4: seq<Update>, s: Side)
    ensures Net(p1 + p2 + p3 + p4, s) == Net(p1, s) + Net(p2, s) + Net(p3, s) + Net(p4, s)
  {
    hide Net;
    NetAppend(p1, p2, s);
    NetAppend(p1 + p2, p3, s);
    NetAppend(p1 + p2 + p3, p4, s);
  }

  function FirstNet(k: Tariff, c: Case, v: Verdict, penalty: int, s: Side): int {
    if s == Exoneration then 0 else JuryNet(k, c, v, penalty, s)
  }

  /** A first verdict from the experts settles what one from the jury settles, but for the author's bonus. */
  lemma FirstVerdictNet(k: Tariff, c: Case, v: Verdict, penalty: int, s: Side)
    ensures Net(FirstVerdictEntries(k, c, v, penalty), s) == FirstNet(k, c, v, penalty, s)
  {
    var charge := Entry(c.author, v.Upheld? && penalty < 0, penalty, Stage3Penalty);
    FirstDisputerNet(k, c, v, s);
    FirstPenaltyNet(c, v, penalty, s);
    FirstReviewerNet(k, c, v, s);
    ThreeParts(FirstDisputer(k, c, v), charge, FirstReviewer(k, c, v), s);
    hide Net, FirstDisputer, FirstReviewer, DueDisputer, DuePenalty, DueExoneration, DueReviewer, DueClawback, Entry;
  }

  lemma FirstPenaltyNet(c: Case, v: Verdict, penalty: int, s: Side)
    ensures Net(Entry(c.author, v.Upheld? && penalty < 0, penalty, Stage3Penalty), s) ==
      if s == Penalty then DuePenalty(c, v, penalty) else 0
  {
    EntryNet(c.author, v.Upheld? && penalty < 0, penalty, Stage3Penalty, s);
  }

  lemma ThreeParts(p1: seq<Update>, p2: seq<Update>, p3: seq<Update>, s: Side)
    ensures Net(p1 + p2 + p3, s) == Net(p1, s) + Net(p2, s) + Net(p3, s)
  {
    hide Net;
    NetAppend(p1, p2, s);
    NetAppend(p1 + p2, p3, s);
  }

  lemma FirstDisputerNet(k: Tariff, c: Case, v: Verdict, s: Side)
    ensures Net(FirstDisputer(k, c, v), s) == if s == Disputing then DueDisputer(k, c, v) else 0
  {
    EntryNet(c.disputer, true, k.disputerStake + k.upheldBonus, Stage3Upheld, s);
    EntryNet(c.disputer, true, k.disputerStake, Stage3Conservative, s);
  }

  lemma FirstReviewerNet(k: Tariff, c: Case, v: Verdict, s: Side)
    ensures Net(FirstReviewer(k, c, v), s) ==
      if s == Reviewing then DueReviewer(k, c, v) else if s == Clawback then DueClawback(k, c, v) else 0
  {
    var esc, dis := Find(c.reviews, EscalatedToDispute), Find(c.reviews, ClosedDismissed);
    TwoEntries(Assigned(esc), Vindicates(v) && k.correctBonus > 0, k.correctBonus, ReviewBonusNoQuorum(ReviewId(esc)),
               Assigned(dis), v.Upheld? && esc.None? && k.wrongDismissClawback != 0, k.wrongDismissClawback, WrongDismissNoQuorum(ReviewId(dis)), s);
    hide Net, Find, Assigned, Entry;
  }

  /** The experts' ruling, side by side. */
  lemma ExpertRulingNet(k: Tariff, c: Case, log: seq<Update>, e: Earlier, b: Ballot, v: Verdict, penalty: int, s: Side)
    requires s != Credit && !s.Seat?
    ensures Net(ExpertRulingEntries(k, c, log, e, b, v, penalty), s) ==
      (if Overturns(e.verdict, v) && e.appellant.Some? then FlipNet(k, c, e.verdict.value, e.penalty, v, penalty, s) else 0)
      + (if e.verdict == Some(NoQuorum) then FirstNet(k, c, v, penalty, s) else 0)
  {
    CreditNet(ExpertCredit(c.author, log, v), s);
    SeatNet(b, k.experts, ExpertTier, s);
    if Overturns(e.verdict, v) && e.appellant.Some? {
      OverturnNet(k, c, e, v, penalty, s);
    }
    FirstVerdictNet(k, c, v, penalty, s);
    FourParts(ExpertCredit(c.author, log, v), FlipEntries(k, c, e, v, penalty), FirstEntries(k, c, e, v, penalty),
        SeatEntries(b, k.experts, ExpertTier), s);
    hide ExpertCredit, SeatEntries, OverturnEntries, FirstVerdictEntries, FlipNet, FirstNet;
  }

  lemma NoQuorumNet(k: Tariff, c: Case, b: Ballot, escalates: bool, s: Side)
    requires !s.Seat?
    ensures Net(NoQuorumEntries(k, c, b, escalates),
        s) == if s == Disputing && !escalates && c.disputer.Some? then k.disputerStake else 0
  {
    AbsenceNet(b.summons, JurorsOf(InTime(b)), b, k.jurors, JuryTier, s);
    EntryNet(c.disputer, !escalates, k.disputerStake, DisputeRefunded, s);
    NetAppend(AbsenceEntries(b.summons, JurorsOf(InTime(b)), b, k.jurors, JuryTier),
      Entry(c.disputer, !escalates, k.disputerStake, DisputeRefunded), s);
    hide Net, AbsenceEntries, Entry;
  }

  lemma DefaultNet(k: Tariff, c: Case, e: Earlier, b: Ballot, s: Side)
    requires !s.Seat?
    ensures Net(DefaultEntries(k, c, e, b), s) ==
      if s == Disputing && e.verdict == Some(NoQuorum) && c.disputer.Some? then k.disputerStake
      else if s == Appealing && e.appellant.Some? && e.appellant != Some(SYSTEM) then k.appellantStake else 0
  {
    AbsenceNet(b.summons, JurorsOf(InTime(b)), b, k.experts, ExpertTier, s);
    RefundsNet(k, AbsenceEntries(b.summons, JurorsOf(InTime(b)), b, k.experts, ExpertTier), c.disputer,
        e.verdict == Some(NoQuorum),
               e.appellant, e.appellant != Some(SYSTEM), s);
    hide Net, AbsenceEntries, Entry, JurorsOf, InTime, SYSTEM;
  }

  lemma RefundsNet(k: Tariff, absences: seq<Update>, disputer: Option<string>, undecided: bool,
      appellant: Option<string>, staked: bool, s: Side)
    ensures Net(absences + Entry(disputer, undecided, k.disputerStake, DisputeRefunded) +
      Entry(appellant, staked, k.appellantStake, AppealRefunded), s)
      == Net(absences, s) + (if s == Disputing && undecided && disputer.Some? then k.disputerStake else 0)
         + (if s == Appealing && staked && appellant.Some? then k.appellantStake else 0)
  {
    hide Net, Entry;
    EntryNet(disputer, undecided, k.disputerStake, DisputeRefunded, s);
    EntryNet(appellant, staked, k.appellantStake, AppealRefunded, s);
    ThreeParts(absences, Entry(disputer, undecided, k.disputerStake, DisputeRefunded),
      Entry(appellant, staked, k.appellantStake, AppealRefunded), s);
  }
}
