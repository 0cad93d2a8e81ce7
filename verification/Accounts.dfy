/** The accounts of a dispute spelled out: what each kind of entry carries, and what each side comes to (node/src/jury.js). */
module Accounts {
  import opened Common
  import opened Score
  import opened Ballots
  import opened Reviews
  import opened Ledger
  import opened Settlement
  import opened Appeals
  import opened Episodes
  import opened Outcomes
  import opened EntryKeys
  import opened Credits
  import opened PathIndependence

  // ---------------------------------------------------------------- what an entry carries

  function SeatsOf(k: Tariff, tier: Tier): SeatTariff {
    if tier.JuryTier? then k.jurors else k.experts
  }

  /** The amount that goes with a reason; `charged` and `newly` are the penalties of the two results. */
  predicate Carries(k: Tariff, charged: int, newly: int, u: Update) {
    match u.reason
    case DisputeStake => u.delta == -k.disputerStake
    case DisputeRefunded | DisputeConservative | Stage3Conservative => u.delta == k.disputerStake
    case DisputeUpheld | StakeRefundedBonus | Stage3Upheld => u.delta == k.disputerStake + k.upheldBonus
    case SettlementReversed => u.delta == -(k.disputerStake + k.upheldBonus)
    case AppealStake => u.delta == -k.appellantStake
    case AppealRefunded => u.delta == k.appellantStake
    case AppealOverturned => u.delta == k.appellantStake + k.overturnBonus
    case MajorityVote(t) => u.delta == SeatsOf(k, t).majorityBonus
    case MinorityVote(t) => u.delta == -SeatsOf(k, t).minorityPenalty
    case NoReveal(t) => u.delta == -SeatsOf(k, t).noReveal
    case NoCommit(t) => u.delta == -SeatsOf(k, t).noCommit
    case AuthorPenalty => u.delta == charged < 0
    case PenaltyReversed => u.delta == -charged > 0
    case MismatchConfirmed | Stage3Penalty => u.delta == newly < 0
    case Vindication | AppealVindication => u.delta == k.vindicationBonus > 0
    case VindicationRetracted => u.delta == -k.vindicationBonus < 0
    case ReviewBonus(_) | ReviewBonusOnAppeal(_) | ReviewBonusNoQuorum(_) => u.delta == k.correctBonus > 0
    case ReviewBonusReversed => u.delta == -k.correctBonus < 0
    case WrongDismiss(_) | WrongDismissNoQuorum(_) => u.delta == k.wrongDismissClawback != 0
    case WrongDismissReversed => u.delta == -k.wrongDismissClawback != 0
    case CreditReversal => u.delta < 0
    case CreditRestore => u.delta > 0
    case CreditAward => true
    case Other(_) => true
  }

  ghost predicate AllCarry(k: Tariff, charged: int, newly: int, us: seq<Update>) {
    forall u | u in us :: Carries(k, charged, newly, u)
  }

  lemma CarryConcat(k: Tariff, charged: int, newly: int, a: seq<Update>, b: seq<Update>)
    requires AllCarry(k, charged, newly, a) && AllCarry(k, charged, newly, b)
    ensures AllCarry(k, charged, newly, a + b)
  {
    hide Carries;
  }

  lemma {:induction false} VotesCarry(k: Tariff, charged: int, newly: int, rs: seq<Reveal>, favoured: Vote, tier: Tier)
    ensures AllCarry(k, charged, newly, VoteEntries(rs, favoured, SeatsOf(k, tier), tier))
  {
    if rs != [] {
      VotesCarry(k, charged, newly, rs[..|rs| - 1], favoured, tier);
    }
  }

  lemma {:induction false} AbsencesCarry(k: Tariff, charged: int, newly: int, summons: seq<Summons>, revealed: set<string>, b: Ballot, tier: Tier)
    ensures AllCarry(k, charged, newly, AbsenceEntries(summons, revealed, b, SeatsOf(k, tier), tier))
  {
    if summons != [] {
      AbsencesCarry(k, charged, newly, summons[..|summons| - 1], revealed, b, tier);
    }
  }

  lemma SeatsCarry(k: Tariff, charged: int, newly: int, b: Ballot, tier: Tier)
    ensures AllCarry(k, charged, newly, SeatEntries(b, SeatsOf(k, tier), tier))
  {
    VotesCarry(k, charged, newly, InTime(b), Favoured(InTime(b)), tier);
    AbsencesCarry(k, charged, newly, b.summons, JurorsOf(InTime(b)), b, tier);
    hide VoteEntries, AbsenceEntries, InTime, Favoured, AllCarry;
    CarryConcat(k, charged, newly, VoteEntries(InTime(b), Favoured(InTime(b)), SeatsOf(k, tier), tier),
                AbsenceEntries(b.summons, JurorsOf(InTime(b)), b, SeatsOf(k, tier), tier));
  }

  lemma JuryPartsCarry(k: Tariff, c: Case, log: seq<Update>, v: Verdict, charged: int, newly: int)
    ensures AllCarry(k, charged, newly, JuryAuthorEntries(k, c, log, v, charged)) && AllCarry(k, charged, newly, DisputerEntries(k, c, v))
    ensures AllCarry(k, charged, newly, VindicationEntries(k, c, v))
  {
    hide CreditSum, Reversed;
  }

  lemma JuryReviewerCarries(k: Tariff, c: Case, v: Verdict, charged: int, newly: int)
    ensures AllCarry(k, charged, newly, JuryReviewerEntries(k, c, v))
  {
    hide Find;
  }

  lemma JuryRulingCarries(k: Tariff, c: Case, log: seq<Update>, b: Ballot, v: Verdict, charged: int, newly: int)
    ensures AllCarry(k, charged, newly, JuryRulingEntries(k, c, log, b, v, charged))
  {
    var author, seats, disputer := JuryAuthorEntries(k, c, log, v, charged), SeatEntries(b, k.jurors, JuryTier), DisputerEntries(k, c, v);
    SeatsCarry(k, charged, newly, b, JuryTier);
    hide AllCarry, JuryAuthorEntries, SeatEntries, DisputerEntries, JuryReviewerEntries, VindicationEntries;
    JuryPartsCarry(k, c, log, v, charged, newly);
    JuryReviewerCarries(k, c, v, charged, newly);
    CarryConcat(k, charged, newly, author, seats);
    CarryConcat(k, charged, newly, author + seats, disputer);
    CarryConcat(k, charged, newly, author + seats + disputer, JuryReviewerEntries(k, c, v));
    CarryConcat(k, charged, newly, author + seats + disputer + JuryReviewerEntries(k, c, v), VindicationEntries(k, c, v));
  }

  lemma NoQuorumCarries(k: Tariff, c: Case, b: Ballot, escalates: bool, charged: int, newly: int)
    ensures AllCarry(k, charged, newly, NoQuorumEntries(k, c, b, escalates))
  {
    AbsencesCarry(k, charged, newly, b.summons, JurorsOf(InTime(b)), b, JuryTier);
    assert AllCarry(k, charged, newly, Entry(c.disputer, !escalates, k.disputerStake, DisputeRefunded));
    hide AllCarry, AbsenceEntries, Entry, InTime;
    CarryConcat(k, charged, newly, AbsenceEntries(b.summons, JurorsOf(InTime(b)), b, k.jurors, JuryTier),
                Entry(c.disputer, !escalates, k.disputerStake, DisputeRefunded));
  }

  lemma FlippedPartiesCarry(k: Tariff, c: Case, e: Earlier, newly: int)
    ensures AllCarry(k, e.penalty, newly, AppellantEntries(k, e)) && AllCarry(k, e.penalty, newly, FlippedDisputer(k, c, e))
    ensures AllCarry(k, e.penalty, newly, FlippedAuthor(k, c, e, newly))
  {}

  lemma FlippedReviewerCarries(k: Tariff, c: Case, e: Earlier, v: Verdict, newly: int)
    ensures AllCarry(k, e.penalty, newly, FlippedReviewer(k, c, e, v))
  {
    hide Find;
  }

  lemma OverturnCarries(k: Tariff, c: Case, e: Earlier, v: Verdict, newly: int)
    ensures AllCarry(k, e.penalty, newly, OverturnEntries(k, c, e, v, newly))
  {
    hide AllCarry, AppellantEntries, FlippedDisputer, FlippedAuthor, FlippedReviewer;
    FlippedPartiesCarry(k, c, e, newly);
    FlippedReviewerCarries(k, c, e, v, newly);
    CarryConcat(k, e.penalty, newly, AppellantEntries(k, e), FlippedDisputer(k, c, e));
    CarryConcat(k, e.penalty, newly, AppellantEntries(k, e) + FlippedDisputer(k, c, e), FlippedAuthor(k, c, e, newly));
    CarryConcat(k, e.penalty, newly, AppellantEntries(k, e) + FlippedDisputer(k, c, e) + FlippedAuthor(k, c, e, newly),
                FlippedReviewer(k, c, e, v));
  }

  lemma FirstPartsCarry(k: Tariff, c: Case, v: Verdict, charged: int, newly: int)
    ensures AllCarry(k, charged, newly, FirstDisputer(k, c, v)) && AllCarry(k, charged, newly, FirstReviewer(k, c, v))
    ensures AllCarry(k, charged, newly, Entry(c.author, v.Upheld? && newly < 0, newly, Stage3Penalty))
  {
    hide Find;
  }

  lemma FirstVerdictCarries(k: Tariff, c: Case, v: Verdict, charged: int, newly: int)
    ensures AllCarry(k, charged, newly, FirstVerdictEntries(k, c, v, newly))
  {
    var charge := Entry(c.author, v.Upheld? && newly < 0, newly, Stage3Penalty);
    hide AllCarry, FirstDisputer, FirstReviewer, Entry;
    FirstPartsCarry(k, c, v, charged, newly);
    CarryConcat(k, charged, newly, FirstDisputer(k, c, v), charge);
    CarryConcat(k, charged, newly, FirstDisputer(k, c, v) + charge, FirstReviewer(k, c, v));
  }

  lemma ExpertCreditCarries(k: Tariff, author: Option<string>, log: seq<Update>, v: Verdict, charged: int, newly: int)
    ensures AllCarry(k, charged, newly, ExpertCredit(author, log, v))
  {
    hide CreditSum;
  }

  lemma ExpertRulingCarries(k: Tariff, c: Case, log: seq<Update>, e: Earlier, b: Ballot, v: Verdict, newly: int)
    ensures AllCarry(k, e.penalty, newly, ExpertRulingEntries(k, c, log, e, b, v, newly))
  {
    var credit, flip, first := ExpertCredit(c.author, log, v), FlipEntries(k, c, e, v, newly), FirstEntries(k, c, e, v, newly);
    OverturnCarries(k, c, e, v, newly);
    FirstVerdictCarries(k, c, v, e.penalty, newly);
    assert AllCarry(k, e.penalty, newly, flip) && AllCarry(k, e.penalty, newly, first);
    SeatsCarry(k, e.penalty, newly, b, ExpertTier);
    hide AllCarry, ExpertCredit, FlipEntries, FirstEntries, SeatEntries, OverturnEntries, FirstVerdictEntries;
    ExpertCreditCarries(k, c.author, log, v, e.penalty, newly);
    CarryConcat(k, e.penalty, newly, credit, flip);
    CarryConcat(k, e.penalty, newly, credit + flip, first);
    CarryConcat(k, e.penalty, newly, credit + flip + first, SeatEntries(b, k.experts, ExpertTier));
  }

  lemma DefaultCarries(k: Tariff, c: Case, e: Earlier, b: Ballot, newly: int)
    ensures AllCarry(k, e.penalty, newly, DefaultEntries(k, c, e, b))
  {
    var absences := AbsenceEntries(b.summons, JurorsOf(InTime(b)), b, k.experts, ExpertTier);
    var refund, stake := Entry(c.disputer, e.verdict == Some(NoQuorum), k.disputerStake, DisputeRefunded),
                         Entry(e.appellant, e.appellant != Some(SYSTEM), k.appellantStake, AppealRefunded);
    hide SYSTEM, InTime;
    assert AllCarry(k, e.penalty, newly, refund) && AllCarry(k, e.penalty, newly, stake);
    AbsencesCarry(k, e.penalty, newly, b.summons, JurorsOf(InTime(b)), b, ExpertTier);
    hide AllCarry, AbsenceEntries, Entry;
    CarryConcat(k, e.penalty, newly, absences, refund);
    CarryConcat(k, e.penalty, newly, absences + refund, stake);
  }

  /** Every entry of an episode carries the amount that its reason stands for. */
  lemma EntriesCarryTheirAmounts(k: Tariff, e: Episode)
    ensures var charged, newly := Jury(k, e).authorDelta, if e.appeal.Some? then Experts(k, e).overturnDelta else 0;
      && AllCarry(k, charged, newly, Entry(e.c.disputer, true, -k.disputerStake, DisputeStake))
      && AllCarry(k, charged, newly, Entries2(k, e)) && AllCarry(k, charged, newly, AppealFiling(k, e))
      && AllCarry(k, charged, newly, Entries3(k, e))
  {
    var r := Jury(k, e);
    var charged, newly := r.authorDelta, if e.appeal.Some? then Experts(k, e).overturnDelta else 0;
    FilingsCarry(k, e, charged, newly);
    hide AllCarry, JuryResult, AppealOutcome, Filed, Appealed, NoQuorumEntries, JuryRulingEntries, DefaultEntries, ExpertRulingEntries;
    if r.verdict.NoQuorum? {
      NoQuorumCarries(k, e.c, e.jury, !r.terminal, charged, newly);
    } else {
      JuryRulingCarries(k, e.c, Filed(k, e), e.jury, r.verdict, charged, newly);
    }
    if e.appeal.Some? {
      var x, earlier, b := Experts(k, e), EarlierOf(k, e), e.appeal.value.ballot;
      if x.defaulted {
        DefaultCarries(k, e.c, earlier, b, newly);
      } else {
        ExpertRulingCarries(k, e.c, Appealed(k, e), earlier, b, x.verdict, newly);
      }
    } else {
      NothingCarried(k, charged, newly);
    }
  }

  lemma NothingCarried(k: Tariff, charged: int, newly: int)
    ensures AllCarry(k, charged, newly, [])
  {}

  lemma FilingsCarry(k: Tariff, e: Episode, charged: int, newly: int)
    ensures AllCarry(k, charged, newly, Entry(e.c.disputer, true, -k.disputerStake, DisputeStake))
    ensures AllCarry(k, charged, newly, AppealFiling(k, e))
  {
    hide SYSTEM;
  }

  // ---------------------------------------------------------------- the reviewers concerned

  /** The first review record in a state is this one. */
  ghost predicate FirstWith(reviews: seq<Review>, state: ReviewState, i: int) {
    0 <= i < |reviews| && reviews[i].state == state && forall j | 0 <= j < i :: reviews[j].state != state
  }

  lemma {:induction false} FindIsFirst(reviews: seq<Review>, state: ReviewState)
    ensures Find(reviews, state).None? <==> forall r | r in reviews :: r.state != state
    ensures Find(reviews, state).Some? ==> exists i :: FirstWith(reviews, state, i) && Find(reviews, state) == Some(reviews[i])
  {
    if reviews != [] {
      if reviews[0].state == state {
        assert FirstWith(reviews, state, 0);
      } else {
        FindIsFirst(reviews[1..], state);
        if Find(reviews[1..], state).Some? {
          var i :| FirstWith(reviews[1..], state, i) && Find(reviews[1..], state) == Some(reviews[1..][i]);
          assert FirstWith(reviews, state, i + 1);
        }
      }
    }
  }

  /** The reviewer on the first record in a state. */
  ghost predicate ReviewerOf(reviews: seq<Review>, state: ReviewState, who: string) {
    exists i :: FirstWith(reviews, state, i) && reviews[i].reviewer == Some(who)
  }

  ghost predicate HasReviewer(reviews: seq<Review>, state: ReviewState) {
    exists who :: ReviewerOf(reviews, state, who)
  }

  lemma AssignedIs(reviews: seq<Review>, state: ReviewState)
    ensures forall who :: Assigned(Find(reviews, state)) == Some(who) <==> ReviewerOf(reviews, state, who)
    ensures Assigned(Find(reviews, state)).Some? <==> HasReviewer(reviews, state)
  {
    FindIsFirst(reviews, state);
    hide Find;
    forall who ensures Assigned(Find(reviews, state)) == Some(who) <==> ReviewerOf(reviews, state, who) {
      if ReviewerOf(reviews, state, who) {
        var i :| FirstWith(reviews, state, i) && reviews[i].reviewer == Some(who);
        assert reviews[i] in reviews;
        var j :| FirstWith(reviews, state, j) && Find(reviews, state) == Some(reviews[j]);
        assert i == j;
      }
    }
    if Assigned(Find(reviews, state)).Some? {
      assert ReviewerOf(reviews, state, Assigned(Find(reviews, state)).value);
    }
  }

  // ---------------------------------------------------------------- sides that follow the reviews and the author

  /** The reviewer who escalated the item has the bonus exactly if something was found wrong in the end. */
  lemma ReviewerAccount(k: Tariff, e: Episode)
    requires WellFormed(k, e)
    ensures Net(Landed(k, e), Reviewing) ==
      if HasReviewer(e.c.reviews, EscalatedToDispute) && (Effective(k, e) == Some(Upheld) || Effective(k, e) == Some(ConservativeLabel))
      then k.correctBonus else 0
  {
    assert k.correctBonus >= 0;
    ReviewerSettled(k, e);
    hide Net, Landed, Effective, WellFormed, HasReviewer, DueReviewer;
    if Effective(k, e).Some? {
      DueReviewerIs(k, e.c, Effective(k, e).value);
    }
  }

  lemma DueReviewerIs(k: Tariff, c: Case, v: Verdict)
    requires k.correctBonus >= 0
    ensures DueReviewer(k, c, v) ==
      if HasReviewer(c.reviews, EscalatedToDispute) && (v.Upheld? || v.ConservativeLabel?) then k.correctBonus else 0
  {
    AssignedIs(c.reviews, EscalatedToDispute);
    hide HasReviewer, Find, Assigned;
  }

  /** The author's exoneration bonus: paid by the jury's dismissal, taken back by an overturn that penalises,
      and paid by an overturn that lifts a penalty. */
  lemma ExonerationAccount(k: Tariff, e: Episode)
    requires WellFormed(k, e)
    ensures var r := Jury(k, e);
      Net(Landed(k, e), Exoneration) ==
        (if r.verdict.Dismissed? then k.vindicationBonus else 0)
        + if e.appeal.None? || !Experts(k, e).overturned then 0
          else if r.verdict.Upheld? && r.authorDelta < 0 then k.vindicationBonus
          else if r.verdict.Dismissed? && Experts(k, e).overturnDelta < 0 then -k.vindicationBonus
          else 0
  {
    assert k.vindicationBonus >= 0 && e.c.author.Some?;
    hide CourseOf, Experts, Jury, Net, Landed, WellFormed, ValidCourse, StakeSum, JurySum, ExpertSum;
    CourseDecides(k, e, Exoneration);
    CourseIsValid(k, e);
    CourseMeans(k, e);
    ExonerationSum(k, e.c, CourseOf(k, e));
  }

  lemma ExonerationSum(k: Tariff, c: Case, w: Course)
    requires ValidCourse(w) && c.author.Some? && k.vindicationBonus >= 0
    ensures StakeSum(k, w, Exoneration) + JurySum(k, c, w, Exoneration) + ExpertSum(k, c, w, Exoneration) ==
      (if w.verdict.Dismissed? then k.vindicationBonus else 0)
      + if w.appeal.None? || !w.appeal.value.overturned then 0
        else if w.verdict.Upheld? && w.penalty < 0 then k.vindicationBonus
        else if w.verdict.Dismissed? && w.appeal.value.penalty < 0 then -k.vindicationBonus
        else 0
  {}

  /** The reviewer who had closed the item as harmless, if nobody escalated it: charged by a verdict of upheld
      from the jury or as the experts' first, and relieved when the jury's is overturned. */
  lemma ClawbackAccount(k: Tariff, e: Episode)
    requires WellFormed(k, e)
    ensures var v := Jury(k, e).verdict;
      Net(Landed(k, e), Clawback) ==
        if !HasReviewer(e.c.reviews, ClosedDismissed) || (exists r :: r in e.c.reviews && r.state.EscalatedToDispute?) then 0
        else if v.Upheld? then (if e.appeal.Some? && Experts(k, e).overturned then 0 else k.wrongDismissClawback)
        else if v.NoQuorum? && e.appeal.Some? && Experts(k, e).verdict.Upheld? then k.wrongDismissClawback
        else 0
  {
    AssignedIs(e.c.reviews, ClosedDismissed);
    FindIsFirst(e.c.reviews, EscalatedToDispute);
    hide CourseOf, Experts, Jury, Net, Landed, WellFormed, ValidCourse, StakeSum, JurySum, ExpertSum, Find, HasReviewer;
    CourseDecides(k, e, Clawback);
    CourseIsValid(k, e);
    CourseMeans(k, e);
    ClawbackSums(k, e.c, CourseOf(k, e));
  }

  lemma ClawbackSums(k: Tariff, c: Case, w: Course)
    requires ValidCourse(w)
    ensures StakeSum(k, w, Clawback) + JurySum(k, c, w, Clawback) + ExpertSum(k, c, w, Clawback) ==
      if Assigned(Find(c.reviews, ClosedDismissed)).None? || Find(c.reviews, EscalatedToDispute).Some? then 0
      else if w.verdict.Upheld? then (if w.appeal.Some? && w.appeal.value.overturned then 0 else k.wrongDismissClawback)
      else if w.verdict.NoQuorum? && w.appeal.Some? && w.appeal.value.verdict.Upheld? then k.wrongDismissClawback
      else 0
  {
    hide Find;
  }

  // ---------------------------------------------------------------- credit

  /** The sum of a person's entries for certain reasons. */
  function Total(us: seq<Update>, person: string, reasons: set<Reason>): int {
    if us == [] then 0 else
    (if us[0].tip == person && us[0].reason in reasons then us[0].delta else 0) + Total(us[1..], person, reasons)
  }

  /** An author's credit: awards, reversals and restores of that person, or the awards alone. */
  lemma {:induction false} CreditIsTotal(us: seq<Update>, person: string)
    ensures CreditSum(us, person, true) == Total(us, person, {CreditAward})
    ensures CreditSum(us, person, false) == Total(us, person, {CreditAward, CreditReversal, CreditRestore})
  {
    if us != [] {
      CreditIsTotal(us[1..], person);
      assert us == [us[0]] + us[1..];
      CreditSumAppend([us[0]], us[1..], person, true);
      CreditSumAppend([us[0]], us[1..], person, false);
      assert [us[0]][..0] == [];
    }
  }

  /** The author's registration credit after an episode: nothing left if the last verdict given is upheld, else
      all that was awarded. */
  lemma CreditAccount(k: Tariff, e: Episode)
    requires WellFormed(k, e)
    ensures var v := if e.appeal.Some? && !Experts(k, e).defaulted then Experts(k, e).verdict else Jury(k, e).verdict;
      Total(Landed(k, e), e.c.author.value, {CreditAward, CreditReversal, CreditRestore}) ==
        if v.Upheld? then 0 else Total(e.prior, e.c.author.value, {CreditAward})
  {
    CreditSettled(k, e);
    CreditIsTotal(Landed(k, e), e.c.author.value);
    CreditIsTotal(e.prior, e.c.author.value);
    hide Landed, Experts, Jury, WellFormed, CreditSum, Total;
  }
}
