/** Every entry of an episode goes to the person whose account it settles. */
module Holders {
  import opened Common
  import opened Score
  import opened Ballots
  import opened Reviews
  import opened Ledger
  import opened Settlement
  import opened Appeals
  import opened Episodes
  import opened EntryKeys

  /** Whose account each side is; seats are their holders' own. */
  ghost predicate Right(c: Case, appellant: Option<string>, u: Update) {
    match SideOf(u.reason)
    case Disputing => c.disputer == Some(u.tip)
    case Penalty => c.author == Some(u.tip)
    case Exoneration => c.author == Some(u.tip)
    case Credit => c.author == Some(u.tip)
    case Appealing => appellant == Some(u.tip)
    case Reviewing => Assigned(Find(c.reviews, EscalatedToDispute)) == Some(u.tip)
    case Clawback => Assigned(Find(c.reviews, ClosedDismissed)) == Some(u.tip)
    case _ => true
  }

  ghost predicate AllRight(c: Case, appellant: Option<string>, us: seq<Update>) {
    forall u | u in us :: Right(c, appellant, u)
  }

  lemma RightConcat(c: Case, appellant: Option<string>, a: seq<Update>, b: seq<Update>)
    requires AllRight(c, appellant, a) && AllRight(c, appellant, b)
    ensures AllRight(c, appellant, a + b)
  {}

  lemma SeatsRight(c: Case, appellant: Option<string>, b: Ballot, t: SeatTariff, tier: Tier)
    ensures AllRight(c, appellant, SeatEntries(b, t, tier))
    ensures AllRight(c, appellant, AbsenceEntries(b.summons, JurorsOf(InTime(b)), b, t, tier))
  {
    SeatVotes(InTime(b), Favoured(InTime(b)), t, tier);
    SeatAbsences(b.summons, JurorsOf(InTime(b)), b, t, tier);
    hide VoteEntries, AbsenceEntries, InTime, Find;
    RightConcat(c, appellant, VoteEntries(InTime(b), Favoured(InTime(b)), t, tier),
      AbsenceEntries(b.summons, JurorsOf(InTime(b)), b, t, tier));
  }

  lemma JuryPartsRight(k: Tariff, c: Case, appellant: Option<string>, log: seq<Update>, v: Verdict, penalty: int)
    ensures AllRight(c, appellant, JuryAuthorEntries(k, c, log, v, penalty)) && AllRight(c, appellant, DisputerEntries(k, c, v))
    ensures AllRight(c, appellant, JuryReviewerEntries(k, c, v)) && AllRight(c, appellant, VindicationEntries(k, c, v))
  {
    JuryReviewerRight(k, c, appellant, v);
    hide Find, JuryReviewerEntries;
  }

  lemma JuryReviewerRight(k: Tariff, c: Case, appellant: Option<string>, v: Verdict)
    ensures AllRight(c, appellant, JuryReviewerEntries(k, c, v))
  {
    hide Find;
  }

  lemma JuryRulingRight(k: Tariff, c: Case, appellant: Option<string>, log: seq<Update>, b: Ballot, v: Verdict, penalty: int)
    ensures AllRight(c, appellant, JuryRulingEntries(k, c, log, b, v, penalty))
  {
    var author, seats, disputer := JuryAuthorEntries(k, c, log, v, penalty), SeatEntries(b, k.jurors, JuryTier), DisputerEntries(k, c, v);
    hide AllRight, JuryAuthorEntries, SeatEntries, DisputerEntries, JuryReviewerEntries, VindicationEntries;
    JuryPartsRight(k, c, appellant, log, v, penalty);
    SeatsRight(c, appellant, b, k.jurors, JuryTier);
    RightConcat(c, appellant, author, seats);
    RightConcat(c, appellant, author + seats, disputer);
    RightConcat(c, appellant, author + seats + disputer, JuryReviewerEntries(k, c, v));
    RightConcat(c, appellant, author + seats + disputer + JuryReviewerEntries(k, c, v), VindicationEntries(k, c, v));
  }

  lemma RefundRight(k: Tariff, c: Case, appellant: Option<string>, cond: bool)
    ensures AllRight(c, appellant, Entry(c.disputer, cond, k.disputerStake, DisputeRefunded))
  {}

  lemma NoQuorumRight(k: Tariff, c: Case, appellant: Option<string>, b: Ballot, escalates: bool)
    ensures AllRight(c, appellant, NoQuorumEntries(k, c, b, escalates))
  {
    hide AllRight, AbsenceEntries, Entry;
    SeatsRight(c, appellant, b, k.jurors, JuryTier);
    RefundRight(k, c, appellant, !escalates);
    RightConcat(c, appellant, AbsenceEntries(b.summons, JurorsOf(InTime(b)), b, k.jurors, JuryTier),
                Entry(c.disputer, !escalates, k.disputerStake, DisputeRefunded));
  }

  lemma OverturnRight(k: Tariff, c: Case, e: Earlier, v: Verdict, penalty: int)
    ensures AllRight(c, e.appellant, OverturnEntries(k, c, e, v, penalty))
  {
    FlippedPartiesRight(k, c, e, penalty);
    FlippedReviewerRight(k, c, e, v);
    hide AllRight, AppellantEntries, FlippedDisputer, FlippedAuthor, FlippedReviewer;
    RightConcat(c, e.appellant, AppellantEntries(k, e), FlippedDisputer(k, c, e));
    RightConcat(c, e.appellant, AppellantEntries(k, e) + FlippedDisputer(k, c, e), FlippedAuthor(k, c, e, penalty));
    RightConcat(c, e.appellant, AppellantEntries(k, e) + FlippedDisputer(k, c, e) + FlippedAuthor(k, c, e, penalty),
                FlippedReviewer(k, c, e, v));
  }

  lemma FlippedPartiesRight(k: Tariff, c: Case, e: Earlier, penalty: int)
    ensures AllRight(c, e.appellant, AppellantEntries(k, e)) && AllRight(c, e.appellant, FlippedDisputer(k, c, e))
    ensures AllRight(c, e.appellant, FlippedAuthor(k, c, e, penalty))
  {
    hide Find;
  }

  lemma FlippedReviewerRight(k: Tariff, c: Case, e: Earlier, v: Verdict)
    ensures AllRight(c, e.appellant, FlippedReviewer(k, c, e, v))
  {
    hide Find;
  }

  lemma FirstVerdictRight(k: Tariff, c: Case, appellant: Option<string>, v: Verdict, penalty: int)
    ensures AllRight(c, appellant, FirstVerdictEntries(k, c, v, penalty))
  {
    var charge := Entry(c.author, v.Upheld? && penalty < 0, penalty, Stage3Penalty);
    FirstPartiesRight(k, c, appellant, v, penalty);
    FirstReviewerRight(k, c, appellant, v);
    hide AllRight, FirstDisputer, FirstReviewer, Entry;
    RightConcat(c, appellant, FirstDisputer(k, c, v), charge);
    RightConcat(c, appellant, FirstDisputer(k, c, v) + charge, FirstReviewer(k, c, v));
  }

  lemma FirstPartiesRight(k: Tariff, c: Case, appellant: Option<string>, v: Verdict, penalty: int)
    ensures AllRight(c, appellant, FirstDisputer(k, c, v))
    ensures AllRight(c, appellant, Entry(c.author, v.Upheld? && penalty < 0, penalty, Stage3Penalty))
  {
    hide Find;
  }

  lemma FirstReviewerRight(k: Tariff, c: Case, appellant: Option<string>, v: Verdict)
    ensures AllRight(c, appellant, FirstReviewer(k, c, v))
  {
    hide Find;
  }

  lemma ExpertRulingRight(k: Tariff, c: Case, log: seq<Update>, e: Earlier, b: Ballot, v: Verdict, penalty: int)
    ensures AllRight(c, e.appellant, ExpertRulingEntries(k, c, log, e, b, v, penalty))
  {
    var credit, flip, first := ExpertCredit(c.author, log, v), FlipEntries(k, c, e, v, penalty),
      FirstEntries(k, c, e, v, penalty);
    assert AllRight(c, e.appellant, credit);
    OverturnRight(k, c, e, v, penalty);
    FirstVerdictRight(k, c, e.appellant, v, penalty);
    assert AllRight(c, e.appellant, flip) && AllRight(c, e.appellant, first);
    hide AllRight, ExpertCredit, FlipEntries, FirstEntries, SeatEntries, OverturnEntries, FirstVerdictEntries;
    SeatsRight(c, e.appellant, b, k.experts, ExpertTier);
    RightConcat(c, e.appellant, credit, flip);
    RightConcat(c, e.appellant, credit + flip, first);
    RightConcat(c, e.appellant, credit + flip + first, SeatEntries(b, k.experts, ExpertTier));
  }

  lemma DefaultRight(k: Tariff, c: Case, e: Earlier, b: Ballot)
    ensures AllRight(c, e.appellant, DefaultEntries(k, c, e, b))
  {
    var absences := AbsenceEntries(b.summons, JurorsOf(InTime(b)), b, k.experts, ExpertTier);
    var refund := Entry(c.disputer, e.verdict == Some(NoQuorum), k.disputerStake, DisputeRefunded);
    var stake := Entry(e.appellant, e.appellant != Some(SYSTEM), k.appellantStake, AppealRefunded);
    assert AllRight(c, e.appellant, stake) by { hide SYSTEM, Find; }
    hide AllRight, AbsenceEntries, Entry, SYSTEM;
    SeatsRight(c, e.appellant, b, k.experts, ExpertTier);
    RefundRight(k, c, e.appellant, e.verdict == Some(NoQuorum));
    RightConcat(c, e.appellant, absences, refund);
    RightConcat(c, e.appellant, absences + refund, stake);
  }

  /** Whatever an episode comes to, each entry of both batches is addressed to the right account: the
      disputer's, the author's, the appellant's, or that of the reviewer it concerns. */
  lemma EntriesReachTheirHolders(k: Tariff, e: Episode)
    ensures AllRight(e.c, None, Entries2(k, e))
    ensures e.appeal.Some? ==> AllRight(e.c, Some(e.appeal.value.appellant), AppealFiling(k, e) + Entries3(k, e))
  {
    var r := Jury(k, e);
    hide AllRight, JuryResult, AppealOutcome, Filed, Appealed;
    if r.verdict.NoQuorum? {
      NoQuorumRight(k, e.c, None, e.jury, !r.terminal);
    } else {
      JuryRulingRight(k, e.c, None, Filed(k, e), e.jury, r.verdict, r.authorDelta);
    }
    if e.appeal.Some? {
      var x, earlier, b := Experts(k, e), EarlierOf(k, e), e.appeal.value.ballot;
      if x.defaulted {
        DefaultRight(k, e.c, earlier, b);
      } else {
        ExpertRulingRight(k, e.c, Appealed(k, e), earlier, b, x.verdict, x.overturnDelta);
      }
      FilingRight(k, e);
      hide AppealFiling, Entries3;
      RightConcat(e.c, Some(e.appeal.value.appellant), AppealFiling(k, e), Entries3(k, e));
    }
  }

  lemma FilingRight(k: Tariff, e: Episode)
    requires e.appeal.Some?
    ensures AllRight(e.c, Some(e.appeal.value.appellant), AppealFiling(k, e))
  {
    hide SYSTEM;
  }
}
