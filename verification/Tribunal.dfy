/** What one batch decides, for the case, for the panel and for the nodes that build it side by side. */
module Tribunal {
  import opened Common
  import opened Score
  import opened Ballots
  import opened Reviews
  import opened Ledger
  import opened Settlement
  import opened Appeals
  import opened Episodes
  import opened EntryKeys
  import opened Landing
  import Selection

  // ---------------------------------------------------------------- verdicts

  /** The origin a jury's result confirms is the one its mismatch votes name most often, the first named
      among equals. */
  lemma ConfirmedOriginLeads(k: Tariff, c: Case, b: Ballot, experts: seq<string>, offenses: int)
    ensures var r, rs := JuryResult(k, c, b, experts, offenses), InTime(b);
      Origins(rs) != [] && Vindicates(r.verdict) ==> r.confirmed.Some? && Leads(Origins(rs), r.confirmed.value)
  {
    MajorityOriginLeads(InTime(b), c.claimed);
    hide Count, InTime, MajorityOrigin, Leads, AdjudicationDelta;
  }

  /** Without a decision the batch either closes the case and files no appeal, or files one and summons at
      least the experts a ruling needs; with a decision it does neither. */
  lemma EscalatesOrEnds(k: Tariff, c: Case, log: seq<Update>, b: Ballot, experts: seq<string>, offenses: int)
    ensures var txs, r := JuryBatch(k, c, log, b, experts, offenses), JuryResult(k, c, b, experts, offenses);
      && txs[0] == AdjudicationTx(r)
      && (r.verdict.NoQuorum? && !r.terminal ==>
            && |experts| >= k.minVotes && |txs| > |experts|
            && txs[|txs| - |experts| - 1] == AppealFiledTx("SYSTEM_AUTO_ESCALATION", NoQuorum)
            && (forall i | 0 <= i < |experts| :: txs[|txs| - |experts| + i] == SummonsTx(experts[i])))
      && (r.terminal || !r.verdict.NoQuorum? ==> forall tx | tx in txs :: !tx.AppealFiledTx? && !tx.SummonsTx?)
      && (r.terminal ==> r.verdict.NoQuorum? && |experts| < k.minVotes)
  {
    RulingIsDecided(InTime(b), Declared(c), c.claimed);
    hide JuryEntries, Decisive, Quorate, Penalize, RulingOf, InTime;
  }

  /** Two nodes whose panels are drawn with different seeds build the same result and the same score
      entries, because the panels are of the same size; they differ at most in whom they summon. */
  lemma SeedsAgree(net: Selection.Network, shake: (seq<int>, nat) -> Selection.Seed, p: Selection.Protocol,
      tx1: seq<int>, tx2: seq<int>,
                   author: seq<int>, disputer: seq<int>, summoned: set<seq<int>>, k: Tariff, c: Case, log: seq<Update>, b: Ballot,
                   experts1: seq<string>, experts2: seq<string>, offenses: int)
    requires Selection.Registry(net)
    requires |experts1| == |Selection.SelectExperts(net, shake, p, tx1, author, disputer, summoned).members|
    requires |experts2| == |Selection.SelectExperts(net, shake, p, tx2, author, disputer, summoned).members|
    ensures JuryResult(k, c, b, experts1, offenses) == JuryResult(k, c, b, experts2, offenses)
    ensures JuryEntries(k, c, log, b, experts1, offenses) == JuryEntries(k, c, log, b, experts2, offenses)
    ensures |JuryBatch(k, c, log, b, experts1, offenses)| == |JuryBatch(k, c, log, b, experts2, offenses)|
  {
    Selection.PanelSizeIgnoresSeed(net, shake, p, Selection.Expert, tx1, tx2, {author, disputer} + summoned);
    hide Selection.Select, Decisive, Quorate, Penalize, RulingOf, InTime, NoQuorumEntries, JuryRulingEntries, Charges;
  }

  // ---------------------------------------------------------------- competing submitters

  lemma EntriesNamed(k: Tariff, e: Episode)
    requires WellFormed(k, e)
    ensures Named(Entries2(k, e))
  {
    if Jury(k, e).verdict.NoQuorum? {
      NoQuorumNamed(k, e.c, e.jury, !Jury(k, e).terminal);
    } else {
      RulingNamed(k, e.c, Filed(k, e), e.jury, Jury(k, e).verdict, Jury(k, e).authorDelta);
    }
    hide NoQuorumEntries, JuryRulingEntries;
  }

  lemma EntryNamed(tip: Option<string>, cond: bool, delta: int, reason: Reason)
    requires tip != Some("")
    ensures Named(Entry(tip, cond, delta, reason))
  {}

  lemma NamedConcat(a: seq<Update>, b: seq<Update>)
    ensures Named(a + b) <==> Named(a) && Named(b)
  {
    if Named(a + b) {
      assert forall u | u in a :: u in a + b;
      assert forall u | u in b :: u in a + b;
    }
  }

  lemma SeatsNamed(b: Ballot, t: SeatTariff, tier: Tier)
    requires OrderlyBallot(b)
    ensures Named(SeatEntries(b, t, tier)) && Named(AbsenceEntries(b.summons, JurorsOf(InTime(b)), b, t, tier))
  {
    InTimeOnce(b);
    SeatVotes(InTime(b), Favoured(InTime(b)), t, tier);
    SeatAbsences(b.summons, JurorsOf(InTime(b)), b, t, tier);
    hide VoteEntries, AbsenceEntries, InTime;
    NamedConcat(VoteEntries(InTime(b), Favoured(InTime(b)), t, tier), AbsenceEntries(b.summons, JurorsOf(InTime(b)), b, t, tier));
  }

  lemma NoQuorumNamed(k: Tariff, c: Case, b: Ballot, escalates: bool)
    requires NamedCase(c) && OrderlyBallot(b)
    ensures Named(NoQuorumEntries(k, c, b, escalates))
  {
    SeatsNamed(b, k.jurors, JuryTier);
    EntryNamed(c.disputer, !escalates, k.disputerStake, DisputeRefunded);
    hide AbsenceEntries, Entry, OrderlyBallot;
  }

  lemma FoundNamed(reviews: seq<Review>, state: ReviewState)
    requires forall r | r in reviews :: r.reviewer != Some("")
    ensures Assigned(Find(reviews, state)) != Some("")
  {}

  lemma RulingNamed(k: Tariff, c: Case, log: seq<Update>, b: Ballot, v: Verdict, penalty: int)
    requires NamedCase(c) && OrderlyBallot(b)
    ensures Named(JuryRulingEntries(k, c, log, b, v, penalty))
  {
    hide JuryAuthorEntries, SeatEntries, DisputerEntries, JuryReviewerEntries, VindicationEntries, OrderlyBallot, Named,
        NamedCase;
    SeatsNamed(b, k.jurors, JuryTier);
    PartsNamed(k, c, log, v, penalty);
    var us := JuryAuthorEntries(k, c, log, v, penalty);
    NamedConcat(us, SeatEntries(b, k.jurors, JuryTier));
    us := us + SeatEntries(b, k.jurors, JuryTier);
    NamedConcat(us, DisputerEntries(k, c, v));
    us := us + DisputerEntries(k, c, v);
    NamedConcat(us, JuryReviewerEntries(k, c, v));
    us := us + JuryReviewerEntries(k, c, v);
    NamedConcat(us, VindicationEntries(k, c, v));
  }

  lemma PartsNamed(k: Tariff, c: Case, log: seq<Update>, v: Verdict, penalty: int)
    requires NamedCase(c)
    ensures Named(JuryAuthorEntries(k, c, log, v, penalty)) && Named(DisputerEntries(k, c, v))
    ensures Named(JuryReviewerEntries(k, c, v)) && Named(VindicationEntries(k, c, v))
  {
    FoundNamed(c.reviews, EscalatedToDispute);
    FoundNamed(c.reviews, ClosedDismissed);
    hide Find;
  }

  /** However many nodes submit the jury's batch, and in whatever mixture their entries arrive, the log
      ends with each entry once: as if one node had submitted. */
  lemma CompetingJuryBatches(k: Tariff, e: Episode, mixture: seq<Update>)
    requires WellFormed(k, e)
    requires forall u :: u in mixture <==> u in Entries2(k, e)
    ensures multiset(FirstWins(Filed(k, e), mixture)) == multiset(AfterJury(k, e))
    ensures FirstWins(Filed(k, e), Entries2(k, e) + Entries2(k, e)) == AfterJury(k, e)
  {
    hide Entries2, Filed, FirstWins, DistinctEntries, JuryKinds, AfterJury;
    assert OrderlyBallot(e.jury);
    JuryEntriesKinds(k, e);
    EntriesNamed(k, e);
    JuryLands(k, e);
    hide WellFormed, OrderlyBallot;
    DistinctTells(Entries2(k, e));
    CompetingBatches(Filed(k, e), Entries2(k, e), mixture);
  }

  /** The same for the experts' batch of every episode, also where the disputer was refunded before. */
  lemma CompetingAppealBatches(k: Tariff, e: Episode, mixture: seq<Update>)
    requires WellFormed(k, e) && e.appeal.Some?
    requires forall u :: u in mixture <==> u in Entries3(k, e)
    ensures multiset(FirstWins(Appealed(k, e), mixture)) == multiset(Landed(k, e))
    ensures FirstWins(Appealed(k, e), Entries3(k, e) + Entries3(k, e)) == Landed(k, e)
  {
    hide Entries3, Appealed, AfterJury, Filed, Entries2, AppealFiling, FirstWins, WellFormed, DistinctEntries, ExpertKinds;
    AppealNamed(k, e);
    ExpertEntriesKinds(k, e);
    JuryLands(k, e);
    DistinctTells(Entries3(k, e));
    CompetingBatches(Appealed(k, e), Entries3(k, e), mixture);
  }

  lemma AppealNamed(k: Tariff, e: Episode)
    requires WellFormed(k, e) && e.appeal.Some?
    ensures Named(Entries3(k, e))
  {
    var x, earlier, b := Experts(k, e), EarlierOf(k, e), e.appeal.value.ballot;
    hide AppealOutcome, JuryResult, Appealed, OrderlyBallot;
    if x.defaulted {
      DefaultNamed(k, e.c, earlier, b);
    } else {
      ExpertRulingNamed(k, e.c, Appealed(k, e), earlier, b, x.verdict, x.overturnDelta);
    }
    hide DefaultEntries, ExpertRulingEntries;
  }

  lemma DefaultNamed(k: Tariff, c: Case, e: Earlier, b: Ballot)
    requires NamedCase(c) && OrderlyBallot(b) && e.appellant != Some("")
    ensures Named(DefaultEntries(k, c, e, b))
  {
    SeatsNamed(b, k.experts, ExpertTier);
    EntryNamed(c.disputer, e.verdict == Some(NoQuorum), k.disputerStake, DisputeRefunded);
    EntryNamed(e.appellant, e.appellant != Some(SYSTEM), k.appellantStake, AppealRefunded);
    hide AbsenceEntries, Entry, OrderlyBallot, SYSTEM;
  }

  lemma ExpertRulingNamed(k: Tariff, c: Case, log: seq<Update>, e: Earlier, b: Ballot, v: Verdict, penalty: int)
    requires NamedCase(c) && OrderlyBallot(b) && e.appellant != Some("")
    ensures Named(ExpertRulingEntries(k, c, log, e, b, v, penalty))
  {
    CreditNamed(c, log, v);
    hide ExpertCredit, FlipEntries, FirstEntries, SeatEntries, OrderlyBallot, Named, NamedCase;
    SeatsNamed(b, k.experts, ExpertTier);
    FlipNamed(k, c, e, v, penalty);
    NamedConcat(ExpertCredit(c.author, log, v), FlipEntries(k, c, e, v, penalty));
    NamedConcat(ExpertCredit(c.author, log, v) + FlipEntries(k, c, e, v, penalty), FirstEntries(k, c, e, v, penalty));
    NamedConcat(ExpertCredit(c.author, log, v) + FlipEntries(k, c, e, v, penalty) + FirstEntries(k, c, e, v, penalty),
                SeatEntries(b, k.experts, ExpertTier));
  }

  lemma CreditNamed(c: Case, log: seq<Update>, v: Verdict)
    requires NamedCase(c)
    ensures Named(ExpertCredit(c.author, log, v))
  {}

  lemma FlipNamed(k: Tariff, c: Case, e: Earlier, v: Verdict, penalty: int)
    requires NamedCase(c) && e.appellant != Some("")
    ensures Named(FlipEntries(k, c, e, v, penalty)) && Named(FirstEntries(k, c, e, v, penalty))
  {
    FoundNamed(c.reviews, EscalatedToDispute);
    FoundNamed(c.reviews, ClosedDismissed);
    OverturnNamed(k, c, e, v, penalty);
    FirstNamed(k, c, v, penalty);
    hide OverturnEntries, FirstVerdictEntries, Find;
  }

  lemma OverturnNamed(k: Tariff, c: Case, e: Earlier, v: Verdict, penalty: int)
    requires NamedCase(c) && e.appellant != Some("")
    requires Assigned(Find(c.reviews, EscalatedToDispute)) != Some("") && Assigned(Find(c.reviews, ClosedDismissed)) != Some("")
    ensures Named(OverturnEntries(k, c, e, v, penalty))
  {
    hide Find;
    assert Named(AppellantEntries(k, e));
    assert Named(FlippedDisputer(k, c, e));
    assert Named(FlippedAuthor(k, c, e, penalty));
    assert Named(FlippedReviewer(k, c, e, v));
    hide AppellantEntries, FlippedDisputer, FlippedAuthor, FlippedReviewer;
  }

  lemma FirstNamed(k: Tariff, c: Case, v: Verdict, penalty: int)
    requires NamedCase(c)
    requires Assigned(Find(c.reviews, EscalatedToDispute)) != Some("") && Assigned(Find(c.reviews, ClosedDismissed)) != Some("")
    ensures Named(FirstVerdictEntries(k, c, v, penalty))
  {
    hide Find;
    assert Named(FirstDisputer(k, c, v));
    assert Named(FirstReviewer(k, c, v));
    hide FirstDisputer, FirstReviewer;
  }

  // ---------------------------------------------------------------- seats

  function Cast(rs: seq<Reveal>, juror: string): Option<Vote> {
    if rs == [] then None
    else if rs[|rs| - 1].juror == juror then Some(rs[|rs| - 1].vote)
    else Cast(rs[..|rs| - 1], juror)
  }

  /** What a seat earns: the bonus for voting with the larger side, the penalty for voting against it,
      nothing for abstaining, and the penalty for silence that fits whether a vote was committed. */
  function VotePay(cast: Option<Vote>, favoured: Vote, t: SeatTariff): int {
    match cast
    case None => 0
    case Some(Abstain) => 0
    case Some(v) => if v == favoured then t.majorityBonus else -t.minorityPenalty
  }

  function SilencePay(juror: string, b: Ballot, summoned: bool, t: SeatTariff, tier: Tier): int {
    if !summoned || juror in JurorsOf(InTime(b)) then 0
    else if Commit(juror, tier.ExpertTier?) in b.commits then -t.noReveal else -t.noCommit
  }

  predicate Summoned(summons: seq<Summons>, juror: string) {
    exists s | s in summons :: s.juror == juror
  }

  lemma {:induction false} VotesPay(rs: seq<Reveal>, favoured: Vote, t: SeatTariff, tier: Tier, juror: string)
    requires OncePerJuror(rs)
    ensures NetOf(VoteEntries(rs, favoured, t, tier), juror, Seat(tier)) == VotePay(Cast(rs, juror), favoured, t)
  {
    if rs != [] {
      var n := |rs| - 1;
      VotesPay(rs[..n], favoured, t, tier, juror);
      VoteLast(rs, favoured, t, tier);
      if rs[n].juror == juror {
        NotYet(rs[..n], juror);
      }
      hide VoteEntries, NetOf, OncePerJuror;
      NetOfAppend(VoteEntries(rs[..n], favoured, t, tier), VoteEntry(rs[n], favoured, t, tier), juror, Seat(tier));
      OneVote(rs[n], favoured, t, tier, juror);
    }
  }

  function VoteEntry(r: Reveal, favoured: Vote, t: SeatTariff, tier: Tier): seq<Update> {
    if r.vote == Abstain then []
    else if r.vote == favoured then [Update(r.juror, t.majorityBonus, MajorityVote(tier))]
    else [Update(r.juror, -t.minorityPenalty, MinorityVote(tier))]
  }

  lemma VoteLast(rs: seq<Reveal>, favoured: Vote, t: SeatTariff, tier: Tier)
    requires rs != []
    ensures VoteEntries(rs, favoured, t, tier) ==
      VoteEntries(rs[..|rs| - 1], favoured, t, tier) + VoteEntry(rs[|rs| - 1], favoured, t, tier)
  {}

  lemma OneVote(r: Reveal, favoured: Vote, t: SeatTariff, tier: Tier, juror: string)
    ensures NetOf(VoteEntry(r, favoured, t, tier), juror, Seat(tier)) ==
      if r.juror == juror then VotePay(Some(r.vote), favoured, t) else 0
  {}

  lemma OneAbsence(tip: string, revealed: set<string>, b: Ballot, t: SeatTariff, tier: Tier, juror: string)
    ensures NetOf(if tip in revealed then [] else [Absence(tip, b, t, tier)], juror, Seat(tier)) ==
      if tip in revealed || tip != juror then 0 else if Commit(juror,
          tier.ExpertTier?) in b.commits then -t.noReveal else -t.noCommit
  {}

  lemma {:induction false} NotYet(rs: seq<Reveal>, juror: string)
    requires forall r | r in rs :: r.juror != juror
    ensures Cast(rs, juror).None?
  {
    if rs != [] {
      assert rs[|rs| - 1] in rs;
      NotYet(rs[..|rs| - 1], juror);
    }
  }

  lemma {:induction false} SilencePays(summons: seq<Summons>, b: Ballot, t: SeatTariff, tier: Tier, juror: string)
    requires forall i, j | 0 <= i < j < |summons| :: summons[i].juror != summons[j].juror
    ensures NetOf(AbsenceEntries(summons, JurorsOf(InTime(b)), b, t, tier), juror, Seat(tier)) ==
      SilencePay(juror, b, Summoned(summons, juror), t, tier)
  {
    var revealed := JurorsOf(InTime(b));
    if summons != [] {
      var n := |summons| - 1;
      var before := AbsenceEntries(summons[..n], revealed, b, t, tier);
      var last := if summons[n].juror in revealed then [] else [Absence(summons[n].juror, b, t, tier)];
      SilencePays(summons[..n], b, t, tier, juror);
      AbsenceLast(summons, revealed, b, t, tier);
      SummonedLast(summons, juror);
      hide AbsenceEntries, InTime, JurorsOf, Summoned, NetOf, Absence;
      NetOfAppend(before, last, juror, Seat(tier));
      OneAbsence(summons[n].juror, revealed, b, t, tier, juror);
    }
  }

  lemma SummonedLast(summons: seq<Summons>, juror: string)
    requires summons != [] && forall i, j | 0 <= i < j < |summons| :: summons[i].juror != summons[j].juror
    ensures var n := |summons| - 1;
      && (Summoned(summons, juror) <==> Summoned(summons[..n], juror) || summons[n].juror == juror)
      && !(Summoned(summons[..n], juror) && summons[n].juror == juror)
  {
    var n := |summons| - 1;
    assert summons == summons[..n] + [summons[n]];
    if Summoned(summons[..n], juror) {
      var s :| s in summons[..n] && s.juror == juror;
      assert s in summons;
    }
    if Summoned(summons, juror) && summons[n].juror != juror {
      var s :| s in summons && s.juror == juror;
      assert s in summons[..n];
    }
    assert summons[n] in summons;
  }

  /** Every seat of a panel that decides is paid for what its holder did, once. */
  lemma SeatSettled(b: Ballot, t: SeatTariff, tier: Tier, juror: string)
    requires OrderlyBallot(b)
    ensures NetOf(SeatEntries(b, t, tier), juror, Seat(tier)) ==
      VotePay(Cast(InTime(b), juror), Favoured(InTime(b)), t) + SilencePay(juror, b, Summoned(b.summons, juror), t, tier)
    ensures Cast(InTime(b), juror).None? || SilencePay(juror, b, Summoned(b.summons, juror), t, tier) == 0
  {
    var rs := InTime(b);
    InTimeOnce(b);
    VotesPay(rs, Favoured(rs), t, tier, juror);
    SilencePays(b.summons, b, t, tier, juror);
    CastRevealed(rs, juror);
    hide VoteEntries, AbsenceEntries, InTime;
    NetOfAppend(VoteEntries(rs, Favoured(rs), t, tier), AbsenceEntries(b.summons, JurorsOf(rs), b, t, tier), juror, Seat(tier));
  }

  lemma NoSeatPay(us: seq<Update>, juror: string, tier: Tier)
    requires forall u | u in us :: !(SeatRank(tier) <= Rank(u.reason) < SeatRank(tier) + 2)
    ensures NetOf(us, juror, Seat(tier)) == 0
  {
    forall u | u in us ensures SideOf(u.reason) != Seat(tier) {}
    NetOfNone(us, juror, Seat(tier));
  }

  /** A juror of a dispute: paid for the vote if the jury decides, and charged for silence in any case. */
  lemma JurorSettled(k: Tariff, e: Episode, juror: string)
    requires WellFormed(k, e)
    ensures var b := e.jury;
      NetOf(Entries2(k, e), juror, Seat(JuryTier)) == SilencePay(juror, b, Summoned(b.summons, juror), k.jurors, JuryTier) +
        if Jury(k, e).verdict.NoQuorum? then 0 else VotePay(Cast(InTime(b), juror), Favoured(InTime(b)), k.jurors)
  {
    hide Cast, VotePay, SilencePay, InTime, NoQuorumEntries, JuryRulingEntries, Filed, FreshItem, ValidTariff, NamedCase,
        OrderlyBallot;
    var r := Jury(k, e);
    if r.verdict.NoQuorum? {
      SilentJuror(k, e.c, e.jury, !r.terminal, juror);
    } else {
      RulingSeats(k, e.c, Filed(k, e), e.jury, r.verdict, r.authorDelta, juror);
    }
  }

  lemma SilentJuror(k: Tariff, c: Case, b: Ballot, escalates: bool, juror: string)
    requires OrderlyBallot(b)
    ensures NetOf(NoQuorumEntries(k, c, b, escalates), juror, Seat(JuryTier)) ==
      SilencePay(juror, b, Summoned(b.summons, juror), k.jurors, JuryTier)
  {
    var absences, refund := AbsenceEntries(b.summons, JurorsOf(InTime(b)), b, k.jurors, JuryTier),
      Entry(c.disputer, !escalates, k.disputerStake, DisputeRefunded);
    SilencePays(b.summons, b, k.jurors, JuryTier, juror);
    OneBetween(c.disputer, !escalates, k.disputerStake, DisputeRefunded, 30, 31);
    hide AbsenceEntries, Entry, SilencePay, NetOf;
    NoSeatPay(refund, juror, JuryTier);
    NetOfAppend(absences, refund, juror, Seat(JuryTier));
  }

  lemma RulingSeats(k: Tariff, c: Case, log: seq<Update>, b: Ballot, v: Verdict, penalty: int, juror: string)
    requires OrderlyBallot(b)
    ensures NetOf(JuryRulingEntries(k, c, log, b, v, penalty), juror, Seat(JuryTier)) ==
      SilencePay(juror, b, Summoned(b.summons, juror), k.jurors, JuryTier) +
        VotePay(Cast(InTime(b), juror), Favoured(InTime(b)), k.jurors)
  {
    var author, seats, disputer := JuryAuthorEntries(k, c, log, v, penalty), SeatEntries(b, k.jurors, JuryTier), DisputerEntries(k, c, v);
    var reviewer, vindication, side := JuryReviewerEntries(k, c, v), VindicationEntries(k, c, v), Seat(JuryTier);
    hide JuryAuthorEntries, SeatEntries, DisputerEntries, JuryReviewerEntries, VindicationEntries, NetOf, SilencePay,
        VotePay, Cast, DistinctEntries;
    JuryAuthorBetween(k, c, log, v, penalty);
    DisputerBetween(k, c, v);
    JuryReviewerBetween(k, c, v);
    VindicationBetween(k, c, v);
    NoSeatPay(author, juror, JuryTier);
    NoSeatPay(disputer, juror, JuryTier);
    NoSeatPay(reviewer, juror, JuryTier);
    NoSeatPay(vindication, juror, JuryTier);
    SeatSettled(b, k.jurors, JuryTier, juror);
    hide Between, Rank;
    NetOfAppend(author, seats, juror, side);
    NetOfAppend(author + seats, disputer, juror, side);
    NetOfAppend(author + seats + disputer, reviewer, juror, side);
    NetOfAppend(author + seats + disputer + reviewer, vindication, juror, side);
  }

  /** An expert of an appeal, likewise. */
  lemma ExpertSettled(k: Tariff, e: Episode, juror: string)
    requires WellFormed(k, e) && e.appeal.Some?
    ensures var b := e.appeal.value.ballot;
      NetOf(Entries3(k, e), juror, Seat(ExpertTier)) == SilencePay(juror, b, Summoned(b.summons, juror), k.experts, ExpertTier) +
        if Experts(k, e).defaulted then 0 else VotePay(Cast(InTime(b), juror), Favoured(InTime(b)), k.experts)
  {
    hide Cast, VotePay, SilencePay, InTime, DefaultEntries, ExpertRulingEntries, Appealed, JuryResult, AppealOutcome,
        FreshItem, ValidTariff, NamedCase, OrderlyBallot;
    var x, earlier, b := Experts(k, e), EarlierOf(k, e), e.appeal.value.ballot;
    assert OrderlyBallot(b);
    hide WellFormed;
    if x.defaulted {
      SilentExpert(k, e.c, earlier, b, juror);
    } else {
      ExpertSeats(k, e.c, Appealed(k, e), earlier, b, x.verdict, x.overturnDelta, juror);
    }
  }

  lemma SilentExpert(k: Tariff, c: Case, e: Earlier, b: Ballot, juror: string)
    requires OrderlyBallot(b)
    ensures NetOf(DefaultEntries(k, c, e, b), juror, Seat(ExpertTier)) ==
      SilencePay(juror, b, Summoned(b.summons, juror), k.experts, ExpertTier)
  {
    var absences := AbsenceEntries(b.summons, JurorsOf(InTime(b)), b, k.experts, ExpertTier);
    var refund, stake := Entry(c.disputer, e.verdict == Some(NoQuorum), k.disputerStake, DisputeRefunded),
                         Entry(e.appellant, e.appellant != Some(SYSTEM), k.appellantStake, AppealRefunded);
    SilencePays(b.summons, b, k.experts, ExpertTier, juror);
    OneBetween(c.disputer, e.verdict == Some(NoQuorum), k.disputerStake, DisputeRefunded, 30, 31);
    OneBetween(e.appellant, e.appellant != Some(SYSTEM), k.appellantStake, AppealRefunded, 31, 32);
    hide AbsenceEntries, Entry, SilencePay, NetOf, SYSTEM;
    NoSeatPay(refund, juror, ExpertTier);
    NoSeatPay(stake, juror, ExpertTier);
    NetOfAppend(absences, refund, juror, Seat(ExpertTier));
    NetOfAppend(absences + refund, stake, juror, Seat(ExpertTier));
  }

  lemma ExpertSeats(k: Tariff, c: Case, log: seq<Update>, e: Earlier, b: Ballot, v: Verdict, penalty: int, juror: string)
    requires OrderlyBallot(b)
    ensures NetOf(ExpertRulingEntries(k, c, log, e, b, v, penalty), juror, Seat(ExpertTier)) ==
      SilencePay(juror, b, Summoned(b.summons, juror), k.experts, ExpertTier) +
        VotePay(Cast(InTime(b), juror), Favoured(InTime(b)), k.experts)
  {
    var credit, flip := ExpertCredit(c.author, log, v), FlipEntries(k, c, e, v, penalty);
    var first, seats, side := FirstEntries(k, c, e, v, penalty), SeatEntries(b, k.experts, ExpertTier), Seat(ExpertTier);
    assert Between(credit, 1, 11);
    OverturnBetween(k, c, e, v, penalty);
    FirstVerdictBetween(k, c, v, penalty);
    assert Between(flip, 11, 18) && Between(first, 18, 22);
    hide ExpertCredit, FlipEntries, FirstEntries, OverturnEntries, FirstVerdictEntries, SeatEntries, NetOf, SilencePay,
        VotePay, Cast, DistinctEntries;
    NoSeatPay(credit, juror, ExpertTier);
    NoSeatPay(flip, juror, ExpertTier);
    NoSeatPay(first, juror, ExpertTier);
    SeatSettled(b, k.experts, ExpertTier, juror);
    hide Between, Rank;
    NetOfAppend(credit, flip, juror, side);
    NetOfAppend(credit + flip, first, juror, side);
    NetOfAppend(credit + flip + first, seats, juror, side);
  }

  lemma {:induction false} CastRevealed(rs: seq<Reveal>, juror: string)
    ensures Cast(rs, juror).Some? ==> juror in JurorsOf(rs)
  {
    if rs != [] {
      CastRevealed(rs[..|rs| - 1], juror);
      assert rs[|rs| - 1] in rs;
    }
  }
}
