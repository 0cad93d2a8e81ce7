/**
 A dispute from filing to its last settlement: filing, the jury's batch, perhaps an appeal, the experts'
 batch. The ledger of such an episode is the list of score entries that the chain accepts on the way.
 */
module Episodes {
  import opened Common
  import opened Score
  import opened Ballots
  import opened Reviews
  import opened Ledger
  import opened Settlement
  import opened Appeals

  datatype Appeal = Appeal(appellant: string, ballot: Ballot, offenses: int)

  /** `prior` are the entries the item had before; `experts` is the panel drawn if the jury decides nothing. */
  datatype Episode = Episode(c: Case, prior: seq<Update>, jury: Ballot, experts: seq<string>, offenses: int,
                             appeal: Option<Appeal>)

  predicate ValidTariff(k: Tariff) {
    k.correctBonus >= 0 && k.vindicationBonus >= 0 && ValidPenalties(k.penalties)
  }

  // ---------------------------------------------------------------- the steps

  function Jury(k: Tariff, e: Episode): Result2 {
    JuryResult(k, e.c, e.jury, e.experts, e.offenses)
  }

  /** The log when the jury's batch is built: the disputer has paid the stake. */
  function Filed(k: Tariff, e: Episode): seq<Update> {
    e.prior + Entry(e.c.disputer, true, -k.disputerStake, DisputeStake)
  }

  function Entries2(k: Tariff, e: Episode): seq<Update> {
    JuryEntries(k, e.c, Filed(k, e), e.jury, e.experts, e.offenses)
  }

  /** An appellant pays a stake; the automatic escalation does not. */
  function AppealFiling(k: Tariff, e: Episode): seq<Update> {
    if e.appeal.Some? && e.appeal.value.appellant != SYSTEM
    then [Update(e.appeal.value.appellant, -k.appellantStake, AppealStake)]
    else []
  }

  function AfterJury(k: Tariff, e: Episode): seq<Update> {
    Filed(k, e) + Entries2(k, e)
  }

  function Appealed(k: Tariff, e: Episode): seq<Update> {
    AfterJury(k, e) + AppealFiling(k, e)
  }

  function EarlierOf(k: Tariff, e: Episode): Earlier
    requires e.appeal.Some?
  {
    Earlier(Some(Jury(k, e).verdict), Jury(k, e).authorDelta, Some(e.appeal.value.appellant))
  }

  function Experts(k: Tariff, e: Episode): Result3
    requires e.appeal.Some?
  {
    AppealOutcome(k, e.c, EarlierOf(k, e), e.appeal.value.ballot, e.appeal.value.offenses)
  }

  function Entries3(k: Tariff, e: Episode): seq<Update> {
    if e.appeal.None? then []
    else AppealEntries(k, e.c, Appealed(k, e), EarlierOf(k, e), e.appeal.value.ballot, e.appeal.value.offenses)
  }

  /** What the chain accepts in the end. */
  function Landed(k: Tariff, e: Episode): seq<Update> {
    FirstWins(FirstWins(FirstWins(Filed(k, e), Entries2(k, e)), AppealFiling(k, e)), Entries3(k, e))
  }

  // ---------------------------------------------------------------- well-formed episodes

  /** Before the dispute the item has earned at most registration credit, and nothing from a dispute. */
  ghost predicate FreshItem(prior: seq<Update>) {
    && DistinctEntries(prior)
    && forall u | u in prior :: u.reason.Other? || (u.reason.CreditAward? && u.delta >= 0)
  }

  /** Everybody is summoned once and reveals once, and tip ids are not empty. */
  ghost predicate OrderlyBallot(b: Ballot) {
    && (forall i, j | 0 <= i < j < |b.summons| :: b.summons[i].juror != b.summons[j].juror)
    && (forall i, j | 0 <= i < j < |b.revealed| :: b.revealed[i].juror != b.revealed[j].juror)
    && (forall s | s in b.summons :: s.juror != "")
    && (forall r | r in b.revealed :: r.juror != "")
  }

  ghost predicate NamedCase(c: Case) {
    && c.author.Some? && c.author.value != ""
    && c.disputer.Some? && c.disputer.value != ""
    && forall r | r in c.reviews :: r.reviewer != Some("")
  }

  /** A jury without a result escalates by itself exactly when a panel can form; any other verdict, also
      the terminal one, can be appealed by a party. */
  ghost predicate WellFormed(k: Tariff, e: Episode) {
    && ValidTariff(k) && FreshItem(e.prior) && NamedCase(e.c) && OrderlyBallot(e.jury)
    && (Jury(k, e).verdict.NoQuorum? && !Jury(k, e).terminal ==> e.appeal.Some?)
    && (e.appeal.Some? ==>
          && OrderlyBallot(e.appeal.value.ballot) && e.appeal.value.appellant != ""
          && (e.appeal.value.appellant == SYSTEM <==> Jury(k, e).verdict.NoQuorum? && !Jury(k, e).terminal))
  }

  /** The verdict that stands in the end; None when neither stage decides. */
  function Effective(k: Tariff, e: Episode): Option<Verdict> {
    var v := Jury(k, e).verdict;
    if e.appeal.Some? && (Experts(k, e).overturned || (v.NoQuorum? && !Experts(k, e).defaulted)) then Some(Experts(k, e).verdict)
    else if v.NoQuorum? then None
    else Some(v)
  }

  /** A case closed as undecidable, with the stake returned, that a party appealed after all. */
  predicate Reopened(k: Tariff, e: Episode) {
    Jury(k, e).verdict.NoQuorum? && Jury(k, e).terminal && e.appeal.Some?
  }

  // ---------------------------------------------------------------- sides of the parts

  lemma EntryNet(tip: Option<string>, cond: bool, delta: int, reason: Reason, s: Side)
    ensures Net(Entry(tip, cond, delta, reason), s) == if tip.Some? && cond && SideOf(reason) == s then delta else 0
  {}

  lemma {:induction false} SeatVotes(rs: seq<Reveal>, favoured: Vote, t: SeatTariff, tier: Tier)
    ensures forall u | u in VoteEntries(rs, favoured, t, tier) ::
      u.tip in JurorsOf(rs) && (u.reason == MajorityVote(tier) || u.reason == MinorityVote(tier))
  {
    if rs != [] {
      SeatVotes(rs[..|rs| - 1], favoured, t, tier);
      assert rs[|rs| - 1] in rs;
    }
  }

  lemma {:induction false} SeatAbsences(summons: seq<Summons>, revealed: set<string>, b: Ballot, t: SeatTariff, tier: Tier)
    ensures forall u | u in AbsenceEntries(summons, revealed, b, t, tier) ::
      u.tip !in revealed && (u.reason == NoReveal(tier) || u.reason == NoCommit(tier)) && exists s :: s in summons && s.juror == u.tip
  {
    if summons != [] {
      SeatAbsences(summons[..|summons| - 1], revealed, b, t, tier);
      assert summons[|summons| - 1] in summons;
    }
  }

  lemma AbsenceNet(summons: seq<Summons>, revealed: set<string>, b: Ballot, t: SeatTariff, tier: Tier, s: Side)
    requires s != Seat(tier)
    ensures Net(AbsenceEntries(summons, revealed, b, t, tier), s) == 0
  {
    SeatAbsences(summons, revealed, b, t, tier);
    hide AbsenceEntries;
    NetNone(AbsenceEntries(summons, revealed, b, t, tier), s);
  }

  lemma SeatNet(b: Ballot, t: SeatTariff, tier: Tier, s: Side)
    requires s != Seat(tier)
    ensures Net(SeatEntries(b, t, tier), s) == 0
  {
    var rs := InTime(b);
    SeatVotes(rs, Favoured(rs), t, tier);
    NetNone(VoteEntries(rs, Favoured(rs), t, tier), s);
    AbsenceNet(b.summons, JurorsOf(rs), b, t, tier, s);
    NetAppend(VoteEntries(rs, Favoured(rs), t, tier), AbsenceEntries(b.summons, JurorsOf(rs), b, t, tier), s);
  }

  predicate CreditOnly(us: seq<Update>) {
    forall i | 0 <= i < |us| :: SideOf(us[i].reason) == Credit
  }

  lemma CreditNet(us: seq<Update>, s: Side)
    requires CreditOnly(us) && s != Credit
    ensures Net(us, s) == 0
  {
    forall u | u in us ensures SideOf(u.reason) != s {}
    NetNone(us, s);
  }

  /** What a verdict owes each side. */
  function DueDisputer(k: Tariff, c: Case, v: Verdict): int {
    if c.disputer.None? then 0
    else if v.Upheld? then k.disputerStake + k.upheldBonus else if v.ConservativeLabel? then k.disputerStake else 0
  }

  function DuePenalty(c: Case, v: Verdict, penalty: int): int {
    if c.author.Some? && v.Upheld? && penalty < 0 then penalty else 0
  }

  function DueExoneration(k: Tariff, c: Case, v: Verdict): int {
    if c.author.Some? && v.Dismissed? && k.vindicationBonus > 0 then k.vindicationBonus else 0
  }

  function DueReviewer(k: Tariff, c: Case, v: Verdict): int {
    if Assigned(Find(c.reviews, EscalatedToDispute)).Some? && Vindicates(v) && k.correctBonus > 0 then k.correctBonus else 0
  }

  function DueClawback(k: Tariff, c: Case, v: Verdict): int {
    if Assigned(Find(c.reviews, ClosedDismissed)).Some? && v.Upheld? && Find(c.reviews, EscalatedToDispute).None?
    then k.wrongDismissClawback else 0
  }

  function JuryNet(k: Tariff, c: Case, v: Verdict, penalty: int, s: Side): int {
    match s
    case Disputing => DueDisputer(k, c, v)
    case Penalty => DuePenalty(c, v, penalty)
    case Exoneration => DueExoneration(k, c, v)
    case Reviewing => DueReviewer(k, c, v)
    case Clawback => DueClawback(k, c, v)
    case _ => 0
  }

  lemma JuryRulingNet(k: Tariff, c: Case, log: seq<Update>, b: Ballot, v: Verdict, penalty: int, s: Side)
    requires s != Credit && !s.Seat?
    ensures Net(JuryRulingEntries(k, c, log, b, v, penalty), s) == JuryNet(k, c, v, penalty, s)
  {
    FiveParts(JuryAuthorEntries(k, c, log, v, penalty), SeatEntries(b, k.jurors, JuryTier), DisputerEntries(k, c, v),
              JuryReviewerEntries(k, c, v), VindicationEntries(k, c, v), s);
    JuryPartsNet(k, c, log, b, v, penalty, s);
    hide JuryAuthorEntries, SeatEntries, DisputerEntries, JuryReviewerEntries, VindicationEntries, Net, JuryNet;
  }

  lemma JuryPartsNet(k: Tariff, c: Case, log: seq<Update>, b: Ballot, v: Verdict, penalty: int, s: Side)
    requires s != Credit && !s.Seat?
    ensures Net(JuryAuthorEntries(k, c, log, v, penalty), s) + Net(SeatEntries(b, k.jurors, JuryTier), s)
      + Net(DisputerEntries(k, c, v), s) + Net(JuryReviewerEntries(k, c, v), s) + Net(VindicationEntries(k, c, v), s)
      == JuryNet(k, c, v, penalty, s)
  {
    JuryAuthorNet(k, c, log, v, penalty, s);
    SeatNet(b, k.jurors, JuryTier, s);
    JuryReviewerNet(k, c, v, s);
    DisputerEntriesNet(k, c, v, s);
    VindicationNet(k, c, v, s);
    hide JuryAuthorEntries, SeatEntries, DisputerEntries, JuryReviewerEntries, VindicationEntries, Net;
    hide DueDisputer, DuePenalty, DueExoneration, DueReviewer, DueClawback;
  }

  lemma VindicationNet(k: Tariff, c: Case, v: Verdict, s: Side)
    ensures Net(VindicationEntries(k, c, v), s) == if s == Exoneration then DueExoneration(k, c, v) else 0
  {
    EntryNet(c.author, v.Dismissed? && k.vindicationBonus > 0, k.vindicationBonus, Vindication, s);
  }

  lemma FiveParts(p1: seq<Update>, p2: seq<Update>, p3: seq<Update>, p4: seq<Update>, p5: seq<Update>, s: Side)
    ensures Net(p1 + p2 + p3 + p4 + p5, s) == Net(p1, s) + Net(p2, s) + Net(p3, s) + Net(p4, s) + Net(p5, s)
  {
    hide Net;
    NetAppend(p1, p2, s);
    NetAppend(p1 + p2, p3, s);
    NetAppend(p1 + p2 + p3, p4, s);
    NetAppend(p1 + p2 + p3 + p4, p5, s);
  }

  lemma JuryAuthorNet(k: Tariff, c: Case, log: seq<Update>, v: Verdict, penalty: int, s: Side)
    requires s != Credit
    ensures Net(JuryAuthorEntries(k, c, log, v, penalty), s) == if s == Penalty then DuePenalty(c, v, penalty) else 0
  {
    var charge := Entry(c.author, v.Upheld? && penalty < 0, penalty, AuthorPenalty);
    EntryNet(c.author, v.Upheld? && penalty < 0, penalty, AuthorPenalty, s);
    CreditNet(JuryCredit(c.author, log, v), s);
    NetAppend(charge, JuryCredit(c.author, log, v), s);
  }

  lemma DisputerEntriesNet(k: Tariff, c: Case, v: Verdict, s: Side)
    ensures Net(DisputerEntries(k, c, v), s) == if s == Disputing then DueDisputer(k, c, v) else 0
  {
    EntryNet(c.disputer, true, k.disputerStake + k.upheldBonus, DisputeUpheld, s);
    EntryNet(c.disputer, true, k.disputerStake, DisputeConservative, s);
  }

  lemma JuryReviewerNet(k: Tariff, c: Case, v: Verdict, s: Side)
    ensures Net(JuryReviewerEntries(k, c, v), s) ==
      if s == Reviewing then DueReviewer(k, c, v) else if s == Clawback then DueClawback(k, c, v) else 0
  {
    var esc, dis := Find(c.reviews, EscalatedToDispute), Find(c.reviews, ClosedDismissed);
    TwoEntries(Assigned(esc), Vindicates(v) && k.correctBonus > 0, k.correctBonus, ReviewBonus(ReviewId(esc)),
               Assigned(dis), v.Upheld? && esc.None? && k.wrongDismissClawback != 0, k.wrongDismissClawback, WrongDismiss(ReviewId(dis)), s);
    hide Net, Find, Assigned, Entry;
  }

  lemma TwoEntries(tip1: Option<string>, cond1: bool, delta1: int, reason1: Reason,
                   tip2: Option<string>, cond2: bool, delta2: int, reason2: Reason, s: Side)
    ensures Net(Entry(tip1, cond1, delta1, reason1) + Entry(tip2, cond2, delta2, reason2), s) ==
      (if tip1.Some? && cond1 && SideOf(reason1) == s then delta1 else 0) +
      (if tip2.Some? && cond2 && SideOf(reason2) == s then delta2 else 0)
  {
    EntryNet(tip1, cond1, delta1, reason1, s);
    EntryNet(tip2, cond2, delta2, reason2, s);
    NetAppend(Entry(tip1, cond1, delta1, reason1), Entry(tip2, cond2, delta2, reason2), s);
  }
}
