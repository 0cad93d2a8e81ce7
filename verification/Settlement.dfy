/** The batches that settle a dispute: buildAdjudicationBatch and buildAppealBatch of node/src/jury.js. */
module Settlement {
  import opened Common
  import opened Score
  import opened Ballots
  import opened Reviews
  import opened Ledger

  datatype SeatTariff = SeatTariff(majorityBonus: int, minorityPenalty: int, noReveal: int, noCommit: int)

  /** The genesis constants of the dispute machinery. */
  datatype Tariff = Tariff(
    quorum: int, majorityVote: int, minVotes: int,
    disputerStake: int, upheldBonus: int, vindicationBonus: int, appellantStake: int, overturnBonus: int,
    correctBonus: int, wrongDismissClawback: int,
    jurors: SeatTariff, experts: SeatTariff, penalties: Penalties)

  /** What the chain has recorded about a disputed item when a batch is built. */
  datatype Case = Case(
    author: Option<string>, disputer: Option<string>,
    disputeDeclared: Option<Origin>, recordOrigin: Option<Origin>, claimed: Option<Origin>,
    reviews: seq<Review>)

  const SYSTEM: string := "SYSTEM_AUTO_ESCALATION"

  datatype BatchTx =
    | AdjudicationTx(result: Result2)
    | AppealFiledTx(appellant: string, stage2: Verdict)
    | SummonsTx(expert: string)
    | AppealResultTx(appeal: Result3)
    | Charge(update: Update)

  /** The parts of ADJUDICATION_RESULT and APPEAL_RESULT that later steps read. */
  datatype Result2 = Result2(verdict: Verdict, terminal: bool, tie: bool, author: Option<string>, authorDelta: int,
                             declared: Option<Origin>, confirmed: Option<Origin>)
  datatype Result3 = Result3(verdict: Verdict, overturned: bool, defaulted: bool, tie: bool, author: Option<string>,
                             stage2: Option<Verdict>, declared: Option<Origin>, confirmed: Option<Origin>,
                             originalDelta: int, overturnDelta: int)

  function Charges(us: seq<Update>): seq<BatchTx> {
    seq(|us|, i requires 0 <= i < |us| => Charge(us[i]))
  }

  function SummonsFor(experts: seq<string>): seq<BatchTx> {
    seq(|experts|, i requires 0 <= i < |experts| => SummonsTx(experts[i]))
  }

  lemma ChargesConcat(a: seq<Update>, b: seq<Update>)
    ensures Charges(a + b) == Charges(a) + Charges(b)
  {}

  function Declared(c: Case): Option<Origin> {
    if c.disputeDeclared.Some? then c.disputeDeclared else c.recordOrigin
  }

  /** An entry for somebody who is known, on a condition. */
  function Entry(tip: Option<string>, cond: bool, delta: int, reason: Reason): seq<Update> {
    if tip.Some? && cond then [Update(tip.value, delta, reason)] else []
  }

  method Push(txs: seq<BatchTx>, tip: string, delta: int, reason: Reason) returns (r: seq<BatchTx>)
    ensures r == txs + Charges([Update(tip, delta, reason)])
  {
    r := txs + [Charge(Update(tip, delta, reason))];
  }

  // ---------------------------------------------------------------- seats

  function Favoured(rs: seq<Reveal>): Vote {
    if Count(rs, Mismatch) > Count(rs, Match) then Mismatch else Match
  }

  function VoteEntries(rs: seq<Reveal>, favoured: Vote, t: SeatTariff, tier: Tier): seq<Update> {
    if rs == [] then [] else
    var r := rs[|rs| - 1];
    VoteEntries(rs[..|rs| - 1], favoured, t, tier) +
    if r.vote == Abstain then []
    else if r.vote == favoured then [Update(r.juror, t.majorityBonus, MajorityVote(tier))]
    else [Update(r.juror, -t.minorityPenalty, MinorityVote(tier))]
  }

  /** The penalty of one who revealed nothing. */
  function Absence(juror: string, b: Ballot, t: SeatTariff, tier: Tier): Update {
    if Commit(juror, tier.ExpertTier?) in b.commits then Update(juror, -t.noReveal, NoReveal(tier))
    else Update(juror, -t.noCommit, NoCommit(tier))
  }

  function AbsenceEntries(summons: seq<Summons>, revealed: set<string>, b: Ballot, t: SeatTariff, tier: Tier): seq<Update> {
    if summons == [] then [] else
    var s := summons[|summons| - 1];
    AbsenceEntries(summons[..|summons| - 1], revealed, b, t, tier) +
    if s.juror in revealed then [] else [Absence(s.juror, b, t, tier)]
  }

  method PushVotes(txs: seq<BatchTx>, rs: seq<Reveal>, t: SeatTariff, tier: Tier) returns (r: seq<BatchTx>)
    ensures r == txs + Charges(VoteEntries(rs, Favoured(rs), t, tier))
  {
    r := txs;
    var majorityVote := if Count(rs, Mismatch) > Count(rs, Match) then Mismatch else Match;
    for n := 0 to |rs|
      invariant r == txs + Charges(VoteEntries(rs[..n], majorityVote, t, tier))
    {
      assert rs[..n + 1][..n] == rs[..n];
      if rs[n].vote == Abstain {
        continue;
      }
      var isMajority := rs[n].vote == majorityVote;
      r := Push(r, rs[n].juror, if isMajority then t.majorityBonus else -t.minorityPenalty,
                if isMajority then MajorityVote(tier) else MinorityVote(tier));
    }
    assert rs[..|rs|] == rs;
  }

  method PushAbsences(txs: seq<BatchTx>, rs: seq<Reveal>, b: Ballot, t: SeatTariff, tier: Tier) returns (r: seq<BatchTx>)
    ensures r == txs + Charges(AbsenceEntries(b.summons, JurorsOf(rs), b, t, tier))
  {
    r := txs;
    var revealedIds := JurorsOf(rs);
    for n := 0 to |b.summons|
      invariant r == txs + Charges(AbsenceEntries(b.summons[..n], revealedIds, b, t, tier))
    {
      AbsenceStep(b.summons, n, revealedIds, b, t, tier);
      ChargesConcat(AbsenceEntries(b.summons[..n], revealedIds, b, t, tier), [Absence(b.summons[n].juror, b, t, tier)]);
      hide JurorsOf, AbsenceEntries, Charges;
      var juror := b.summons[n].juror;
      if juror !in revealedIds {
        var hasCommit := Commit(juror, tier.ExpertTier?) in b.commits;
        r := Push(r, juror, if hasCommit then -t.noReveal else -t.noCommit, if hasCommit then NoReveal(tier) else NoCommit(tier));
      }
    }
    assert b.summons[..|b.summons|] == b.summons;
  }

  lemma AbsenceStep(summons: seq<Summons>, n: nat, revealed: set<string>, b: Ballot, t: SeatTariff, tier: Tier)
    requires n < |summons|
    ensures AbsenceEntries(summons[..n + 1], revealed, b, t, tier) == AbsenceEntries(summons[..n], revealed, b, t, tier) +
      if summons[n].juror in revealed then [] else [Absence(summons[n].juror, b, t, tier)]
  {
    assert summons[..n + 1][..n] == summons[..n];
  }

  // ---------------------------------------------------------------- registration credit

  /** The sum of an author's credit entries; of the awards alone if asked. */
  function CreditSum(log: seq<Update>, author: string, awardsOnly: bool): int {
    if log == [] then 0 else
    var u := log[|log| - 1];
    CreditSum(log[..|log| - 1], author, awardsOnly) +
    if u.tip == author && (u.reason == CreditAward || (!awardsOnly && SideOf(u.reason) == Credit)) then u.delta else 0
  }

  predicate Reversed(log: seq<Update>) {
    exists i | 0 <= i < |log| :: log[i].reason == CreditReversal
  }

  function JuryCredit(author: Option<string>, log: seq<Update>, v: Verdict): seq<Update> {
    if author.None? || !v.Upheld? then [] else
    var awarded := CreditSum(log, author.value, true);
    Entry(author, awarded > 0 && !Reversed(log), -awarded, CreditReversal)
  }

  /** The credit that a verdict leaves the author, and the entry that gets there. */
  function ExpertCredit(author: Option<string>, log: seq<Update>, v: Verdict): seq<Update> {
    if author.None? then [] else
    var delta := (if v.Upheld? then 0 else CreditSum(log, author.value, true)) - CreditSum(log, author.value, false);
    Entry(author, delta != 0, delta, if delta < 0 then CreditReversal else CreditRestore)
  }

  // ---------------------------------------------------------------- the jury's batch

  predicate Quorate(k: Tariff, rs: seq<Reveal>) {
    |rs| >= k.quorum && Count(rs, Match) + Count(rs, Mismatch) >= k.majorityVote
  }

  /** The jury decides: a quorum and no draw. */
  predicate Decisive(k: Tariff, rs: seq<Reveal>) {
    Quorate(k, rs) && !Tied(rs)
  }

  predicate Vindicates(v: Verdict) { v.Upheld? || v.ConservativeLabel? }

  function Penalize(k: Tariff, c: Case, r: Ruling, offenses: int): int {
    if c.author.None? then 0
    else AdjudicationDelta(k.penalties, VerdictData(Declared(c), r.confirmed, r.verdict, false, false), offenses)
  }

  function DisputerEntries(k: Tariff, c: Case, v: Verdict): seq<Update> {
    match v
    case Upheld => Entry(c.disputer, true, k.disputerStake + k.upheldBonus, DisputeUpheld)
    case ConservativeLabel => Entry(c.disputer, true, k.disputerStake, DisputeConservative)
    case _ => []
  }

  function JuryAuthorEntries(k: Tariff, c: Case, log: seq<Update>, v: Verdict, penalty: int): seq<Update> {
    Entry(c.author, v.Upheld? && penalty < 0, penalty, AuthorPenalty) + JuryCredit(c.author, log, v)
  }

  function JuryReviewerEntries(k: Tariff, c: Case, v: Verdict): seq<Update> {
    var esc, dis := Find(c.reviews, EscalatedToDispute), Find(c.reviews, ClosedDismissed);
    Entry(Assigned(esc), Vindicates(v) && k.correctBonus > 0, k.correctBonus, ReviewBonus(ReviewId(esc)))
    + Entry(Assigned(dis), v.Upheld? && esc.None? && k.wrongDismissClawback != 0,
            k.wrongDismissClawback, WrongDismiss(ReviewId(dis)))
  }

  function VindicationEntries(k: Tariff, c: Case, v: Verdict): seq<Update> {
    Entry(c.author, v.Dismissed? && k.vindicationBonus > 0, k.vindicationBonus, Vindication)
  }

  function SeatEntries(b: Ballot, t: SeatTariff, tier: Tier): seq<Update> {
    VoteEntries(InTime(b), Favoured(InTime(b)), t, tier) + AbsenceEntries(b.summons, JurorsOf(InTime(b)), b, t, tier)
  }

  function JuryRulingEntries(k: Tariff, c: Case, log: seq<Update>, b: Ballot, v: Verdict, penalty: int): seq<Update> {
    JuryAuthorEntries(k, c, log, v, penalty) + SeatEntries(b, k.jurors, JuryTier) + DisputerEntries(k, c, v)
    + JuryReviewerEntries(k, c, v) + VindicationEntries(k, c, v)
  }

  function NoQuorumEntries(k: Tariff, c: Case, b: Ballot, escalates: bool): seq<Update> {
    AbsenceEntries(b.summons, JurorsOf(InTime(b)), b, k.jurors, JuryTier)
    + Entry(c.disputer, !escalates, k.disputerStake, DisputeRefunded)
  }

  /** The result the jury's batch opens with. `experts` is the panel drawn for an escalation. */
  function JuryResult(k: Tariff, c: Case, b: Ballot, experts: seq<string>, offenses: int): Result2 {
    var rs := InTime(b);
    if !Decisive(k, rs) then
      Result2(NoQuorum, |experts| < k.minVotes, Quorate(k, rs), c.author, 0, Declared(c), None)
    else
      var r := RulingOf(rs, Declared(c), c.claimed);
      Result2(r.verdict, false, false, c.author, Penalize(k, c, r, offenses), Declared(c), r.confirmed)
  }

  function JuryEntries(k: Tariff, c: Case, log: seq<Update>, b: Ballot, experts: seq<string>, offenses: int): seq<Update> {
    var r := JuryResult(k, c, b, experts, offenses);
    if r.verdict.NoQuorum? then NoQuorumEntries(k, c, b, !r.terminal)
    else JuryRulingEntries(k, c, log, b, r.verdict, r.authorDelta)
  }

  function JuryBatch(k: Tariff, c: Case, log: seq<Update>, b: Ballot, experts: seq<string>, offenses: int): seq<BatchTx> {
    var r := JuryResult(k, c, b, experts, offenses);
    [AdjudicationTx(r)] + Charges(JuryEntries(k, c, log, b, experts, offenses)) +
    if r.verdict.NoQuorum? && !r.terminal then [AppealFiledTx(SYSTEM, NoQuorum)] + SummonsFor(experts) else []
  }

  method BuildAdjudicationBatch(k: Tariff, c: Case, log: seq<Update>, b: Ballot, experts: seq<string>, offenses: int)
    returns (txs: seq<BatchTx>)
    ensures txs == JuryBatch(k, c, log, b, experts, offenses)
  {
    var rs := InTime(b);
    var nonAbstain := Count(rs, Match) + Count(rs, Mismatch);
    CountTotal(rs);
    var totalVotes := nonAbstain + Count(rs, Abstain);
    var quorumMet := totalVotes >= k.quorum && nonAbstain >= k.majorityVote;
    var isTie := Count(rs, Match) == Count(rs, Mismatch);
    assert quorumMet == Quorate(k, rs) && isTie == Tied(rs);
    hide Tied, Count, InTime, Quorate, JuryRulingEntries, RulingOf, NoQuorumEntries, Charges, SummonsFor;
    if !quorumMet || isTie {
      var canEscalate := |experts| >= k.minVotes;
      txs := [AdjudicationTx(Result2(NoQuorum, !canEscalate, quorumMet && isTie, c.author, 0, Declared(c), None))];
      txs := PushNoQuorum(txs, k, c, b, rs, canEscalate);
      if canEscalate {
        txs := txs + [AppealFiledTx(SYSTEM, NoQuorum)];
        txs := PushSummons(txs, experts);
      }
      return;
    }
    var ruling := Decide(rs, Declared(c), c.claimed);
    RulingIsDecided(rs, Declared(c), c.claimed);
    txs := PushJuryRuling(k, c, log, b, rs, ruling, offenses);
  }

  lemma RulingIsDecided(rs: seq<Reveal>, declared: Option<Origin>, claimed: Option<Origin>)
    ensures !RulingOf(rs, declared, claimed).verdict.NoQuorum?
  {}

  method PushNoQuorum(txs: seq<BatchTx>, k: Tariff, c: Case, b: Ballot, rs: seq<Reveal>,
      canEscalate: bool) returns (r: seq<BatchTx>)
    requires rs == InTime(b)
    ensures r == txs + Charges(NoQuorumEntries(k, c, b, canEscalate))
  {
    r := PushAbsences(txs, rs, b, k.jurors, JuryTier);
    ChargesConcat(AbsenceEntries(b.summons, JurorsOf(rs), b, k.jurors, JuryTier),
                  Entry(c.disputer, !canEscalate, k.disputerStake, DisputeRefunded));
    if !canEscalate && c.disputer.Some? {
      r := Push(r, c.disputer.value, k.disputerStake, DisputeRefunded);
    }
  }

  method PushSummons(txs: seq<BatchTx>, experts: seq<string>) returns (r: seq<BatchTx>)
    ensures r == txs + SummonsFor(experts)
  {
    r := txs;
    for n := 0 to |experts|
      invariant r == txs + SummonsFor(experts[..n])
    {
      r := r + [SummonsTx(experts[n])];
    }
    assert experts[..|experts|] == experts;
  }

  /** The part of the jury's batch that follows a decision. */
  method PushJuryRuling(k: Tariff, c: Case, log: seq<Update>, b: Ballot, rs: seq<Reveal>, r: Ruling, offenses: int)
    returns (txs: seq<BatchTx>)
    requires rs == InTime(b) && !r.verdict.NoQuorum?
    ensures var delta := Penalize(k, c, r, offenses);
      txs == [AdjudicationTx(Result2(r.verdict, false, false, c.author, delta, Declared(c), r.confirmed))]
             + Charges(JuryRulingEntries(k, c, log, b, r.verdict, delta))
  {
    var verdict := r.verdict;
    var authorScoreDelta := if verdict.Upheld? && c.author.Some? then Penalize(k, c, r, offenses) else 0;
    txs := [AdjudicationTx(Result2(verdict, false, false, c.author, authorScoreDelta, Declared(c), r.confirmed))];
    PenaltyOnlyIfUpheld(k, c, r, offenses);
    JuryRulingCharges(k, c, log, b, verdict, authorScoreDelta);
    hide JuryAuthorEntries, SeatEntries, DisputerEntries, JuryReviewerEntries, JuryRulingEntries, Penalize, InTime;
    txs := PushJuryAuthor(txs, k, c, log, verdict, authorScoreDelta);
    txs := PushSeats(txs, rs, b, k.jurors, JuryTier);
    txs := PushDisputer(txs, k, c, verdict);
    txs := PushJuryReviewer(txs, k, c, verdict);
    if verdict.Dismissed? && c.author.Some? && k.vindicationBonus > 0 {
      txs := Push(txs, c.author.value, k.vindicationBonus, Vindication);
    }
  }

  lemma PenaltyOnlyIfUpheld(k: Tariff, c: Case, r: Ruling, offenses: int)
    ensures Penalize(k, c, r, offenses) != 0 ==> r.verdict.Upheld? && c.author.Some?
  {}

  lemma JuryRulingCharges(k: Tariff, c: Case, log: seq<Update>, b: Ballot, v: Verdict, penalty: int)
    ensures Charges(JuryRulingEntries(k, c, log, b, v, penalty)) ==
      Charges(JuryAuthorEntries(k, c, log, v, penalty)) + Charges(SeatEntries(b, k.jurors, JuryTier))
      + Charges(DisputerEntries(k, c, v)) + Charges(JuryReviewerEntries(k, c, v)) + Charges(VindicationEntries(k, c, v))
  {
    hide JuryAuthorEntries, SeatEntries, DisputerEntries, JuryReviewerEntries, VindicationEntries;
    var us := JuryAuthorEntries(k, c, log, v, penalty);
    ChargesConcat(us, SeatEntries(b, k.jurors, JuryTier));
    us := us + SeatEntries(b, k.jurors, JuryTier);
    ChargesConcat(us, DisputerEntries(k, c, v));
    us := us + DisputerEntries(k, c, v);
    ChargesConcat(us, JuryReviewerEntries(k, c, v));
    us := us + JuryReviewerEntries(k, c, v);
    ChargesConcat(us, VindicationEntries(k, c, v));
  }

  method PushSeats(txs: seq<BatchTx>, rs: seq<Reveal>, b: Ballot, t: SeatTariff, tier: Tier) returns (r: seq<BatchTx>)
    requires rs == InTime(b)
    ensures r == txs + Charges(SeatEntries(b, t, tier))
  {
    r := PushVotes(txs, rs, t, tier);
    r := PushAbsences(r, rs, b, t, tier);
    ChargesConcat(VoteEntries(rs, Favoured(rs), t, tier), AbsenceEntries(b.summons, JurorsOf(rs), b, t, tier));
  }

  method PushJuryAuthor(txs: seq<BatchTx>, k: Tariff, c: Case, log: seq<Update>, verdict: Verdict, authorScoreDelta: int)
    returns (r: seq<BatchTx>)
    ensures r == txs + Charges(JuryAuthorEntries(k, c, log, verdict, authorScoreDelta))
  {
    r := txs;
    if verdict.Upheld? && c.author.Some? && authorScoreDelta < 0 {
      r := Push(r, c.author.value, authorScoreDelta, AuthorPenalty);
    }
    if verdict.Upheld? && c.author.Some? {
      var awarded := CreditSum(log, c.author.value, true);
      if awarded > 0 && !Reversed(log) {
        r := Push(r, c.author.value, -awarded, CreditReversal);
      }
    }
  }

  method PushDisputer(txs: seq<BatchTx>, k: Tariff, c: Case, verdict: Verdict) returns (r: seq<BatchTx>)
    ensures r == txs + Charges(DisputerEntries(k, c, verdict))
  {
    r := txs;
    if c.disputer.Some? {
      if verdict.Upheld? {
        r := Push(r, c.disputer.value, k.disputerStake + k.upheldBonus, DisputeUpheld);
      } else if verdict.ConservativeLabel? {
        r := Push(r, c.disputer.value, k.disputerStake, DisputeConservative);
      }
    }
  }

  method PushJuryReviewer(txs: seq<BatchTx>, k: Tariff, c: Case, verdict: Verdict) returns (r: seq<BatchTx>)
    ensures r == txs + Charges(JuryReviewerEntries(k, c, verdict))
  {
    r := txs;
    var esc, dis := Find(c.reviews, EscalatedToDispute), Find(c.reviews, ClosedDismissed);
    if esc.Some? && esc.value.reviewer.Some? && (verdict.Upheld? || verdict.ConservativeLabel?) && k.correctBonus > 0 {
      r := Push(r, esc.value.reviewer.value, k.correctBonus, ReviewBonus(esc.value.id));
    }
    if verdict.Upheld? && esc.None? && k.wrongDismissClawback != 0 {
      if dis.Some? && dis.value.reviewer.Some? {
        r := Push(r, dis.value.reviewer.value, k.wrongDismissClawback, WrongDismiss(dis.value.id));
      }
    }
  }
}
