/** The experts' batch: buildAppealBatch of node/src/jury.js. */
module Appeals {
  import opened Common
  import opened Score
  import opened Ballots
  import opened Reviews
  import opened Ledger
  import opened Settlement

  /** What the chain holds of the earlier steps: the jury's verdict, the penalty it charged, and who appealed. */
  datatype Earlier = Earlier(verdict: Option<Verdict>, penalty: int, appellant: Option<string>)

  predicate Overturns(before: Option<Verdict>, now: Verdict) {
    (before == Some(Upheld) && now.Dismissed?) || (before == Some(Dismissed) && now.Upheld?)
  }

  /** The experts decide: enough votes and no draw. */
  predicate ExpertsDecide(k: Tariff, rs: seq<Reveal>) {
    Count(rs, Match) + Count(rs, Mismatch) >= k.minVotes && !Tied(rs)
  }

  /** The penalty a first or flipped conviction brings. */
  function FreshPenalty(k: Tariff, c: Case, before: Option<Verdict>, r: Ruling, offenses: int): int {
    if r.verdict.Upheld? && (before == Some(Dismissed) || before == Some(NoQuorum)) then Penalize(k, c, r, offenses) else 0
  }

  function AppealOutcome(k: Tariff, c: Case, e: Earlier, b: Ballot, offenses: int): Result3 {
    var rs := InTime(b);
    if !ExpertsDecide(k, rs) then
      Result3(Dismissed, false, true, Count(rs, Match) + Count(rs, Mismatch) >= k.minVotes && Tied(rs), c.author,
              e.verdict, None, None, 0, 0)
    else
      var r := RulingOf(rs, Declared(c), c.claimed);
      Result3(r.verdict, Overturns(e.verdict, r.verdict), false, false, c.author, e.verdict, Declared(c), r.confirmed,
              e.penalty, FreshPenalty(k, c, e.verdict, r, offenses))
  }

  // ---------------------------------------------------------------- no result

  function DefaultEntries(k: Tariff, c: Case, e: Earlier, b: Ballot): seq<Update> {
    AbsenceEntries(b.summons, JurorsOf(InTime(b)), b, k.experts, ExpertTier)
    + Entry(c.disputer, e.verdict == Some(NoQuorum), k.disputerStake, DisputeRefunded)
    + Entry(e.appellant, e.appellant != Some(SYSTEM), k.appellantStake, AppealRefunded)
  }

  // ---------------------------------------------------------------- overturning the jury

  function AppellantEntries(k: Tariff, e: Earlier): seq<Update> {
    Entry(e.appellant, true, k.appellantStake + k.overturnBonus, AppealOverturned)
  }

  function FlippedDisputer(k: Tariff, c: Case, e: Earlier): seq<Update> {
    if e.verdict == Some(Upheld) then Entry(c.disputer, true, -(k.disputerStake + k.upheldBonus), SettlementReversed)
    else Entry(c.disputer, e.verdict == Some(Dismissed), k.disputerStake + k.upheldBonus, StakeRefundedBonus)
  }

  function FlippedAuthor(k: Tariff, c: Case, e: Earlier, penalty: int): seq<Update> {
    if e.verdict == Some(Upheld) then
      Entry(c.author, e.penalty < 0, -e.penalty, PenaltyReversed)
      + Entry(c.author, e.penalty < 0 && k.vindicationBonus > 0, k.vindicationBonus, AppealVindication)
    else
      Entry(c.author, e.verdict == Some(Dismissed) && penalty < 0, penalty, MismatchConfirmed)
      + Entry(c.author, e.verdict == Some(Dismissed) && penalty < 0 && k.vindicationBonus > 0,
              -k.vindicationBonus, VindicationRetracted)
  }

  function FlippedReviewer(k: Tariff, c: Case, e: Earlier, v: Verdict): seq<Update> {
    var esc, dis := Find(c.reviews, EscalatedToDispute), Find(c.reviews, ClosedDismissed);
    Entry(Assigned(esc), k.correctBonus > 0 && (e.verdict == Some(Upheld) || e.verdict == Some(ConservativeLabel)),
          -k.correctBonus, ReviewBonusReversed)
    + Entry(Assigned(esc), k.correctBonus > 0 && Vindicates(v), k.correctBonus, ReviewBonusOnAppeal(ReviewId(esc)))
    + Entry(Assigned(dis), e.verdict == Some(Upheld) && v.Dismissed? && esc.None? && k.wrongDismissClawback != 0,
            -k.wrongDismissClawback, WrongDismissReversed)
  }

  function OverturnEntries(k: Tariff, c: Case, e: Earlier, v: Verdict, penalty: int): seq<Update> {
    AppellantEntries(k, e) + FlippedDisputer(k, c, e) + FlippedAuthor(k, c, e, penalty) + FlippedReviewer(k, c, e, v)
  }

  // ---------------------------------------------------------------- the first verdict

  function FirstDisputer(k: Tariff, c: Case, v: Verdict): seq<Update> {
    match v
    case Upheld => Entry(c.disputer, true, k.disputerStake + k.upheldBonus, Stage3Upheld)
    case ConservativeLabel => Entry(c.disputer, true, k.disputerStake, Stage3Conservative)
    case _ => []
  }

  function FirstReviewer(k: Tariff, c: Case, v: Verdict): seq<Update> {
    var esc, dis := Find(c.reviews, EscalatedToDispute), Find(c.reviews, ClosedDismissed);
    Entry(Assigned(esc), Vindicates(v) && k.correctBonus > 0, k.correctBonus, ReviewBonusNoQuorum(ReviewId(esc)))
    + Entry(Assigned(dis), v.Upheld? && esc.None? && k.wrongDismissClawback != 0,
            k.wrongDismissClawback, WrongDismissNoQuorum(ReviewId(dis)))
  }

  function FirstVerdictEntries(k: Tariff, c: Case, v: Verdict, penalty: int): seq<Update> {
    FirstDisputer(k, c, v) + Entry(c.author, v.Upheld? && penalty < 0, penalty, Stage3Penalty) + FirstReviewer(k, c, v)
  }

  // ---------------------------------------------------------------- the batch

  function FlipEntries(k: Tariff, c: Case, e: Earlier, v: Verdict, penalty: int): seq<Update> {
    if Overturns(e.verdict, v) && e.appellant.Some? then OverturnEntries(k, c, e, v, penalty) else []
  }

  function FirstEntries(k: Tariff, c: Case, e: Earlier, v: Verdict, penalty: int): seq<Update> {
    if e.verdict == Some(NoQuorum) then FirstVerdictEntries(k, c, v, penalty) else []
  }

  function ExpertRulingEntries(k: Tariff, c: Case, log: seq<Update>, e: Earlier, b: Ballot, v: Verdict,
      penalty: int): seq<Update> {
    ExpertCredit(c.author, log, v) + FlipEntries(k, c, e, v, penalty) + FirstEntries(k, c, e, v, penalty)
    + SeatEntries(b, k.experts, ExpertTier)
  }

  function AppealEntries(k: Tariff, c: Case, log: seq<Update>, e: Earlier, b: Ballot, offenses: int): seq<Update> {
    var r := AppealOutcome(k, c, e, b, offenses);
    if r.defaulted then DefaultEntries(k, c, e, b) else ExpertRulingEntries(k, c, log, e, b, r.verdict, r.overturnDelta)
  }

  function AppealBatch(k: Tariff, c: Case, log: seq<Update>, e: Earlier, b: Ballot, offenses: int): seq<BatchTx> {
    [AppealResultTx(AppealOutcome(k, c, e, b, offenses))] + Charges(AppealEntries(k, c, log, e, b, offenses))
  }

  method BuildAppealBatch(k: Tariff, c: Case, log: seq<Update>, e: Earlier, b: Ballot, offenses: int) returns (txs: seq<BatchTx>)
    ensures txs == AppealBatch(k, c, log, e, b, offenses)
  {
    var rs := InTime(b);
    var nonAbstain := Count(rs, Match) + Count(rs, Mismatch);
    var appealIsTie := Count(rs, Match) == Count(rs, Mismatch);
    assert ExpertsDecide(k, rs) <==> !(nonAbstain < k.minVotes || appealIsTie);
    var deadlock := nonAbstain >= k.minVotes && appealIsTie;
    if nonAbstain < k.minVotes || appealIsTie {
      txs := [AppealResultTx(Result3(Dismissed, false, true, deadlock, c.author, e.verdict, None, None, 0, 0))];
      txs := PushDefault(txs, k, c, e, b, rs);
      return;
    }
    var r := Decide(rs, Declared(c), c.claimed);
    var overturned := (e.verdict == Some(Upheld) && r.verdict.Dismissed?) || (e.verdict == Some(Dismissed) && r.verdict.Upheld?);
    var appliesFresh := (e.verdict == Some(Dismissed) && r.verdict.Upheld?) || (e.verdict == Some(NoQuorum) && r.verdict.Upheld?);
    var overturnAuthorDelta := if appliesFresh && c.author.Some? then Penalize(k, c, r, offenses) else 0;
    assert overturnAuthorDelta == FreshPenalty(k, c, e.verdict, r, offenses);
    txs := [AppealResultTx(Result3(r.verdict, overturned, false, false, c.author, e.verdict, Declared(c), r.confirmed,
      e.penalty, overturnAuthorDelta))];
    hide InTime, Count, Tied, Penalize, RulingOf, ExpertRulingEntries, Charges, DefaultEntries, FreshPenalty;
    txs := PushExpertRuling(txs, k, c, log, e, b, rs, r.verdict, overturned, overturnAuthorDelta);
  }

  /** The part of the experts' batch that follows a decision. */
  method PushExpertRuling(txs: seq<BatchTx>, k: Tariff, c: Case, log: seq<Update>, e: Earlier, b: Ballot, rs: seq<Reveal>,
                          v: Verdict, overturned: bool, penalty: int) returns (r: seq<BatchTx>)
    requires rs == InTime(b) && overturned == Overturns(e.verdict, v)
    ensures r == txs + Charges(ExpertRulingEntries(k, c, log, e, b, v, penalty))
  {
    ExpertRulingCharges(k, c, log, e, b, v, penalty);
    hide InTime, ExpertCredit, FlipEntries, FirstEntries, SeatEntries, Charges, ExpertRulingEntries, Overturns;
    r := PushCredit(txs, c.author, log, v);
    r := PushFlip(r, k, c, e, v, overturned, penalty);
    r := PushFirst(r, k, c, e, v, penalty);
    r := PushSeats(r, rs, b, k.experts, ExpertTier);
  }

  lemma ExpertRulingCharges(k: Tariff, c: Case, log: seq<Update>, e: Earlier, b: Ballot, v: Verdict, penalty: int)
    ensures Charges(ExpertRulingEntries(k, c, log, e, b, v, penalty)) ==
      Charges(ExpertCredit(c.author, log, v)) + Charges(FlipEntries(k, c, e, v, penalty))
      + Charges(FirstEntries(k, c, e, v, penalty)) + Charges(SeatEntries(b, k.experts, ExpertTier))
  {
    hide ExpertCredit, FlipEntries, FirstEntries, SeatEntries;
    var us := ExpertCredit(c.author, log, v);
    ChargesConcat(us, FlipEntries(k, c, e, v, penalty));
    us := us + FlipEntries(k, c, e, v, penalty);
    ChargesConcat(us, FirstEntries(k, c, e, v, penalty));
    us := us + FirstEntries(k, c, e, v, penalty);
    ChargesConcat(us, SeatEntries(b, k.experts, ExpertTier));
  }

  method PushDefault(txs: seq<BatchTx>, k: Tariff, c: Case, e: Earlier, b: Ballot, rs: seq<Reveal>) returns (r: seq<BatchTx>)
    requires rs == InTime(b)
    ensures r == txs + Charges(DefaultEntries(k, c, e, b))
  {
    r := PushAbsences(txs, rs, b, k.experts, ExpertTier);
    ghost var absences := AbsenceEntries(b.summons, JurorsOf(rs), b, k.experts, ExpertTier);
    ghost var refund := Entry(c.disputer, e.verdict == Some(NoQuorum), k.disputerStake, DisputeRefunded);
    ChargesConcat(absences, refund);
    ChargesConcat(absences + refund, Entry(e.appellant, e.appellant != Some(SYSTEM), k.appellantStake, AppealRefunded));
    hide AbsenceEntries, InTime, JurorsOf;
    if e.verdict == Some(NoQuorum) && c.disputer.Some? {
      r := Push(r, c.disputer.value, k.disputerStake, DisputeRefunded);
    }
    if e.appellant.Some? && e.appellant.value != SYSTEM {
      r := Push(r, e.appellant.value, k.appellantStake, AppealRefunded);
    }
  }

  method PushCredit(txs: seq<BatchTx>, author: Option<string>, log: seq<Update>, v: Verdict) returns (r: seq<BatchTx>)
    ensures r == txs + Charges(ExpertCredit(author, log, v))
  {
    r := txs;
    if author.Some? {
      var awarded, net := CreditSum(log, author.value, true), CreditSum(log, author.value, false);
      var delta := (if v.Upheld? then 0 else awarded) - net;
      if delta != 0 {
        r := Push(r, author.value, delta, if delta < 0 then CreditReversal else CreditRestore);
      }
    }
  }

  method PushFlip(txs: seq<BatchTx>, k: Tariff, c: Case, e: Earlier, v: Verdict, overturned: bool,
      penalty: int) returns (r: seq<BatchTx>)
    requires overturned == Overturns(e.verdict, v)
    ensures r == txs + Charges(FlipEntries(k, c, e, v, penalty))
  {
    r := txs;
    if overturned && e.appellant.Some? {
      FlipCharges(k, c, e, v, penalty);
      hide Charges, OverturnEntries, FlippedDisputer, FlippedAuthor, FlippedReviewer, AppellantEntries, Overturns;
      r := PushAppellant(r, k, e);
      r := PushFlippedDisputer(r, k, c, e);
      r := PushFlippedAuthor(r, k, c, e, penalty);
      r := PushFlippedReviewer(r, k, c, e, v);
    }
  }

  method PushAppellant(txs: seq<BatchTx>, k: Tariff, e: Earlier) returns (r: seq<BatchTx>)
    ensures r == txs + Charges(AppellantEntries(k, e))
  {
    r := txs;
    if e.appellant.Some? {
      r := Push(r, e.appellant.value, k.appellantStake + k.overturnBonus, AppealOverturned);
    }
  }

  lemma FlipCharges(k: Tariff, c: Case, e: Earlier, v: Verdict, penalty: int)
    ensures Charges(OverturnEntries(k, c, e, v, penalty)) == Charges(AppellantEntries(k, e)) + Charges(FlippedDisputer(k, c, e))
      + Charges(FlippedAuthor(k, c, e, penalty)) + Charges(FlippedReviewer(k, c, e, v))
  {
    hide AppellantEntries, FlippedDisputer, FlippedAuthor, FlippedReviewer;
    var us := AppellantEntries(k, e);
    ChargesConcat(us, FlippedDisputer(k, c, e));
    us := us + FlippedDisputer(k, c, e);
    ChargesConcat(us, FlippedAuthor(k, c, e, penalty));
    us := us + FlippedAuthor(k, c, e, penalty);
    ChargesConcat(us, FlippedReviewer(k, c, e, v));
  }

  method PushFlippedDisputer(txs: seq<BatchTx>, k: Tariff, c: Case, e: Earlier) returns (r: seq<BatchTx>)
    ensures r == txs + Charges(FlippedDisputer(k, c, e))
  {
    r := txs;
    if e.verdict == Some(Upheld) && c.disputer.Some? {
      r := Push(r, c.disputer.value, -(k.disputerStake + k.upheldBonus), SettlementReversed);
    } else if e.verdict == Some(Dismissed) && c.disputer.Some? {
      r := Push(r, c.disputer.value, k.disputerStake + k.upheldBonus, StakeRefundedBonus);
    }
  }

  method PushFlippedAuthor(txs: seq<BatchTx>, k: Tariff, c: Case, e: Earlier, penalty: int) returns (r: seq<BatchTx>)
    ensures r == txs + Charges(FlippedAuthor(k, c, e, penalty))
  {
    r := txs;
    if e.verdict == Some(Upheld) && c.author.Some? && e.penalty < 0 {
      r := Push(r, c.author.value, -e.penalty, PenaltyReversed);
      if k.vindicationBonus > 0 {
        r := Push(r, c.author.value, k.vindicationBonus, AppealVindication);
      }
    } else if e.verdict == Some(Dismissed) && c.author.Some? && penalty < 0 {
      r := Push(r, c.author.value, penalty, MismatchConfirmed);
      if k.vindicationBonus > 0 {
        r := Push(r, c.author.value, -k.vindicationBonus, VindicationRetracted);
      }
    }
  }

  method PushFlippedReviewer(txs: seq<BatchTx>, k: Tariff, c: Case, e: Earlier, v: Verdict) returns (r: seq<BatchTx>)
    ensures r == txs + Charges(FlippedReviewer(k, c, e, v))
  {
    r := txs;
    var esc, dis := Find(c.reviews, EscalatedToDispute), Find(c.reviews, ClosedDismissed);
    if esc.Some? && esc.value.reviewer.Some? && k.correctBonus > 0 {
      if e.verdict == Some(Upheld) || e.verdict == Some(ConservativeLabel) {
        r := Push(r, esc.value.reviewer.value, -k.correctBonus, ReviewBonusReversed);
      }
      if v.Upheld? || v.ConservativeLabel? {
        r := Push(r, esc.value.reviewer.value, k.correctBonus, ReviewBonusOnAppeal(esc.value.id));
      }
    }
    if e.verdict == Some(Upheld) && v.Dismissed? && esc.None? && k.wrongDismissClawback != 0 {
      if dis.Some? && dis.value.reviewer.Some? {
        r := Push(r, dis.value.reviewer.value, -k.wrongDismissClawback, WrongDismissReversed);
      }
    }
  }

  method PushFirst(txs: seq<BatchTx>, k: Tariff, c: Case, e: Earlier, v: Verdict, penalty: int) returns (r: seq<BatchTx>)
    ensures r == txs + Charges(FirstEntries(k, c, e, v, penalty))
  {
    r := txs;
    if e.verdict == Some(NoQuorum) {
      r := PushFirstParties(r, k, c, v, penalty);
      r := PushFirstReviewer(r, k, c, v);
      ChargesConcat(FirstDisputer(k, c, v) +
        Entry(c.author, v.Upheld? && penalty < 0, penalty, Stage3Penalty), FirstReviewer(k, c, v));
    }
  }

  method PushFirstParties(txs: seq<BatchTx>, k: Tariff, c: Case, v: Verdict, penalty: int) returns (r: seq<BatchTx>)
    ensures r == txs + Charges(FirstDisputer(k, c, v) + Entry(c.author, v.Upheld? && penalty < 0, penalty, Stage3Penalty))
  {
    r := txs;
    if v.Upheld? {
      if c.disputer.Some? {
        r := Push(r, c.disputer.value, k.disputerStake + k.upheldBonus, Stage3Upheld);
      }
      if c.author.Some? && penalty < 0 {
        r := Push(r, c.author.value, penalty, Stage3Penalty);
      }
    } else if v.ConservativeLabel? && c.disputer.Some? {
      r := Push(r, c.disputer.value, k.disputerStake, Stage3Conservative);
    }
  }

  method PushFirstReviewer(txs: seq<BatchTx>, k: Tariff, c: Case, v: Verdict) returns (r: seq<BatchTx>)
    ensures r == txs + Charges(FirstReviewer(k, c, v))
  {
    r := txs;
    var esc, dis := Find(c.reviews, EscalatedToDispute), Find(c.reviews, ClosedDismissed);
    if esc.Some? && esc.value.reviewer.Some? && (v.Upheld? || v.ConservativeLabel?) && k.correctBonus > 0 {
      r := Push(r, esc.value.reviewer.value, k.correctBonus, ReviewBonusNoQuorum(esc.value.id));
    }
    if v.Upheld? && esc.None? && k.wrongDismissClawback != 0 {
      if dis.Some? && dis.value.reviewer.Some? {
        r := Push(r, dis.value.reviewer.value, k.wrongDismissClawback, WrongDismissNoQuorum(dis.value.id));
      }
    }
  }
}
